/** Codec negotiation over a structured SDP offer (src/media/sdp.rs, src/codec/mod.rs). */
module Negotiation {
  import opened Bits
  import opened Wrappers

  /** The codecs compiled in besides the three that always are. */
  datatype Features = Features(opus: bool, g722: bool)

  /** Declared from most to least preferred. */
  datatype CodecKind = L16 | Opus | G722 | Pcmu | Pcma

  function Rank(kind: CodecKind): nat {
    match kind
    case L16 => 0
    case Opus => 1
    case G722 => 2
    case Pcmu => 3
    case Pcma => 4
  }

  lemma RankInjective(a: CodecKind, b: CodecKind)
    requires Rank(a) == Rank(b)
    ensures a == b
  {
  }

  function Lower(c: char): char {
    if 'A' <= c <= 'Z' then c + 32 as char else c
  }

  predicate EqIgnoreAsciiCase(a: string, b: string) {
    |a| == |b| && forall i :: 0 <= i < |a| ==> Lower(a[i]) == Lower(b[i])
  }

  /** `CodecKind::from_name` */
  function FromName(f: Features, name: string): Option<CodecKind> {
    if EqIgnoreAsciiCase(name, "pcmu") then Some(Pcmu)
    else if EqIgnoreAsciiCase(name, "pcma") then Some(Pcma)
    else if f.g722 && EqIgnoreAsciiCase(name, "g722") then Some(G722)
    else if f.opus && EqIgnoreAsciiCase(name, "opus") then Some(Opus)
    else if EqIgnoreAsciiCase(name, "l16") then Some(L16)
    else None
  }

  function Name(kind: CodecKind): string {
    match kind
    case Pcmu => "PCMU"
    case Pcma => "PCMA"
    case G722 => "G722"
    case Opus => "opus"
    case L16 => "L16"
  }

  predicate Compiled(f: Features, kind: CodecKind) {
    (kind == Opus ==> f.opus) && (kind == G722 ==> f.g722)
  }

  /** Clock rate the answer advertises. */
  function ClockRate(kind: CodecKind): nat {
    match kind
    case Opus => 48000
    case L16 => 16000
    case _ => 8000
  }

  /** `rtp_timestamp_increment` of the codec created for `kind`. */
  function TimestampIncrement(kind: CodecKind): nat {
    match kind
    case Opus => 960
    case L16 => 320
    case _ => 160
  }

  datatype Attribute = Rtpmap(payloadType: u32, encodingName: string, clockRate: nat) | Other

  datatype Offer = Offer(payloadTypes: seq<u8>, attributes: seq<Attribute>)

  datatype OfferedCodec = OfferedCodec(payloadType: u8, kind: CodecKind)

  datatype Result = Ok(codec: OfferedCodec) | NoSupportedCodec

  /** The name a dynamic payload type goes by: that of its first rtpmap, unless that is an L16 of
      another rate than 16 kHz. */
  function RtpmapName(attributes: seq<Attribute>, pt: u8): Option<string> {
    if attributes == [] then None
    else if attributes[0].Rtpmap? && attributes[0].payloadType == pt then
      if EqIgnoreAsciiCase(attributes[0].encodingName, "l16") && attributes[0].clockRate != 16000 then None
      else Some(attributes[0].encodingName)
    else RtpmapName(attributes[1..], pt)
  }

  function Decimal(n: nat): string {
    if n < 10 then ['0' + n as char] else Decimal(n / 10) + ['0' + (n % 10) as char]
  }

  function CodecName(attributes: seq<Attribute>, pt: u8): string {
    if pt == 0 then "PCMU"
    else if pt == 8 then "PCMA"
    else if pt == 9 then "G722"
    else match RtpmapName(attributes, pt)
      case Some(name) => name
      case None => "PT" + Decimal(pt)
  }

  function Resolve(f: Features, attributes: seq<Attribute>, pt: u8): Option<CodecKind> {
    FromName(f, CodecName(attributes, pt))
  }

  /** The supported codecs of an offer, in the order of its payload types. */
  function Supported(f: Features, attributes: seq<Attribute>, pts: seq<u8>): seq<OfferedCodec> {
    if pts == [] then []
    else
      var rest := Supported(f, attributes, pts[1..]);
      match Resolve(f, attributes, pts[0])
      case Some(kind) => [OfferedCodec(pts[0], kind)] + rest
      case None => rest
  }

  /** `select_preferred`: the first of the lowest rank. */
  function SelectPreferred(codecs: seq<OfferedCodec>): Option<OfferedCodec> {
    if codecs == [] then None
    else
      var rest := SelectPreferred(codecs[1..]);
      if rest.None? || Rank(codecs[0].kind) <= Rank(rest.value.kind) then Some(codecs[0]) else rest
  }

  function Negotiate(f: Features, o: Offer): Result {
    match SelectPreferred(Supported(f, o.attributes, o.payloadTypes))
    case Some(codec) => Ok(codec)
    case None => NoSupportedCodec
  }

  /** The resolution loops of `parse_sdp_offer` as written. */
  method ResolveOffer(f: Features, o: Offer) returns (codecs: seq<OfferedCodec>)
    ensures codecs == Supported(f, o.attributes, o.payloadTypes)
  {
    hide FromName;
    hide CodecName;
    codecs := [];
    var i := 0;
    while i < |o.payloadTypes|
      invariant 0 <= i <= |o.payloadTypes|
      invariant codecs + Supported(f, o.attributes, o.payloadTypes[i..])
                == Supported(f, o.attributes, o.payloadTypes)
    {
      var pt := o.payloadTypes[i];
      var name := FindName(o.attributes, pt);
      var kind := FromName(f, name);
      assert o.payloadTypes[i..][1..] == o.payloadTypes[i + 1..];
      if kind.Some? {
        codecs := codecs + [OfferedCodec(pt, kind.value)];
      }
      i := i + 1;
    }
  }

  method FindName(attributes: seq<Attribute>, pt: u8) returns (name: string)
    ensures name == CodecName(attributes, pt)
  {
    hide Decimal;
    hide RtpmapName;
    if pt == 0 {
      name := "PCMU";
    } else if pt == 8 {
      name := "PCMA";
    } else if pt == 9 {
      name := "G722";
    } else {
      var found := FindRtpmap(attributes, pt);
      name := if found.Some? then found.value else "PT" + Decimal(pt);
    }
  }

  method FindRtpmap(attributes: seq<Attribute>, pt: u8) returns (found: Option<string>)
    ensures found == RtpmapName(attributes, pt)
  {
    found := None;
    var i := 0;
    while i < |attributes|
      invariant 0 <= i <= |attributes|
      invariant found == None && RtpmapName(attributes, pt) == RtpmapName(attributes[i..], pt)
    {
      assert attributes[i..][1..] == attributes[i + 1..];
      match attributes[i] {
        case Rtpmap(payloadType, encodingName, clockRate) =>
          if payloadType == pt {
            if EqIgnoreAsciiCase(encodingName, "l16") && clockRate != 16000 {
              break;
            }
            found := Some(encodingName);
            break;
          }
        case Other =>
      }
      i := i + 1;
    }
  }

  // ----- Which codec is selected -----

  predicate Resolves(f: Features, o: Offer, i: int) {
    0 <= i < |o.payloadTypes| && Resolve(f, o.attributes, o.payloadTypes[i]).Some?
  }

  function KindAt(f: Features, o: Offer, i: int): CodecKind
    requires Resolves(f, o, i)
  {
    Resolve(f, o.attributes, o.payloadTypes[i]).value
  }

  /** Entry `i` of the offer is the earliest of the most preferred kind. */
  ghost predicate IsSelection(f: Features, o: Offer, i: int, codec: OfferedCodec) {
    && Resolves(f, o, i)
    && codec == OfferedCodec(o.payloadTypes[i], KindAt(f, o, i))
    && (forall j :: Resolves(f, o, j) ==> Rank(codec.kind) <= Rank(KindAt(f, o, j)))
    && (forall j :: Resolves(f, o, j) && j < i ==> Rank(codec.kind) < Rank(KindAt(f, o, j)))
  }

  function Tail(o: Offer): Offer
    requires o.payloadTypes != []
  {
    o.(payloadTypes := o.payloadTypes[1..])
  }

  lemma TailEntry(f: Features, o: Offer, j: int)
    requires o.payloadTypes != []
    ensures Resolves(f, Tail(o), j) <==> j >= 0 && Resolves(f, o, j + 1)
    ensures Resolves(f, Tail(o), j) ==> KindAt(f, Tail(o), j) == KindAt(f, o, j + 1)
  {
  }

  /** The negotiation finds the selection, if any entry of the offer resolves at all. */
  lemma {:induction false} NegotiateFindsSelection(f: Features, o: Offer) returns (i: int)
    ensures Negotiate(f, o).Ok? ==> IsSelection(f, o, i, Negotiate(f, o).codec)
    ensures Negotiate(f, o).NoSupportedCodec? ==> forall j :: !Resolves(f, o, j)
    decreases |o.payloadTypes|
  {
    hide Resolve;
    i := 0;
    if o.payloadTypes != [] {
      var k := NegotiateFindsSelection(f, Tail(o));
      i := if Negotiate(f, Tail(o)).Ok? && Negotiate(f, o) == Negotiate(f, Tail(o)) && !SelectsHead(f, o)
           then k + 1 else 0;
      forall j | Resolves(f, o, j)
        ensures j > 0 ==> Resolves(f, Tail(o), j - 1) && KindAt(f, Tail(o), j - 1) == KindAt(f, o, j)
      {
        TailEntry(f, o, j - 1);
      }
    }
  }

  predicate SelectsHead(f: Features, o: Offer)
    requires o.payloadTypes != []
  {
    Resolves(f, o, 0)
    && (Negotiate(f, Tail(o)).Ok? ==> Rank(KindAt(f, o, 0)) <= Rank(Negotiate(f, Tail(o)).codec.kind))
  }

  /** A selection is unique. */
  lemma SelectionUnique(f: Features, o: Offer, i: int, a: OfferedCodec, j: int, b: OfferedCodec)
    requires IsSelection(f, o, i, a) && IsSelection(f, o, j, b)
    ensures i == j && a == b
  {
    hide Resolve;
  }

  /** The negotiated codec is exactly the earliest-listed entry of the most preferred kind offered,
      and the call is refused exactly when no entry resolves. */
  lemma SelectionCharacterised(f: Features, o: Offer, codec: OfferedCodec)
    ensures Negotiate(f, o) == Ok(codec) <==> exists i :: IsSelection(f, o, i, codec)
    ensures Negotiate(f, o) == NoSupportedCodec <==> forall i :: !Resolves(f, o, i)
  {
    hide Resolve;
    hide Negotiate;
    var k := NegotiateFindsSelection(f, o);
    if i :| IsSelection(f, o, i, codec) {
      SelectionUnique(f, o, i, codec, k, Negotiate(f, o).codec);
    }
  }

  /** Some entry of the offer resolves to the kind. */
  ghost predicate Offers(f: Features, o: Offer, kind: CodecKind) {
    exists i :: Resolves(f, o, i) && KindAt(f, o, i) == kind
  }

  /** The preference of the server, kind by kind: L16 if it is offered at all, Opus if it is offered and
      L16 is not, and so on down to PCMA, which is taken only if nothing else is offered. Of several
      entries of that kind the first is selected. */
  lemma PreferenceOrder(f: Features, o: Offer)
    requires Negotiate(f, o).Ok?
    ensures exists i :: Resolves(f, o, i) && Negotiate(f, o).codec == OfferedCodec(o.payloadTypes[i], KindAt(f, o, i))
                        && forall j :: 0 <= j < i && Resolves(f, o, j) ==> KindAt(f, o, j) != KindAt(f, o, i)
    ensures var kind := Negotiate(f, o).codec.kind;
            && Offers(f, o, kind)
            && (kind == L16 <==> Offers(f, o, L16))
            && (kind == Opus <==> Offers(f, o, Opus) && !Offers(f, o, L16))
            && (kind == G722 <==> Offers(f, o, G722) && !Offers(f, o, L16) && !Offers(f, o, Opus))
            && (kind == Pcmu <==>
                  Offers(f, o, Pcmu) && !Offers(f, o, L16) && !Offers(f, o, Opus) && !Offers(f, o, G722))
            && (kind == Pcma <==>
                  !Offers(f, o, L16) && !Offers(f, o, Opus) && !Offers(f, o, G722) && !Offers(f, o, Pcmu))
  {
    hide Resolve;
    hide Negotiate;
    var i := NegotiateFindsSelection(f, o);
  }

  /** Offering more payload types never loses a call and never worsens the codec: what is selected is the
      kind selected before or one preferred to it. */
  lemma MoreTypesNeverWorse(f: Features, fewer: Offer, more: Offer)
    requires more.attributes == fewer.attributes
    requires forall pt :: pt in fewer.payloadTypes ==> pt in more.payloadTypes
    requires Negotiate(f, fewer).Ok?
    ensures Negotiate(f, more).Ok?
    ensures Rank(Negotiate(f, more).codec.kind) <= Rank(Negotiate(f, fewer).codec.kind)
    ensures var before, after := Negotiate(f, fewer).codec.kind, Negotiate(f, more).codec.kind;
            match before
            case L16 => after == L16
            case Opus => after == L16 || after == Opus
            case G722 => after == L16 || after == Opus || after == G722
            case Pcmu => after != Pcma
            case Pcma => true
  {
    hide Resolve;
    hide Negotiate;
    var i := NegotiateFindsSelection(f, fewer);
    var j := NegotiateFindsSelection(f, more);
    var pt := fewer.payloadTypes[i];
    assert pt in more.payloadTypes;
    var k :| 0 <= k < |more.payloadTypes| && more.payloadTypes[k] == pt;
    assert Resolves(f, more, k) && KindAt(f, more, k) == KindAt(f, fewer, i);
  }

  /** Only the set of payload types decides the kind: order and repetition do not. */
  lemma OrderIsIrrelevant(f: Features, a: Offer, b: Offer)
    requires a.attributes == b.attributes
    requires forall pt :: pt in a.payloadTypes <==> pt in b.payloadTypes
    ensures Negotiate(f, a).Ok? <==> Negotiate(f, b).Ok?
    ensures Negotiate(f, a).Ok? ==> Negotiate(f, a).codec.kind == Negotiate(f, b).codec.kind
  {
    hide Negotiate;
    if Negotiate(f, a).Ok? {
      MoreTypesNeverWorse(f, a, b);
      MoreTypesNeverWorse(f, b, a);
      RankInjective(Negotiate(f, a).codec.kind, Negotiate(f, b).codec.kind);
    } else if Negotiate(f, b).Ok? {
      MoreTypesNeverWorse(f, b, a);
    }
  }

  // ----- The answer -----

  /** The negotiable content of `generate_sdp_answer`. */
  function Answer(codec: OfferedCodec): Offer {
    Offer([codec.payloadType], [Rtpmap(codec.payloadType, Name(codec.kind), ClockRate(codec.kind))])
  }

  /** A name denotes a kind exactly when it is that kind's name in any case, and compiled in. */
  lemma FromNameExactly(f: Features, name: string, kind: CodecKind)
    ensures FromName(f, name) == Some(kind) <==> Compiled(f, kind) && EqIgnoreAsciiCase(name, Name(kind))
  {
    CaseOfNames(name);
    NamesDiffer(name);
  }

  lemma CaseOfNames(name: string)
    ensures EqIgnoreAsciiCase(name, "pcmu") <==> EqIgnoreAsciiCase(name, "PCMU")
    ensures EqIgnoreAsciiCase(name, "pcma") <==> EqIgnoreAsciiCase(name, "PCMA")
    ensures EqIgnoreAsciiCase(name, "g722") <==> EqIgnoreAsciiCase(name, "G722")
    ensures EqIgnoreAsciiCase(name, "l16") <==> EqIgnoreAsciiCase(name, "L16")
  {
    SameInAnyCase("pcmu", "PCMU", name);
    SameInAnyCase("pcma", "PCMA", name);
    SameInAnyCase("g722", "G722", name);
    SameInAnyCase("l16", "L16", name);
  }

  lemma SameInAnyCase(a: string, b: string, name: string)
    requires EqIgnoreAsciiCase(a, b)
    ensures EqIgnoreAsciiCase(name, a) <==> EqIgnoreAsciiCase(name, b)
  {
  }

  /** No name denotes two kinds. */
  lemma NamesDiffer(name: string)
    ensures !(EqIgnoreAsciiCase(name, "pcmu") && EqIgnoreAsciiCase(name, "pcma"))
    ensures EqIgnoreAsciiCase(name, "pcmu") || EqIgnoreAsciiCase(name, "pcma") ==>
              !EqIgnoreAsciiCase(name, "g722") && !EqIgnoreAsciiCase(name, "opus") && !EqIgnoreAsciiCase(name, "l16")
    ensures EqIgnoreAsciiCase(name, "g722") ==> !EqIgnoreAsciiCase(name, "opus") && !EqIgnoreAsciiCase(name, "l16")
    ensures EqIgnoreAsciiCase(name, "opus") ==> !EqIgnoreAsciiCase(name, "l16")
  {
    assert Lower("pcmu"[3]) == 'u' && Lower("pcma"[3]) == 'a';
    assert Lower("pcmu"[0]) == 'p' && Lower("pcma"[0]) == 'p' && Lower("g722"[0]) == 'g' && Lower("opus"[0]) == 'o';
  }

  lemma NameRoundTrip(f: Features, kind: CodecKind)
    ensures FromName(f, Name(kind)) == if Compiled(f, kind) then Some(kind) else None
  {
    hide FromName;
    hide EqIgnoreAsciiCase;
    NameReflexive(Name(kind));
    FromNameExactly(f, Name(kind), kind);
    if FromName(f, Name(kind)).Some? {
      var other := FromName(f, Name(kind)).value;
      FromNameExactly(f, Name(kind), other);
      NameInjective(kind, other);
    }
  }

  lemma NameReflexive(name: string)
    ensures EqIgnoreAsciiCase(name, name)
  {
  }

  lemma NameInjective(a: CodecKind, b: CodecKind)
    requires EqIgnoreAsciiCase(Name(a), Name(b))
    ensures a == b
  {
    CaseOfNames(Name(a));
    NamesDiffer(Name(a));
    NameReflexive(Name(a));
  }

  lemma FromNameCompiled(f: Features, name: string)
    ensures FromName(f, name).Some? ==> Compiled(f, FromName(f, name).value)
  {
  }

  /** Names made up for unmapped payload types are no codec. */
  lemma PlaceholderUnsupported(f: Features, pt: u8)
    ensures FromName(f, "PT" + Decimal(pt)) == None
  {
    var name := "PT" + Decimal(pt);
    assert Lower(name[0]) == 'p' && Lower(name[1]) == 't';
    assert Lower("pcmu"[1]) == 'c' && Lower("pcma"[1]) == 'c' && Lower("g722"[0]) == 'g';
    assert Lower("opus"[0]) == 'o' && Lower("l16"[0]) == 'l';
  }

  /** A string of digits read as a number. */
  function ValueOf(digits: string): int {
    if digits == "" then 0
    else 10 * ValueOf(digits[..|digits| - 1]) + (digits[|digits| - 1] as int - '0' as int)
  }

  lemma {:induction false} DecimalReads(n: nat)
    ensures forall i :: 0 <= i < |Decimal(n)| ==> '0' <= Decimal(n)[i] <= '9'
    ensures ValueOf(Decimal(n)) == n
  {
    if n >= 10 {
      DecimalReads(n / 10);
      assert Decimal(n)[..|Decimal(n)| - 1] == Decimal(n / 10);
    } else {
      assert Decimal(n)[..0] == "";
    }
  }

  /** A dynamic payload type without a usable rtpmap goes by its own number, and is no codec. */
  lemma UnmappedType(f: Features, attributes: seq<Attribute>, pt: u8)
    requires pt != 0 && pt != 8 && pt != 9 && RtpmapName(attributes, pt) == None
    ensures var name := CodecName(attributes, pt);
            |name| > 2 && name[..2] == "PT" && ValueOf(name[2..]) == pt
    ensures Resolve(f, attributes, pt) == None
  {
    DecimalReads(pt);
    PlaceholderUnsupported(f, pt);
    assert ("PT" + Decimal(pt))[2..] == Decimal(pt);
  }

  /** Static payload types have their kind whatever the attributes say. */
  lemma StaticTypes(f: Features, attributes: seq<Attribute>, pt: u8)
    requires pt == 0 || pt == 8 || pt == 9
    ensures Resolve(f, attributes, pt) ==
            if pt == 0 then Some(Pcmu) else if pt == 8 then Some(Pcma) else if f.g722 then Some(G722) else None
  {
    hide FromName;
    NameRoundTrip(f, Pcmu);
    NameRoundTrip(f, Pcma);
    NameRoundTrip(f, G722);
  }

  /** An answer resolves to the codec it names. */
  lemma AnswerResolves(f: Features, attributes: seq<Attribute>, codec: OfferedCodec)
    requires Resolve(f, attributes, codec.payloadType) == Some(codec.kind)
    ensures Resolve(f, Answer(codec).attributes, codec.payloadType) == Some(codec.kind)
  {
    hide FromName;
    hide Decimal;
    var pt := codec.payloadType;
    if pt == 0 || pt == 8 || pt == 9 {
      StaticTypes(f, attributes, pt);
      StaticTypes(f, Answer(codec).attributes, pt);
    } else {
      FromNameCompiled(f, CodecName(attributes, pt));
      NameRoundTrip(f, codec.kind);
      assert Answer(codec).attributes[0].clockRate == ClockRate(codec.kind);
      assert codec.kind != L16 ==> !EqIgnoreAsciiCase(Name(codec.kind), "l16");
    }
  }

  /** The answer is a fixed point of the negotiation (section 6 of RFC 3264): a peer running the same
      negotiation on it selects the same payload type and codec. The payload type was offered, and
      the codec's timestamp advances by 20 ms of the advertised clock. */
  lemma AnswerIsFixedPoint(f: Features, o: Offer)
    requires Negotiate(f, o).Ok?
    ensures Negotiate(f, Answer(Negotiate(f, o).codec)) == Negotiate(f, o)
    ensures Negotiate(f, o).codec.payloadType in o.payloadTypes
    ensures 1000 * TimestampIncrement(Negotiate(f, o).codec.kind) == 20 * ClockRate(Negotiate(f, o).codec.kind)
  {
    hide Resolve;
    var codec := Negotiate(f, o).codec;
    var i := NegotiateFindsSelection(f, o);
    AnswerResolves(f, o.attributes, codec);
    var answer := Answer(codec);
    assert answer.payloadTypes[1..] == [];
    assert Supported(f, answer.attributes, answer.payloadTypes) == [codec];
    assert [codec][1..] == [];
    assert SelectPreferred([codec]) == Some(codec);
  }

  /** What the answer says: the negotiated payload type alone, mapped to the name and the clock rate
      that the codec has in SDP (section 6 of RFC 3551; RFC 7587 for Opus). The name is one that denotes
      the kind, and the timestamps of the codec advance by 20 ms of the rate. */
  lemma AnswerContent(f: Features, o: Offer)
    requires Negotiate(f, o).Ok?
    ensures var codec := Negotiate(f, o).codec;
            var answer := Answer(codec);
            && answer.payloadTypes == [codec.payloadType]
            && |answer.attributes| == 1 && answer.attributes[0].Rtpmap?
            && answer.attributes[0].payloadType == codec.payloadType
            && FromName(f, answer.attributes[0].encodingName) == Some(codec.kind)
            && 1000 * TimestampIncrement(codec.kind) == 20 * answer.attributes[0].clockRate
            && match codec.kind
               case L16 => answer.attributes[0].encodingName == "L16" && answer.attributes[0].clockRate == 16000
               case Opus => answer.attributes[0].encodingName == "opus" && answer.attributes[0].clockRate == 48000
               case G722 => answer.attributes[0].encodingName == "G722" && answer.attributes[0].clockRate == 8000
               case Pcmu => answer.attributes[0].encodingName == "PCMU" && answer.attributes[0].clockRate == 8000
               case Pcma => answer.attributes[0].encodingName == "PCMA" && answer.attributes[0].clockRate == 8000
  {
    hide FromName;
    hide Negotiate;
    var i := NegotiateFindsSelection(f, o);
    var codec := Negotiate(f, o).codec;
    FromNameCompiled(f, CodecName(o.attributes, codec.payloadType));
    NameRoundTrip(f, codec.kind);
  }

  /** The first rtpmap of a payload type. */
  function FirstRtpmap(attributes: seq<Attribute>, pt: u8): Option<Attribute> {
    if attributes == [] then None
    else if attributes[0].Rtpmap? && attributes[0].payloadType == pt then Some(attributes[0])
    else FirstRtpmap(attributes[1..], pt)
  }

  lemma {:induction false} RtpmapNameIsFirst(attributes: seq<Attribute>, pt: u8)
    ensures FirstRtpmap(attributes, pt).Some? ==> FirstRtpmap(attributes, pt).value.Rtpmap?
    ensures RtpmapName(attributes, pt) ==
            match FirstRtpmap(attributes, pt)
            case Some(Rtpmap(_, name, rate)) =>
              if EqIgnoreAsciiCase(name, "l16") && rate != 16000 then None else Some(name)
            case _ => None
  {
    if attributes != [] {
      RtpmapNameIsFirst(attributes[1..], pt);
    }
  }

  /** A dynamic payload type resolves to a kind exactly when its first rtpmap names that kind, which
      is compiled in, and for L16 runs at 16 kHz. */
  lemma ResolveExactly(f: Features, attributes: seq<Attribute>, pt: u8, kind: CodecKind)
    requires pt != 0 && pt != 8 && pt != 9
    ensures Resolve(f, attributes, pt) == Some(kind) <==>
            var first := FirstRtpmap(attributes, pt);
            && first.Some? && first.value.Rtpmap?
            && EqIgnoreAsciiCase(first.value.encodingName, Name(kind)) && Compiled(f, kind)
            && (kind == L16 ==> first.value.clockRate == ClockRate(L16))
  {
    hide FromName;
    hide Decimal;
    hide EqIgnoreAsciiCase;
    PlaceholderUnsupported(f, pt);
    RtpmapNameIsFirst(attributes, pt);
    var first := FirstRtpmap(attributes, pt);
    if first.Some? {
      var name := first.value.encodingName;
      FromNameExactly(f, name, kind);
      FromNameExactly(f, name, L16);
      CaseOfNames(name);
    }
  }

  /** When L16 is negotiated, the peer offered it at the rate the answer advertises. */
  lemma L16RateAgrees(f: Features, o: Offer)
    requires Negotiate(f, o).Ok? && Negotiate(f, o).codec.kind == L16
    ensures var rtpmap := FirstRtpmap(o.attributes, Negotiate(f, o).codec.payloadType);
            rtpmap.Some? && rtpmap.value.Rtpmap? && rtpmap.value.clockRate == ClockRate(L16)
  {
    hide Negotiate;
    hide Resolve;
    var pt := Negotiate(f, o).codec.payloadType;
    var i := NegotiateFindsSelection(f, o);
    if pt == 0 || pt == 8 || pt == 9 {
      StaticTypes(f, o.attributes, pt);
    } else {
      ResolveExactly(f, o.attributes, pt, L16);
    }
  }

  /** The payload type stands for the kind: by its number, or by the name its rtpmap gives. */
  predicate Denotes(pt: u8, name: string, kind: CodecKind) {
    if pt == 0 then kind == Pcmu
    else if pt == 8 then kind == Pcma
    else if pt == 9 then kind == G722
    else EqIgnoreAsciiCase(name, Name(kind))
  }

  /** For the other kinds the offered rate is not looked at: on any payload type that stands for the
      kind, at any rate whatever, the kind is accepted. */
  lemma OtherRatesIgnored(f: Features, kind: CodecKind, pt: u8, name: string, rate: nat)
    requires kind != L16 && Compiled(f, kind) && Denotes(pt, name, kind)
    ensures Negotiate(f, Offer([pt], [Rtpmap(pt, name, rate)])) == Ok(OfferedCodec(pt, kind))
  {
    hide Resolve;
    hide EqIgnoreAsciiCase;
    hide Name;
    var o := Offer([pt], [Rtpmap(pt, name, rate)]);
    if pt == 0 || pt == 8 || pt == 9 {
      StaticTypes(f, o.attributes, pt);
    } else {
      ResolveExactly(f, o.attributes, pt, kind);
    }
    assert o.payloadTypes[1..] == [];
    assert Supported(f, o.attributes, o.payloadTypes) == [OfferedCodec(pt, kind)];
    assert [OfferedCodec(pt, kind)][1..] == [];
    assert SelectPreferred([OfferedCodec(pt, kind)]) == Some(OfferedCodec(pt, kind));
  }

  /** The peer's first rtpmap for the payload type of `codec`, if it gave one, has the clock rate the
      answer advertises. */
  predicate RateAgrees(o: Offer, codec: OfferedCodec) {
    match FirstRtpmap(o.attributes, codec.payloadType)
    case Some(Rtpmap(_, _, rate)) => rate == ClockRate(codec.kind)
    case _ => true
  }

  /** Whatever is offered, a codec of this kind is answered at the rate it was offered at. */
  ghost predicate AnsweredAtOfferedRate(f: Features, kind: CodecKind) {
    forall o: Offer :: Negotiate(f, o).Ok? && Negotiate(f, o).codec.kind == kind ==>
      RateAgrees(o, Negotiate(f, o).codec)
  }

  /** The answered clock rate is always the offered one for L16, and for no other codec. */
  lemma AnsweredAtOfferedRateExactlyWhen(f: Features, kind: CodecKind)
    requires Compiled(f, kind)
    ensures AnsweredAtOfferedRate(f, kind) <==> kind == L16
  {
    hide Negotiate;
    if kind == L16 {
      forall o: Offer | Negotiate(f, o).Ok? && Negotiate(f, o).codec.kind == kind
        ensures RateAgrees(o, Negotiate(f, o).codec)
      {
        L16RateAgrees(f, o);
      }
    } else {
      var o := Offer([96], [Rtpmap(96, Name(kind), ClockRate(kind) + 1)]);
      NameReflexive(Name(kind));
      OtherRatesIgnored(f, kind, 96, Name(kind), ClockRate(kind) + 1);
      assert !RateAgrees(o, Negotiate(f, o).codec);
    }
  }
}
