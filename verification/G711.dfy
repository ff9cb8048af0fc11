/** G.711 payloads and frames (src/codec/pcma.rs, src/codec/pcmu.rs).

    Payload bytes carry 8 kHz audio and frames 16 kHz audio: decoding repeats every sample, encoding
    keeps one sample of every chunk of two, the second one or a lone last one. */
module G711 {
  import opened Bits
  import Pcma
  import Pcmu

  datatype Law = ALaw | MuLaw

  const RESAMPLE_FACTOR := 2

  function EncodeSample(law: Law, sample: i16): u8 {
    match law
    case ALaw => Pcma.EncodeSample(sample)
    case MuLaw => Pcmu.EncodeSample(sample)
  }

  function DecodeSample(law: Law, byte: u8): i16 {
    match law
    case ALaw => Pcma.DecodeSample(byte)
    case MuLaw => Pcmu.DecodeSample(byte)
  }

  /** What a byte turns into on a trip through linear audio. */
  function Canonical(law: Law, byte: u8): u8 {
    match law
    case ALaw => byte
    case MuLaw => Pcmu.Canonical(byte)
  }

  /** Index of the sample that chunk `i` of an `n`-sample frame keeps. */
  function Kept(n: nat, i: nat): nat {
    if 2 * i + 1 < n then 2 * i + 1 else 2 * i
  }

  function Decode(law: Law, payload: seq<u8>): seq<i16> {
    seq(2 * |payload|, i requires 0 <= i < 2 * |payload| => DecodeSample(law, payload[i / 2]))
  }

  function Encode(law: Law, samples: seq<i16>): seq<u8> {
    seq((|samples| + 1) / 2,
        i requires 0 <= i < (|samples| + 1) / 2 => EncodeSample(law, samples[Kept(|samples|, i)]))
  }

  function CanonicalPayload(law: Law, payload: seq<u8>): seq<u8> {
    seq(|payload|, i requires 0 <= i < |payload| => Canonical(law, payload[i]))
  }

  /** A codec instance: the decode table is filled once and only read afterwards. */
  class Codec {
    const law: Law
    const decodeTable: array<i16>

    ghost predicate Valid()
      reads decodeTable
    {
      decodeTable.Length == 256 && forall i :: 0 <= i < 256 ==> decodeTable[i] == DecodeSample(law, i)
    }

    constructor (law: Law)
      ensures Valid() && this.law == law
    {
      hide DecodeSample;
      var table := new i16[256];
      var i := 0;
      while i < 256
        invariant 0 <= i <= 256
        invariant forall k :: 0 <= k < i ==> table[k] == DecodeSample(law, k)
      {
        table[i] := DecodeSample(law, i);
        i := i + 1;
      }
      this.law := law;
      decodeTable := table;
    }

    method DecodePayload(payload: seq<u8>) returns (samples: seq<i16>)
      requires Valid()
      ensures samples == Decode(law, payload)
      ensures |samples| == 2 * |payload|
      ensures forall i :: 0 <= i < |payload| ==> samples[2 * i] == samples[2 * i + 1] == DecodeSample(law, payload[i])
    {
      hide DecodeSample;
      samples := [];
      for i := 0 to |payload|
        invariant samples == Decode(law, payload[..i])
      {
        var sample := decodeTable[payload[i]];
        for n := 0 to RESAMPLE_FACTOR
          invariant samples == Decode(law, payload[..i]) + seq(n, _ => sample)
        {
          samples := samples + [sample];
        }
        assert payload[..i + 1][..i] == payload[..i];
      }
      assert payload[..|payload|] == payload;
    }

    method EncodeFrame(samples: seq<i16>) returns (payload: seq<u8>)
      ensures payload == Encode(law, samples)
      ensures |payload| == (|samples| + 1) / 2
      ensures forall i :: 0 <= 2 * i + 1 < |samples| ==> payload[i] == EncodeSample(law, samples[2 * i + 1])
      ensures |samples| % 2 == 1 ==> payload[|payload| - 1] == EncodeSample(law, samples[|samples| - 1])
    {
      hide EncodeSample;
      payload := [];
      var at := 0;
      while at < |samples|
        invariant at == 2 * |payload|
        invariant |payload| <= (|samples| + 1) / 2
        invariant payload == Encode(law, samples)[..|payload|]
      {
        var chunk := samples[at..if at + 2 <= |samples| then at + 2 else |samples|];
        var sample := chunk[|chunk| / 2];
        assert sample == samples[Kept(|samples|, |payload|)];
        var byte := EncodeOne(sample);
        payload := payload + [byte];
        at := at + RESAMPLE_FACTOR;
      }
    }

    method EncodeOne(sample: i16) returns (byte: u8)
      ensures byte == EncodeSample(law, sample)
    {
      match law
      case ALaw => byte := Pcma.EncodeSampleBySearch(sample);
      case MuLaw => byte := Pcmu.EncodeSampleByLeadingZeros(sample);
    }
  }

  lemma SampleInverse(law: Law, byte: u8)
    ensures EncodeSample(law, DecodeSample(law, byte)) == Canonical(law, byte)
  {
    match law
    case ALaw => Pcma.EncodeInvertsDecode(byte);
    case MuLaw => Pcmu.EncodeInvertsDecode(byte);
  }

  /** Decoding and re-encoding a payload of any length only replaces negative zeros (mu-law). */
  lemma EncodeInvertsDecode(law: Law, payload: seq<u8>)
    ensures Encode(law, Decode(law, payload)) == CanonicalPayload(law, payload)
  {
    hide DecodeSample;
    hide EncodeSample;
    hide Canonical;
    var samples := Decode(law, payload);
    forall i | 0 <= i < |payload|
      ensures Encode(law, samples)[i] == Canonical(law, payload[i])
    {
      assert Kept(|samples|, i) == 2 * i + 1;
      assert samples[2 * i + 1] == DecodeSample(law, payload[i]);
      SampleInverse(law, payload[i]);
    }
  }

  /** A frame after one trip over the wire. */
  function Reconstruct(law: Law, frame: seq<i16>): seq<i16> {
    Decode(law, Encode(law, frame))
  }

  function Quantised(law: Law, sample: i16): i16 {
    DecodeSample(law, EncodeSample(law, sample))
  }

  /** A reconstructed frame has even length, and each pair of neighbours repeats the kept sample. */
  lemma ReconstructShape(law: Law, frame: seq<i16>)
    ensures |Reconstruct(law, frame)| == 2 * ((|frame| + 1) / 2)
    ensures forall k :: 0 <= k < |Reconstruct(law, frame)| ==>
              Kept(|frame|, k / 2) < |frame|
              && Reconstruct(law, frame)[k] == Quantised(law, frame[Kept(|frame|, k / 2)])
  {
    hide DecodeSample;
    hide EncodeSample;
    var payload := Encode(law, frame);
    forall k | 0 <= k < 2 * |payload|
      ensures Kept(|frame|, k / 2) < |frame|
      ensures Decode(law, payload)[k] == Quantised(law, frame[Kept(|frame|, k / 2)])
    {
      assert payload[k / 2] == EncodeSample(law, frame[Kept(|frame|, k / 2)]);
    }
  }

  /** The error either law promises for a reconstructed sample, in thirty-seconds. */
  predicate WithinQuantisationError(law: Law, sample: i16, reconstructed: i16) {
    match law
    case ALaw => 32 * Abs(reconstructed - sample) <= if Abs(sample) < 256 then 256 else Abs(sample)
    case MuLaw => 32 * Abs(reconstructed - sample) <= Abs(sample) + Pcmu.BIAS
  }

  lemma SampleError(law: Law, sample: i16)
    ensures WithinQuantisationError(law, sample, Quantised(law, sample))
  {
    hide Pcma.DecodeSample;
    hide Pcma.EncodeSample;
    hide Pcmu.DecodeSample;
    hide Pcmu.EncodeSample;
    match law
    case ALaw =>
      Pcma.QuantisedSample(sample);
      Pcma.LevelError(Abs(sample));
    case MuLaw =>
      Pcmu.QuantisedSample(sample);
      Pcmu.LevelError(Abs(sample));
  }

  /** The transmitted samples of a frame, the second of each pair and a lone last one, come back twice
      each within the error of the law. */
  ghost predicate TransmittedWithinError(law: Law, frame: seq<i16>, result: seq<i16>) {
    && |result| == 2 * ((|frame| + 1) / 2)
    && (forall i :: 0 <= i < |frame| / 2 ==> BothWithinError(law, frame[2 * i + 1], result[2 * i], result[2 * i + 1]))
    && (|frame| % 2 == 1 ==> BothWithinError(law, frame[|frame| - 1], result[|frame| - 1], result[|frame|]))
  }

  predicate BothWithinError(law: Law, sample: i16, one: i16, other: i16) {
    WithinQuantisationError(law, sample, one) && WithinQuantisationError(law, sample, other)
  }

  /** Every transmitted sample is reconstructed within the error of its law, in both copies. */
  lemma ReconstructError(law: Law, frame: seq<i16>)
    ensures TransmittedWithinError(law, frame, Reconstruct(law, frame))
  {
    hide Quantised;
    hide Reconstruct;
    hide WithinQuantisationError;
    ReconstructShape(law, frame);
    var result := Reconstruct(law, frame);
    forall i | 0 <= i < |frame| / 2
      ensures BothWithinError(law, frame[2 * i + 1], result[2 * i], result[2 * i + 1])
    {
      assert Kept(|frame|, 2 * i / 2) == Kept(|frame|, (2 * i + 1) / 2) == 2 * i + 1;
      SampleError(law, frame[2 * i + 1]);
    }
    if |frame| % 2 == 1 {
      assert Kept(|frame|, (|frame| - 1) / 2) == Kept(|frame|, |frame| / 2) == |frame| - 1;
      SampleError(law, frame[|frame| - 1]);
    }
  }

  lemma SampleMonotone(law: Law, a: i16, b: i16)
    requires a <= b
    ensures Quantised(law, a) <= Quantised(law, b)
  {
    match law
    case ALaw => Pcma.QuantisationMonotone(a, b);
    case MuLaw => Pcmu.QuantisationMonotone(a, b);
  }

  predicate PointwiseAtMost(low: seq<i16>, high: seq<i16>) {
    |low| == |high| && forall i :: 0 <= i < |low| ==> low[i] <= high[i]
  }

  /** Frames keep their pointwise order over the wire. */
  lemma ReconstructMonotone(law: Law, low: seq<i16>, high: seq<i16>)
    requires PointwiseAtMost(low, high)
    ensures PointwiseAtMost(Reconstruct(law, low), Reconstruct(law, high))
  {
    hide Quantised;
    hide Reconstruct;
    ReconstructShape(law, low);
    ReconstructShape(law, high);
    forall k | 0 <= k < |Reconstruct(law, low)|
      ensures Reconstruct(law, low)[k] <= Reconstruct(law, high)[k]
    {
      SampleMonotone(law, low[Kept(|low|, k / 2)], high[Kept(|low|, k / 2)]);
    }
  }

  lemma CanonicalDecodesAlike(law: Law, byte: u8)
    ensures DecodeSample(law, Canonical(law, byte)) == DecodeSample(law, byte)
  {
    hide Pcmu.DecodeSample;
    hide Pcma.DecodeSample;
    if law == MuLaw && byte == 0x7F {
      Pcmu.DecodeMeaning(0x7F);
      Pcmu.DecodeMeaning(0xFF);
      Pcmu.LevelBound(0);
    }
  }

  lemma ReconstructIdempotent(law: Law, frame: seq<i16>)
    ensures Reconstruct(law, Reconstruct(law, frame)) == Reconstruct(law, frame)
  {
    hide DecodeSample;
    hide EncodeSample;
    hide Canonical;
    var payload := Encode(law, frame);
    EncodeInvertsDecode(law, payload);
    forall i | 0 <= i < |payload|
      ensures DecodeSample(law, Canonical(law, payload[i])) == DecodeSample(law, payload[i])
    {
      CanonicalDecodesAlike(law, payload[i]);
    }
    assert Decode(law, CanonicalPayload(law, payload)) == Decode(law, payload);
  }

  /** A frame passed on by `hops` relays, each decoding and re-encoding it. */
  function AfterHops(law: Law, frame: seq<i16>, hops: nat): seq<i16> {
    if hops == 0 then frame else Reconstruct(law, AfterHops(law, frame, hops - 1))
  }

  /** However many relays follow, they change nothing that the first did not. */
  lemma {:induction false} FurtherHopsAreLossless(law: Law, frame: seq<i16>, hops: nat)
    requires hops >= 1
    ensures AfterHops(law, frame, hops) == Reconstruct(law, frame)
  {
    hide Reconstruct;
    if hops == 1 {
      assert AfterHops(law, frame, 0) == frame;
    } else {
      FurtherHopsAreLossless(law, frame, hops - 1);
      ReconstructIdempotent(law, frame);
    }
  }
}
