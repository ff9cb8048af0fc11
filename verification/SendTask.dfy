/** The RTP send task (`rtp_send_task` in src/media/session.rs, `RtpSendState` in
    src/media/rtp.rs): numbering of the packets of one stream. */
module SendTask {
  import opened Bits

  /** The RTP header fields of one stream; the next packet takes them as they stand. */
  datatype Stream = Stream(ssrc: u32, sequence: u16, timestamp: u32, payloadType: u8, increment: u32)

  datatype Packet = Packet(header: Stream, payload: seq<u8>)

  /** The stream after `k` packets. */
  function After(start: Stream, k: nat): Stream {
    start.(sequence := (start.sequence + k) % 0x1_0000,
           timestamp := (start.timestamp + k * start.increment) % 0x1_0000_0000)
  }

  /** Wrapping addition of one packet. */
  function Advance(s: Stream): Stream {
    s.(sequence := (s.sequence + 1) % 0x1_0000, timestamp := (s.timestamp + s.increment) % 0x1_0000_0000)
  }

  /** Reducing one summand early does not change a wrapped sum. */
  lemma WrappedSum(x: int, y: int, m: int)
    requires m > 0
    ensures (x % m + y) % m == (x + y) % m
  {
    var q, p, r := x / m, (x % m + y) / m, (x % m + y) % m;
    assert x == m * q + x % m && x % m + y == m * p + r;
    assert x + y == m * (q + p) + r;
    QuotientUnique(x + y, m, q + p, r);
  }

  lemma AfterNone(start: Stream)
    ensures After(start, 0) == start
  {
    QuotientUnique(start.timestamp, 0x1_0000_0000, 0, start.timestamp);
    QuotientUnique(start.sequence, 0x1_0000, 0, start.sequence);
  }

  lemma AdvanceAfter(start: Stream, k: nat)
    ensures Advance(After(start, k)) == After(start, k + 1)
  {
    var t: int, n: int := start.timestamp + k * start.increment, start.sequence + k;
    WrappedSum(t, start.increment, 0x1_0000_0000);
    WrappedSum(n, 1, 0x1_0000);
    assert start.timestamp + (k + 1) * start.increment == t + start.increment;
  }

  /** The mutable state of the source. */
  class RtpSendState {
    const ssrc: u32
    var sequence: u16
    var timestamp: u32
    const payloadType: u8
    const timestampIncrement: u32

    function Current(): Stream
      reads this
    {
      Stream(ssrc, sequence, timestamp, payloadType, timestampIncrement)
    }

    constructor (start: Stream)
      ensures Current() == start
    {
      ssrc, sequence, timestamp := start.ssrc, start.sequence, start.timestamp;
      payloadType, timestampIncrement := start.payloadType, start.increment;
    }

    /** Takes the header of one packet; the counters move on to that of its successor. */
    method Next() returns (current: Stream)
      modifies this
      ensures current == old(Current())
      ensures Current() == After(old(Current()), 1)
      ensures sequence == (if old(sequence) == 0xFFFF then 0 else old(sequence) + 1)
      ensures timestamp == (old(timestamp) + timestampIncrement) % 0x1_0000_0000
    {
      current := Current();
      sequence := (sequence + 1) % 0x1_0000;
      timestamp := (timestamp + timestampIncrement) % 0x1_0000_0000;
    }
  }

  /** How one turn of the send loop can go: the token fires, the channel is closed, or a frame is
      taken that the codec turns into `payload`, which the socket takes or not. */
  datatype Turn = Cancelled | Closed | Frame(payload: seq<u8>, sent: bool)

  /** The send loop, for any sequence of turns and whatever the codec produces: the packets that
      leave are numbered consecutively from the start of the stream, their payloads are the
      non-empty ones in order, and at most one number is used up without a packet. */
  method SendLoop(state: RtpSendState, turns: seq<Turn>) returns (packets: seq<Packet>)
    modifies state
    ensures packets == Numbered(old(state.Current()), Payloads(turns))
    ensures state.Current() == After(old(state.Current()), |packets| + if EndsInFailure(turns) then 1 else 0)
  {
    hide After;
    hide Numbered;
    ghost var start, done := state.Current(), [];
    packets := [];
    AfterNone(start);
    NumberedNone(start);
    var i := 0;
    while i < |turns|
      invariant 0 <= i <= |turns|
      invariant |packets| == |done| && packets == Numbered(start, done)
      invariant state.Current() == After(start, |packets|)
      invariant Payloads(turns) == done + Payloads(turns[i..])
      invariant EndsInFailure(turns) == EndsInFailure(turns[i..])
    {
      assert turns[i..][1..] == turns[i + 1..];
      match turns[i] {
        case Cancelled => break;
        case Closed => break;
        case Frame(payload, sent) =>
          if payload != [] {
            var header := state.Next();
            NextAfter(start, |packets|);
            if !sent {
              assert Payloads(turns) == done;
              return;
            }
            NumberedAppend(start, done, payload);
            packets := packets + [Packet(header, payload)];
            done := done + [payload];
          }
      }
      i := i + 1;
    }
    assert Payloads(turns) == done;
  }

  /** The headers of a numbered stream, packet by packet: the first has the start's numbers, and from
      each to the next the sequence number grows by one and the timestamp by the increment, wrapping
      around; nothing else changes. */
  lemma ConsecutiveHeaders(start: Stream, payloads: seq<seq<u8>>)
    ensures var packets := Numbered(start, payloads);
            && |packets| == |payloads|
            && (packets != [] ==> packets[0].header == start)
            && forall k :: 0 <= k < |packets| - 1 ==>
                 var current, next := packets[k].header, packets[k + 1].header;
                 && next.sequence == (if current.sequence == 0xFFFF then 0 else current.sequence + 1)
                 && (next.timestamp - current.timestamp - start.increment) % 0x1_0000_0000 == 0
                 && next.ssrc == current.ssrc == start.ssrc && next.payloadType == current.payloadType == start.payloadType
  {
    AfterNone(start);
    forall k | 0 <= k < |payloads| - 1
      ensures var current, next := After(start, k), After(start, k + 1);
              && next.sequence == (if current.sequence == 0xFFFF then 0 else current.sequence + 1)
              && (next.timestamp - current.timestamp - start.increment) % 0x1_0000_0000 == 0
    {
      AdvanceAfter(start, k);
      hide After;
      AdvanceWraps(After(start, k));
    }
  }

  lemma AdvanceWraps(s: Stream)
    ensures Advance(s).sequence == (if s.sequence == 0xFFFF then 0 else s.sequence + 1)
    ensures (Advance(s).timestamp - s.timestamp - s.increment) % 0x1_0000_0000 == 0
  {
  }

  lemma NumberedNone(start: Stream)
    ensures Numbered(start, []) == []
  {
  }

  lemma NumberedAppend(start: Stream, payloads: seq<seq<u8>>, payload: seq<u8>)
    ensures Numbered(start, payloads + [payload])
            == Numbered(start, payloads) + [Packet(After(start, |payloads|), payload)]
  {
    hide After;
  }

  lemma NextAfter(start: Stream, k: nat)
    ensures After(After(start, k), 1) == After(start, k + 1)
  {
    AdvanceAfter(start, k);
  }

  /** The payloads the loop sends: non-empty ones, up to the turn that ends it. */
  function Payloads(turns: seq<Turn>): seq<seq<u8>> {
    if turns == [] || !turns[0].Frame? then []
    else if turns[0].payload == [] then Payloads(turns[1..])
    else if turns[0].sent then [turns[0].payload] + Payloads(turns[1..])
    else []
  }

  predicate EndsInFailure(turns: seq<Turn>) {
    if turns == [] || !turns[0].Frame? then false
    else if turns[0].payload != [] && !turns[0].sent then true
    else EndsInFailure(turns[1..])
  }

  function Numbered(start: Stream, payloads: seq<seq<u8>>): seq<Packet> {
    seq(|payloads|, k requires 0 <= k < |payloads| => Packet(After(start, k), payloads[k]))
  }

  // ----- Timestamps of one stream -----

  /** Two numbers agree modulo `m` exactly when `m` divides their difference. */
  lemma CongruentIff(x: int, y: int, m: int)
    requires m > 0
    ensures x % m == y % m <==> exists k :: y - x == m * k
  {
    assert x == m * (x / m) + x % m && y == m * (y / m) + y % m;
    if x % m == y % m {
      assert y - x == m * (y / m - x / m);
    }
    if k :| y - x == m * k {
      assert y == m * (x / m + k) + x % m;
      QuotientUnique(y, m, x / m + k, x % m);
    }
  }

  /** Multiples `i` and `j` of an increment `odd * g` meet modulo `p * g` exactly at distances that
      `p` divides, if `odd` has an inverse modulo `p`. */
  lemma MultiplesMeet(t: int, i: int, j: int, g: int, odd: int, p: int, inverse: int, excess: int)
    requires g > 0 && p > 0 && odd * inverse == p * excess + 1
    ensures (t + i * (odd * g)) % (p * g) == (t + j * (odd * g)) % (p * g) <==> i % p == j % p
  {
    assert p * g > 0;
    var d, x, y := j - i, t + i * (odd * g), t + j * (odd * g);
    CongruentIff(x, y, p * g);
    CongruentIff(i, j, p);
    Distance(t, i, j, odd, g);
    if x % (p * g) == y % (p * g) {
      var k :| y - x == (p * g) * k;
      InvertOdd(d, g, odd, p, inverse, excess, k);
    }
    if i % p == j % p {
      var e :| d == p * e;
      MultipleOfBoth(d, g, odd, p, e);
    }
  }

  lemma Distance(t: int, i: int, j: int, odd: int, g: int)
    ensures (t + j * (odd * g)) - (t + i * (odd * g)) == g * ((j - i) * odd)
  {
    calc {
      j * (odd * g) - i * (odd * g);
      (j - i) * (odd * g);
      ((j - i) * odd) * g;
    }
  }

  lemma InvertOdd(d: int, g: int, odd: int, p: int, inverse: int, excess: int, k: int)
    requires g > 0 && odd * inverse == p * excess + 1
    requires g * (d * odd) == (p * g) * k
    ensures d == p * (k * inverse - excess * d)
  {
    assert (p * g) * k == g * (p * k);
    CancelFactor(g, d * odd, p * k);
    calc {
      d;
      d * (odd * inverse) - d * (p * excess);
      (d * odd) * inverse - p * (excess * d);
      (p * k) * inverse - p * (excess * d);
      p * (k * inverse) - p * (excess * d);
      p * (k * inverse - excess * d);
    }
  }

  lemma MultipleOfBoth(d: int, g: int, odd: int, p: int, e: int)
    requires d == p * e
    ensures g * (d * odd) == (p * g) * (e * odd)
  {
    calc {
      g * (d * odd);
      g * ((p * e) * odd);
      g * (p * (e * odd));
      (p * g) * (e * odd);
    }
  }

  lemma CancelFactor(g: int, a: int, b: int)
    requires g > 0 && g * a == g * b
    ensures a == b
  {
    assert g * (a - b) == 0;
    MultipleAwayFromZero(g, a - b);
  }

  /** Packets of a 160-tick stream share a timestamp exactly when they are congruent modulo 2^27. */
  lemma SameTimestamp160(start: Stream, i: nat, j: nat)
    requires start.increment == 160
    ensures After(start, i).timestamp == After(start, j).timestamp <==> i % 0x800_0000 == j % 0x800_0000
  {
    MultiplesMeet(start.timestamp, i, j, 32, 5, 0x800_0000, 80530637, 3);
  }

  /** At 320 ticks the modulus is 2^26. */
  lemma SameTimestamp320(start: Stream, i: nat, j: nat)
    requires start.increment == 320
    ensures After(start, i).timestamp == After(start, j).timestamp <==> i % 0x400_0000 == j % 0x400_0000
  {
    MultiplesMeet(start.timestamp, i, j, 64, 5, 0x400_0000, 13421773, 1);
  }

  /** At 960 ticks too: 960 holds the same power of two as 320. */
  lemma SameTimestamp960(start: Stream, i: nat, j: nat)
    requires start.increment == 960
    ensures After(start, i).timestamp == After(start, j).timestamp <==> i % 0x400_0000 == j % 0x400_0000
  {
    MultiplesMeet(start.timestamp, i, j, 64, 15, 0x400_0000, 49213167, 11);
  }

  /** With any of the server's codecs, packets with equal timestamps carry equal sequence numbers:
      the timestamp never repeats before the sequence number does. */
  lemma TimestampDeterminesSequence(start: Stream, i: nat, j: nat)
    requires start.increment == 160 || start.increment == 320 || start.increment == 960
    requires After(start, i).timestamp == After(start, j).timestamp
    ensures After(start, i).sequence == After(start, j).sequence
  {
    hide After;
    if start.increment == 160 {
      SameTimestamp160(start, i, j);
      CongruentIff(i, j, 0x800_0000);
      var k :| j - i == 0x800_0000 * k;
      SequenceRepeats(start, i, j, 0x800 * k);
    } else {
      if start.increment == 320 {
        SameTimestamp320(start, i, j);
      } else {
        SameTimestamp960(start, i, j);
      }
      CongruentIff(i, j, 0x400_0000);
      var k :| j - i == 0x400_0000 * k;
      SequenceRepeats(start, i, j, 0x400 * k);
    }
  }

  lemma SequenceRepeats(start: Stream, i: nat, j: nat, k: int)
    requires j - i == 0x1_0000 * k
    ensures After(start, i).sequence == After(start, j).sequence
  {
    CongruentIff(start.sequence + i, start.sequence + j, 0x1_0000);
  }
}
