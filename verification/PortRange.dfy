/** The range of RTP/RTCP port pairs and its round-robin cursor (`RtpPortRange` in
    src/media/rtp.rs). Port arithmetic is on sixteen bits and wraps. */
module PortRange {
  import opened Bits
  import opened Wrappers

  datatype Range = Range(first: u16, last: u16)

  function Wrap16(x: int): u16 {
    x % 0x1_0000
  }

  /** `RtpPortRange::new`: the last RTP port is the largest even port whose RTCP partner is not
      above `maxPort`. */
  function New(minPort: u16, maxPort: u16): Option<Range> {
    if maxPort <= minPort then None
    else if maxPort % 2 == 0 then Some(Range(minPort, Wrap16(maxPort - 2)))
    else Some(Range(minPort, Wrap16(maxPort - 1)))
  }

  function Capacity(r: Range): u16 {
    Wrap16(r.last - r.first) / 2 + 1
  }

  /** The value the compare-exchange installs after `current`. */
  function NextPort(r: Range, current: u16): u16 {
    if Wrap16(current + 2) > r.last then r.first else Wrap16(current + 2)
  }

  /** The cursor after `n` draws from a fresh range. */
  function CursorAfter(r: Range, n: nat): u16 {
    if n == 0 then r.first else NextPort(r, CursorAfter(r, n - 1))
  }

  /** RTP port of pair `i`. */
  function PairPort(r: Range, i: nat): nat {
    r.first + 2 * i
  }

  /** The two ports of the pair whose RTP port is `port` (section 11 of RFC 3550). */
  function PairOf(port: int): set<int> {
    {port, port + 1}
  }

  /** The port a socket asked for `port` occupies. Asking for port 0 means any free port, so it takes
      none of the ports of the pool; the port the system picks instead counts as one used from
      outside. */
  function SocketOn(port: int): set<int> {
    if port == 0 then {} else {port}
  }

  /** The ports occupied by the two sockets of a pair. */
  function PairSockets(port: int): set<int> {
    SocketOn(port) + SocketOn(port + 1)
  }

  /** What a draw at cursor `current` must meet: every sum and difference computed is the true one,
      and the pair lies in the configured range with the parity of its first port. */
  predicate SoundDraw(r: Range, maxPort: u16, current: u16) {
    && r.first <= current <= r.last
    && current % 2 == r.first % 2
    && current + 1 <= maxPort
    && current + 2 < 0x1_0000
  }

  /** A range on which no draw leaves the pool or overflows. */
  predicate Usable(r: Range) {
    r.first <= r.last && PairPort(r, (r.last - r.first) / 2) + 2 < 0x1_0000
  }

  lemma UsableCapacity(r: Range)
    requires Usable(r)
    ensures Capacity(r) == (r.last - r.first) / 2 + 1 >= 1
    ensures PairPort(r, Capacity(r) - 1) <= r.last < PairPort(r, Capacity(r))
  {
  }

  /** The remainder by a fixed modulus counts up and starts over. */
  lemma NextRemainder(n: nat, c: nat)
    requires c > 0
    ensures (n + 1) % c == if n % c + 1 == c then 0 else n % c + 1
  {
    var d := n / c;
    assert n == c * d + n % c;
    if n % c + 1 == c {
      assert n + 1 == c * (d + 1);
      QuotientUnique(n + 1, c, d + 1, 0);
    } else {
      QuotientUnique(n + 1, c, d, n % c + 1);
    }
  }

  /** A draw on pair `i` moves the cursor to the next pair, and from the last one to the first. */
  lemma NextPair(r: Range, i: nat)
    requires Usable(r) && i < Capacity(r)
    ensures PairPort(r, i) < 0x1_0000
    ensures NextPort(r, PairPort(r, i)) == PairPort(r, if i + 1 == Capacity(r) then 0 else i + 1)
  {
    UsableCapacity(r);
  }

  /** Round robin: after `n` draws the cursor stands on pair `n mod capacity`. */
  lemma {:induction false} CursorIsRoundRobin(r: Range, n: nat)
    requires Usable(r)
    ensures CursorAfter(r, n) == PairPort(r, n % Capacity(r))
    ensures n % Capacity(r) < Capacity(r)
  {
    hide Capacity;
    hide NextPort;
    hide Usable;
    UsableCapacity(r);
    if n == 0 {
      QuotientUnique(0, Capacity(r), 0, 0);
    } else {
      CursorIsRoundRobin(r, n - 1);
      NextPair(r, (n - 1) % Capacity(r));
      NextRemainder(n - 1, Capacity(r));
    }
  }

  /** The cursor never falls below the first port and keeps its parity. */
  lemma CursorInPool(r: Range, n: nat)
    requires Usable(r)
    ensures r.first <= CursorAfter(r, n) && CursorAfter(r, n) % 2 == r.first % 2
  {
    UsableCapacity(r);
    hide Capacity;
    hide CursorAfter;
    CursorIsRoundRobin(r, n);
    PairParity(r, n % Capacity(r));
  }

  lemma PairParity(r: Range, i: nat)
    ensures r.first <= PairPort(r, i) && PairPort(r, i) % 2 == r.first % 2
  {
  }

  /** Any `capacity` consecutive draws visit pair `q` exactly once. */
  lemma WindowCoversOnce(c: nat, start: nat, q: nat) returns (k: nat)
    requires q < c
    ensures start <= k < start + c && k % c == q
    ensures forall j :: start <= j < start + c && j % c == q ==> j == k
  {
    var d, r := start / c, start % c;
    assert start == c * d + r;
    if q >= r {
      k := start + (q - r);
      QuotientUnique(k, c, d, q);
    } else {
      k := start + (q + c - r);
      assert k == c * (d + 1) + q;
      QuotientUnique(k, c, d + 1, q);
    }
    forall j | start <= j < start + c && j % c == q
      ensures j == k
    {
      SameRemainder(c, j, k);
    }
  }

  lemma SameRemainder(c: nat, j: nat, k: nat)
    requires c > 0 && j % c == k % c && j < k + c && k < j + c
    ensures j == k
  {
    var a, b := j / c, k / c;
    assert j == c * a + j % c && k == c * b + k % c;
    assert j - k == c * (a - b);
    MultipleAwayFromZero(c, a - b);
  }

  /** Equal remainders mean a difference that divides. */
  lemma DifferenceIsMultiple(c: nat, j: nat, k: nat)
    requires c > 0 && j <= k
    ensures (k - j) % c == 0 <==> j % c == k % c
  {
    var a, b, d := j / c, k / c, (k - j) / c;
    assert j == c * a + j % c && k == c * b + k % c && k - j == c * d + (k - j) % c;
    if j % c == k % c {
      assert k - j == c * (b - a);
      QuotientUnique(k - j, c, b - a, 0);
    } else if (k - j) % c == 0 {
      assert k == c * (a + d) + j % c;
      QuotientUnique(k, c, a + d, j % c);
    }
  }

  /** The two configurations on which the sixteen-bit arithmetic goes wrong: an even range up to
      the very last port, and an odd minimum right below the maximum. */
  predicate Misconfigured(minPort: u16, maxPort: u16) {
    (minPort % 2 == 0 && maxPort == 0xFFFF) || (minPort % 2 == 1 && maxPort == minPort + 1)
  }

  lemma UsableExactlyWhen(minPort: u16, maxPort: u16)
    requires minPort < maxPort
    ensures Usable(New(minPort, maxPort).value) <==> !Misconfigured(minPort, maxPort)
  {
    var r := New(minPort, maxPort).value;
    assert r.last == if maxPort % 2 == 0 then maxPort - 2 else maxPort - 1;
    if r.first <= r.last {
      assert PairPort(r, (r.last - r.first) / 2) == if minPort % 2 == 0 then r.last else r.last - 1;
    }
  }

  /** The pairs of a range, without its arithmetic: those with the parity of the first port that fit
      below the maximum, except that the last one is lost when an odd minimum meets an even maximum. */
  predicate IsConfigured(minPort: u16, maxPort: u16, port: nat) {
    && minPort <= port && port + 1 <= maxPort && port % 2 == minPort % 2
    && !(minPort % 2 == 1 && maxPort % 2 == 0 && port + 1 == maxPort)
  }

  /** The pool has the pairs of the configuration, all of them and no others. */
  ghost predicate Covers(r: Range, minPort: u16, maxPort: u16) {
    forall port: nat :: IsConfigured(minPort, maxPort, port) <==> InPool(r, port)
  }

  ghost predicate InPool(r: Range, port: nat) {
    exists q: nat :: q < Capacity(r) && PairPort(r, q) == port
  }

  /** How many pairs the pool of a configuration has. */
  lemma PoolSize(minPort: u16, maxPort: u16)
    requires minPort < maxPort && !(minPort % 2 == 1 && maxPort == minPort + 1)
    ensures New(minPort, maxPort).value.first == minPort
    ensures Capacity(New(minPort, maxPort).value)
            == (maxPort - minPort + 1) / 2 - (if minPort % 2 == 1 && maxPort % 2 == 0 then 1 else 0)
  {
    var r := New(minPort, maxPort).value;
    assert r.last == if maxPort % 2 == 0 then maxPort - 2 else maxPort - 1;
    assert Wrap16(r.last - r.first) == r.last - minPort;
  }

  /** The pool of a configuration is its whole range: how many pairs it has, and which. Only an odd
      minimum right below the maximum is left out: its capacity wraps around. */
  lemma PoolIsRange(minPort: u16, maxPort: u16)
    requires minPort < maxPort && !(minPort % 2 == 1 && maxPort == minPort + 1)
    ensures var r := New(minPort, maxPort).value;
            && Capacity(r) == (maxPort - minPort + 1) / 2 - (if minPort % 2 == 1 && maxPort % 2 == 0 then 1 else 0)
            && Covers(r, minPort, maxPort)
  {
    PoolSize(minPort, maxPort);
    hide New;
    hide Capacity;
    var r := New(minPort, maxPort).value;
    forall port: nat
      ensures IsConfigured(minPort, maxPort, port) <==> InPool(r, port)
    {
      if IsConfigured(minPort, maxPort, port) {
        ConfiguredIsPair(r, minPort, maxPort, port);
      } else if InPool(r, port) {
        var q: nat :| q < Capacity(r) && PairPort(r, q) == port;
        PairIsConfigured(r, minPort, maxPort, q);
      }
    }
  }

  lemma ConfiguredIsPair(r: Range, minPort: u16, maxPort: u16, port: nat)
    requires r.first == minPort && IsConfigured(minPort, maxPort, port)
    requires Capacity(r) == (maxPort - minPort + 1) / 2 - (if minPort % 2 == 1 && maxPort % 2 == 0 then 1 else 0)
    ensures InPool(r, port)
  {
    hide Capacity;
    var q := (port - minPort) / 2;
    assert PairPort(r, q) == port;
  }

  lemma PairIsConfigured(r: Range, minPort: u16, maxPort: u16, q: nat)
    requires r.first == minPort && q < Capacity(r)
    requires Capacity(r) == (maxPort - minPort + 1) / 2 - (if minPort % 2 == 1 && maxPort % 2 == 0 then 1 else 0)
    ensures IsConfigured(minPort, maxPort, PairPort(r, q))
  {
    hide Capacity;
  }

  ghost predicate EveryDrawSound(r: Range, maxPort: u16) {
    forall n: nat :: SoundDraw(r, maxPort, CursorAfter(r, n))
  }

  /** Construction is rejected exactly on an empty range; otherwise every draw, however many, is
      sound exactly when the configuration is not one of the two bad ones. */
  lemma DrawsSoundExactlyWhen(minPort: u16, maxPort: u16)
    ensures New(minPort, maxPort).None? <==> maxPort <= minPort
    ensures minPort < maxPort ==>
              (EveryDrawSound(New(minPort, maxPort).value, maxPort) <==> !Misconfigured(minPort, maxPort))
  {
    hide Usable;
    hide EveryDrawSound;
    if minPort < maxPort {
      var r := New(minPort, maxPort).value;
      UsableExactlyWhen(minPort, maxPort);
      assert r.last + 1 <= maxPort;
      if Usable(r) {
        UsableDrawsSound(r, maxPort);
      } else {
        UnusableDrawUnsound(r, maxPort);
      }
    }
  }

  lemma UsableDrawsSound(r: Range, maxPort: u16)
    requires Usable(r) && r.last + 1 <= maxPort
    ensures EveryDrawSound(r, maxPort)
  {
    hide CursorAfter;
    hide SoundDraw;
    forall n: nat
      ensures SoundDraw(r, maxPort, CursorAfter(r, n))
    {
      CursorIsRoundRobin(r, n);
      PairSound(r, maxPort, n % Capacity(r));
    }
  }

  lemma PairSound(r: Range, maxPort: u16, i: nat)
    requires Usable(r) && r.last + 1 <= maxPort && i < Capacity(r)
    ensures PairPort(r, i) < 0x1_0000 && SoundDraw(r, maxPort, PairPort(r, i))
  {
    UsableCapacity(r);
    hide Capacity;
    assert PairPort(r, i) % 2 == r.first % 2;
  }

  lemma UnusableDrawUnsound(r: Range, maxPort: u16)
    requires !Usable(r)
    ensures !EveryDrawSound(r, maxPort)
  {
    if r.last < r.first {
      assert !SoundDraw(r, maxPort, CursorAfter(r, 0));
    } else {
      var n := (r.last - r.first) / 2;
      ReachesLastPort(r, n);
      assert !SoundDraw(r, maxPort, CursorAfter(r, n));
    }
  }

  /** Before its first wrap the cursor simply counts up. */
  lemma {:induction false} ReachesLastPort(r: Range, n: nat)
    requires PairPort(r, n) <= r.last
    ensures CursorAfter(r, n) == PairPort(r, n)
  {
    if n > 0 {
      ReachesLastPort(r, n - 1);
    }
  }

  /** On the first bad configuration the cursor escapes: after the pair at the top it stands on
      port 0, which is outside every pool that starts higher. */
  lemma CursorEscapesToZero(minPort: u16, maxPort: u16)
    requires minPort % 2 == 0 && maxPort == 0xFFFF && minPort < maxPort
    ensures CursorAfter(New(minPort, maxPort).value, (0xFFFE - minPort) / 2 + 1) == 0
  {
    var r := New(minPort, maxPort).value;
    ReachesLastPort(r, (0xFFFE - minPort) / 2);
  }
}
