/** One allocation running alone (src/media/rtp.rs, lines 150 to 243): nobody else moves the cursor
    or opens sockets meanwhile, so the first compare-exchange of every draw succeeds. */
module PortAllocation {
  import opened Bits
  import opened Wrappers
  import opened PortRange
  import PortPool

  /** The operating system's view of the local address: the ports that have a socket. Binding port 0
      always succeeds, on a port of the system's own choice. */
  class Network {
    var bound: set<int>

    constructor (bound: set<int>)
      ensures this.bound == bound
    {
      this.bound := bound;
    }

    method Bind(port: int) returns (ok: bool)
      modifies this
      ensures ok <==> CanBind(old(bound), port)
      ensures bound == if ok then old(bound) + SocketOn(port) else old(bound)
    {
      ok := port == 0 || port !in bound;
      if ok {
        bound := bound + SocketOn(port);
      }
    }

    method Close(port: int)
      modifies this
      ensures bound == old(bound) - SocketOn(port)
    {
      bound := bound - SocketOn(port);
    }
  }

  predicate CanBind(bound: set<int>, port: int) {
    port == 0 || port !in bound
  }

  predicate PairFree(bound: set<int>, port: int) {
    CanBind(bound, port) && CanBind(bound, port + 1)
  }

  /** The place `step` places after `index` in a cycle of `capacity` places. */
  function Cyclic(capacity: nat, index: nat, step: nat): nat {
    if index + step < capacity then index + step else index + step - capacity
  }

  predicate FreeAfter(r: Range, bound: set<int>, index: nat, step: nat) {
    PairFree(bound, PairPort(r, Cyclic(Capacity(r), index, step)))
  }

  /** The pair `step` places on is free, and none before it is. */
  ghost predicate FirstFreeFrom(r: Range, bound: set<int>, index: nat, step: nat) {
    && step < Capacity(r)
    && FreeAfter(r, bound, index, step)
    && forall s :: 0 <= s < step ==> !FreeAfter(r, bound, index, s)
  }

  /** What an allocation that starts at pair `index` must return, and where it must leave the cursor:
      just behind the first free pair, or where it began if there is none. */
  ghost predicate AllocationResult(r: Range, bound: set<int>, index: nat, found: Option<u16>, index': nat) {
    match found
    case Some(port) =>
      exists step: nat :: FirstFreeFrom(r, bound, index, step)
                     && port == PairPort(r, Cyclic(Capacity(r), index, step))
                     && index' == Cyclic(Capacity(r), index, step + 1)
    case None =>
      index' == index && forall i :: 0 <= i < Capacity(r) ==> !PairFree(bound, PairPort(r, i))
  }

  /** A sweep of the whole cycle misses no pair. */
  lemma SweepIsComplete(r: Range, bound: set<int>, index: nat)
    requires index < Capacity(r)
    requires forall s :: 0 <= s < Capacity(r) ==> !FreeAfter(r, bound, index, s)
    ensures forall i :: 0 <= i < Capacity(r) ==> !PairFree(bound, PairPort(r, i))
  {
    hide Capacity;
    forall i | 0 <= i < Capacity(r)
      ensures !PairFree(bound, PairPort(r, i))
    {
      var s := if i >= index then i - index else i + Capacity(r) - index;
      assert !FreeAfter(r, bound, index, s);
    }
  }

  /** Allocation succeeds exactly when a free pair exists. */
  lemma SucceedsExactlyWhenFree(r: Range, bound: set<int>, index: nat, found: Option<u16>, index': nat)
    requires index < Capacity(r) && AllocationResult(r, bound, index, found, index')
    ensures found.Some? <==> exists i :: 0 <= i < Capacity(r) && PairFree(bound, PairPort(r, i))
  {
    if found.Some? {
      assert exists step: nat :: FirstFreeFrom(r, bound, index, step);
      var step: nat :| FirstFreeFrom(r, bound, index, step);
      assert FreeAfter(r, bound, index, step);
    }
  }

  /** `RtpSocketPair::new`: both sockets or none. */
  method BindPair(network: Network, rtpPort: u16, rtcpPort: u16) returns (ok: bool)
    requires rtcpPort == rtpPort + 1
    modifies network
    ensures ok <==> PairFree(old(network.bound), rtpPort)
    ensures network.bound ==
            if ok then old(network.bound) + PairSockets(rtpPort) else old(network.bound)
  {
    ok := network.Bind(rtpPort);
    if !ok {
      return;
    }
    ok := network.Bind(rtcpPort);
    if !ok {
      network.Close(rtpPort);
    }
  }

  class RtpPortRange {
    const range: Range
    var cursor: u16

    /** Which pair the cursor stands on. */
    ghost function Index(): nat
      requires Valid()
      reads this
    {
      (cursor - range.first) / 2
    }

    ghost predicate Valid()
      reads this
    {
      Usable(range) && range.first <= cursor && (cursor - range.first) % 2 == 0
      && (cursor - range.first) / 2 < Capacity(range)
    }

    /** A range that `New` accepts; its draws stay in the pool exactly when it is not misconfigured, and
        then the pool has every pair of the configuration. */
    constructor (minPort: u16, maxPort: u16)
      requires New(minPort, maxPort).Some?
      ensures range == New(minPort, maxPort).value && cursor == minPort
      ensures Valid() <==> !Misconfigured(minPort, maxPort)
      ensures Valid() ==> Covers(range, minPort, maxPort)
    {
      hide Covers;
      UsableExactlyWhen(minPort, maxPort);
      if !Misconfigured(minPort, maxPort) {
        PoolIsRange(minPort, maxPort);
      }
      range := New(minPort, maxPort).value;
      cursor := minPort;
    }

    /** Draws the pair under the cursor and moves on. */
    method NextPortPair() returns (rtpPort: u16, rtcpPort: u16)
      requires Valid()
      modifies this
      ensures Valid()
      ensures rtpPort == PairPort(range, old(Index())) && rtcpPort == rtpPort + 1
      ensures Index() == Cyclic(Capacity(range), old(Index()), 1)
    {
      UsableCapacity(range);
      NextPair(range, Index());
      var current := cursor;
      assert current == PairPort(range, Index());
      var next := NextPort(range, current);
      cursor := next;
      rtpPort, rtcpPort := current, current + 1;
    }

    /** `try_allocate_socket_pair`: finds the first free pair in cyclic order from the cursor, binds
        it and leaves the cursor behind it; if no pair is free it changes nothing at all. */
    method TryAllocate(network: Network) returns (found: Option<u16>)
      requires Valid()
      modifies this, network
      ensures Valid()
      ensures AllocationResult(range, old(network.bound), old(Index()), found, Index())
      ensures network.bound == old(network.bound) + (if found.Some? then PairSockets(found.value) else {})
    {
      ghost var start, bound := Index(), network.bound;
      UsableCapacity(range);
      hide Capacity;
      var attempts := 0;
      while attempts < Capacity(range)
        invariant 0 <= attempts <= Capacity(range)
        invariant Valid() && network.bound == bound
        invariant Index() == Cyclic(Capacity(range), start, attempts)
        invariant forall s :: 0 <= s < attempts ==> !FreeAfter(range, bound, start, s)
      {
        var rtpPort, rtcpPort := NextPortPair();
        var ok := BindPair(network, rtpPort, rtcpPort);
        assert ok <==> FreeAfter(range, bound, start, attempts);
        if ok {
          assert FirstFreeFrom(range, bound, start, attempts);
          assert Index() == Cyclic(Capacity(range), start, attempts + 1);
          assert AllocationResult(range, bound, start, Some(rtpPort), Index());
          return Some(rtpPort);
        }
        attempts := attempts + 1;
      }
      SweepIsComplete(range, bound, start);
      found := None;
    }
  }

  // ----- The concurrent pool, when only one call moves -----

  ghost predicate NoneFreeBefore(r: Range, bound: set<int>, start: nat, attempts: nat) {
    forall s :: 0 <= s < attempts ==> !FreeAfter(r, bound, start, s)
  }

  predicate CursorAt(r: Range, p: PortPool.Pool, index: nat) {
    index < Capacity(r) && p.cursor == PairPort(r, index)
  }

  /** How far an undisturbed allocation has come that began with the cursor on pair `start` and the
      ports `bound` taken. */
  ghost predicate SoloProgress(r: Range, bound: set<int>, start: nat, p: PortPool.Pool, phase: PortPool.Phase) {
    match phase
    case Selecting(a) =>
      && a <= Capacity(r) && NoneFreeBefore(r, bound, start, a)
      && CursorAt(r, p, Cyclic(Capacity(r), start, a)) && p.bound.Keys == bound
    case Loaded(a, _) =>
      && a < Capacity(r) && NoneFreeBefore(r, bound, start, a)
      && CursorAt(r, p, Cyclic(Capacity(r), start, a)) && p.bound.Keys == bound
    case Drawn(a, port) => SoloPair(r, bound, start, p, a, port) && p.bound.Keys == bound
    case HalfBound(a, port) =>
      SoloPair(r, bound, start, p, a, port) && CanBind(bound, port) && p.bound.Keys == bound + SocketOn(port)
    case Refused(a, port) =>
      && SoloPair(r, bound, start, p, a, port)
      && CanBind(bound, port) && port + 1 in bound && p.bound.Keys == bound + SocketOn(port)
    case Owned(port) =>
      && p.bound.Keys == bound + PairSockets(port)
      && exists index :: CursorAt(r, p, index) && AllocationResult(r, bound, start, Some(port), index)
    case Exhausted =>
      p.bound.Keys == bound && CursorAt(r, p, start) && AllocationResult(r, bound, start, None, start)
    case _ => false
  }

  /** Attempt `a` is at work on the pair that is due. */
  ghost predicate SoloPair(r: Range, bound: set<int>, start: nat, p: PortPool.Pool, a: nat, port: u16) {
    && a < Capacity(r) && NoneFreeBefore(r, bound, start, a)
    && port == PairPort(r, Cyclic(Capacity(r), start, a))
    && CursorAt(r, p, Cyclic(Capacity(r), start, a + 1))
  }

  lemma SoloStep(r: Range, bound: set<int>, start: nat, p: PortPool.Pool, l: PortPool.Label, id: PortPool.CallId)
    requires Usable(r) && start < Capacity(r) && PortPool.Enabled(r, p, l) && PortPool.AllocationStep(l, id)
    requires id in p.calls && SoloProgress(r, bound, start, p, p.calls[id])
    ensures id in PortPool.Apply(r, p, l).calls
    ensures SoloProgress(r, bound, start, PortPool.Apply(r, p, l), PortPool.Apply(r, p, l).calls[id])
  {
    hide NextPort;
    hide Capacity;
    hide CursorAfter;
    if l.CasOk? {
      hide SoloProgress;
      SoloDraw(r, bound, start, p, id);
    } else if l.BindRtp? || l.BindRtcp? || l.DropHalf? {
      hide SoloProgress;
      SoloBind(r, bound, start, p, l, id);
    } else if l.GiveUp? {
      SweepIsComplete(r, bound, start);
    }
  }

  lemma SoloDraw(r: Range, bound: set<int>, start: nat, p: PortPool.Pool, id: PortPool.CallId)
    requires Usable(r) && start < Capacity(r) && PortPool.Enabled(r, p, PortPool.CasOk(id))
    requires SoloProgress(r, bound, start, p, p.calls[id])
    ensures var p' := PortPool.Apply(r, p, PortPool.CasOk(id));
            id in p'.calls && SoloProgress(r, bound, start, p', p'.calls[id])
  {
    hide NextPort;
    hide Capacity;
    hide CursorAfter;
    NextPair(r, Cyclic(Capacity(r), start, p.calls[id].attempts));
  }

  lemma SoloBind(r: Range, bound: set<int>, start: nat, p: PortPool.Pool, l: PortPool.Label, id: PortPool.CallId)
    requires PortPool.Enabled(r, p, l) && PortPool.AllocationStep(l, id) && (l.BindRtp? || l.BindRtcp? || l.DropHalf?)
    requires SoloProgress(r, bound, start, p, p.calls[id])
    ensures id in PortPool.Apply(r, p, l).calls
    ensures SoloProgress(r, bound, start, PortPool.Apply(r, p, l), PortPool.Apply(r, p, l).calls[id])
  {
    hide Usable;
    hide Capacity;
    hide NextPort;
    hide CursorAfter;
    hide AllocationResult;
    var a: nat, port: int := p.calls[id].attempts, p.calls[id].port;
    var p' := PortPool.Apply(r, p, l);
    if PairFree(bound, port) {
      SoloWins(r, bound, start, p, a, p.calls[id].port);
      assert l.BindRtcp? ==> p'.bound.Keys == bound + PairSockets(port);
      assert CursorAt(r, p', Cyclic(Capacity(r), start, a + 1));
    } else {
      assert !FreeAfter(r, bound, start, a);
      assert NoneFreeBefore(r, bound, start, a + 1);
      assert l.DropHalf? ==> p'.bound.Keys == bound;
    }
  }

  lemma SoloWins(r: Range, bound: set<int>, start: nat, p: PortPool.Pool, a: nat, port: u16)
    requires SoloPair(r, bound, start, p, a, port) && PairFree(bound, port)
    ensures AllocationResult(r, bound, start, Some(port), Cyclic(Capacity(r), start, a + 1))
  {
    hide Capacity;
    assert FirstFreeFrom(r, bound, start, a);
  }

  /** The pair the cursor stands on after `n` draws. */
  function PairAfter(r: Range, n: nat): (index: nat)
    requires Usable(r)
    ensures index < Capacity(r) && CursorAfter(r, n) == PairPort(r, index)
  {
    UsableCapacity(r);
    CursorIsRoundRobin(r, n);
    n % Capacity(r)
  }

  /** In every run of the concurrent pool, an allocation during which no other call moves ends as
      `TryAllocate` does: on the first free pair in cyclic order from where the cursor stood, or
      exhausted with cursor and ports as they were. */
  lemma {:induction false} SoloRun(r: Range, states: seq<PortPool.Pool>, labels: seq<PortPool.Label>,
                                   from: nat, to: nat, id: PortPool.CallId)
    requires Usable(r) && PortPool.Run(r, states, labels) && from < to < |states|
    requires labels[from] == PortPool.Begin(id)
    requires forall m :: from < m < to ==> PortPool.AllocationStep(labels[m], id)
    ensures id in states[to].calls
    ensures SoloProgress(r, states[from].bound.Keys, PairAfter(r, |states[from].draws|),
                         states[to], states[to].calls[id])
  {
    hide PortPool.Apply;
    hide PortPool.Enabled;
    hide SoloProgress;
    hide PairAfter;
    hide Usable;
    assert PortPool.Enabled(r, states[to - 1], labels[to - 1]);
    if to == from + 1 {
      PortPool.RunInv(r, states, labels, from);
      SoloBegins(r, states[from], id);
    } else {
      SoloRun(r, states, labels, from, to - 1, id);
      SoloStep(r, states[from].bound.Keys, PairAfter(r, |states[from].draws|), states[to - 1], labels[to - 1], id);
    }
  }

  lemma SoloBegins(r: Range, p: PortPool.Pool, id: PortPool.CallId)
    requires Usable(r) && PortPool.Enabled(r, p, PortPool.Begin(id)) && PortPool.CursorMatchesDraws(r, p)
    ensures var p' := PortPool.Apply(r, p, PortPool.Begin(id));
            id in p'.calls && SoloProgress(r, p.bound.Keys, PairAfter(r, |p.draws|), p', p'.calls[id])
  {
    hide Capacity;
    hide PairAfter;
    assert Cyclic(Capacity(r), PairAfter(r, |p.draws|), 0) == PairAfter(r, |p.draws|);
  }
}
