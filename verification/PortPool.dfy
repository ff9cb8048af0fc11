/** The lock-free port pool under concurrency (src/media/rtp.rs, lines 112 to 243).

    Any number of calls allocate from one pool at once. Every atomic access of the cursor and every
    socket operation is a step of its own, and steps of different calls interleave freely. The
    relaxed load may return any value the cursor ever held; only the compare-exchange is ordered.
    Ports may also be taken and given back by sockets outside the pool at any time. */
module PortPool {
  import opened Bits
  import opened PortRange

  type CallId = nat

  datatype Owner = Call(id: CallId) | Outside

  /** Where a call stands in `try_allocate_socket_pair` and in the life of its sockets. `attempts`
      counts the attempts that have failed so far. */
  datatype Phase =
    | Selecting(attempts: nat)
    | Loaded(attempts: nat, seen: u16)
    | Drawn(attempts: nat, port: u16)
    | HalfBound(attempts: nat, port: u16)
    | Refused(attempts: nat, port: u16)
    | Exhausted
    | Owned(port: u16)
    | Streaming(port: u16)
    | Released

  datatype Draw = Draw(caller: CallId, port: u16)

  /** `draws` records every successful compare-exchange; the code keeps no such record. */
  datatype Pool = Pool(cursor: u16, draws: seq<Draw>, bound: map<int, Owner>, calls: map<CallId, Phase>)

  datatype Label =
    | Begin(id: CallId)
    | Load(id: CallId, version: nat)
    | CasOk(id: CallId)
    | CasFail(id: CallId)
    | BindRtp(id: CallId)
    | BindRtcp(id: CallId)
    | DropHalf(id: CallId)
    | GiveUp(id: CallId)
    | DropRtcp(id: CallId)
    | Release(id: CallId)
    | OutsideBind(port: int)
    | OutsideRelease(port: int)
    | Stutter   // something happens that does not concern the pool

  predicate Enabled(r: Range, p: Pool, l: Label) {
    match l
    case Begin(id) => id !in p.calls
    case Load(id, version) =>
      id in p.calls && p.calls[id].Selecting? && p.calls[id].attempts < Capacity(r) && version <= |p.draws|
    case CasOk(id) => id in p.calls && p.calls[id].Loaded? && p.cursor == p.calls[id].seen
    case CasFail(id) => id in p.calls && p.calls[id].Loaded? && p.cursor != p.calls[id].seen
    case BindRtp(id) => id in p.calls && p.calls[id].Drawn?
    case BindRtcp(id) => id in p.calls && p.calls[id].HalfBound?
    case DropHalf(id) => id in p.calls && p.calls[id].Refused?
    case GiveUp(id) => id in p.calls && p.calls[id].Selecting? && p.calls[id].attempts == Capacity(r)
    case DropRtcp(id) => id in p.calls && p.calls[id].Owned?
    case Release(id) => id in p.calls && (p.calls[id].Owned? || p.calls[id].Streaming?)
    case OutsideBind(port) => port != 0 && port !in p.bound
    case OutsideRelease(port) => port in p.bound && p.bound[port] == Outside
    case Stutter => true
  }

  /** Whether the system refuses to bind `port`; it never refuses port 0. */
  predicate Taken(p: Pool, port: int) {
    port != 0 && port in p.bound
  }

  function Occupy(p: Pool, port: int, id: CallId): map<int, Owner> {
    if port == 0 then p.bound else p.bound[port := Call(id)]
  }

  function Goto(p: Pool, id: CallId, phase: Phase): Pool {
    p.(calls := p.calls[id := phase])
  }

  function Apply(r: Range, p: Pool, l: Label): Pool
    requires Enabled(r, p, l)
  {
    match l
    case Begin(id) => Goto(p, id, Selecting(0))
    case Load(id, version) => Goto(p, id, Loaded(p.calls[id].attempts, CursorAfter(r, version)))
    case CasOk(id) =>
      var seen := p.calls[id].seen;
      Goto(p, id, Drawn(p.calls[id].attempts, seen))
        .(cursor := NextPort(r, seen), draws := p.draws + [Draw(id, seen)])
    case CasFail(id) => Goto(p, id, Selecting(p.calls[id].attempts))
    case BindRtp(id) =>
      var Drawn(attempts, port) := p.calls[id];
      if Taken(p, port) then Goto(p, id, Selecting(attempts + 1))
      else Goto(p, id, HalfBound(attempts, port)).(bound := Occupy(p, port, id))
    case BindRtcp(id) =>
      var HalfBound(attempts, port) := p.calls[id];
      if Taken(p, port + 1) then Goto(p, id, Refused(attempts, port))
      else Goto(p, id, Owned(port)).(bound := Occupy(p, port + 1, id))
    case DropHalf(id) =>
      var Refused(attempts, port) := p.calls[id];
      Goto(p, id, Selecting(attempts + 1)).(bound := p.bound - SocketOn(port))
    case GiveUp(id) => Goto(p, id, Exhausted)
    case DropRtcp(id) =>
      var port := p.calls[id].port;
      Goto(p, id, Streaming(port)).(bound := p.bound - SocketOn(port + 1))
    case Release(id) => Goto(p, id, Released).(bound := p.bound - Held(p.calls[id]))
    case OutsideBind(port) => p.(bound := p.bound[port := Outside])
    case OutsideRelease(port) => p.(bound := p.bound - {port})
    case Stutter => p
  }

  /** The ports a call has sockets on. */
  function Held(phase: Phase): set<int> {
    match phase
    case HalfBound(_, port) => SocketOn(port)
    case Refused(_, port) => SocketOn(port)
    case Owned(port) => PairSockets(port)
    case Streaming(port) => SocketOn(port)
    case _ => {}
  }

  ghost predicate Initial(r: Range, p: Pool) {
    && p.cursor == r.first
    && p.draws == []
    && p.calls == map[]
    && 0 !in p.bound
    && forall port :: port in p.bound ==> p.bound[port] == Outside
  }

  ghost predicate Run(r: Range, states: seq<Pool>, labels: seq<Label>) {
    && |states| == |labels| + 1
    && Initial(r, states[0])
    && forall i :: 0 <= i < |labels| ==>
         Enabled(r, states[i], labels[i]) && states[i + 1] == Apply(r, states[i], labels[i])
  }

  // ----- What every step keeps -----

  ghost predicate CursorMatchesDraws(r: Range, p: Pool) {
    && p.cursor == CursorAfter(r, |p.draws|)
    && forall k :: 0 <= k < |p.draws| ==> p.draws[k].port == CursorAfter(r, k)
  }

  predicate Owns(p: Pool, port: int, id: CallId) {
    port in p.bound && p.bound[port] == Call(id)
  }

  predicate Holds(p: Pool, port: int, id: CallId) {
    id in p.calls && port in Held(p.calls[id])
  }

  /** A port belongs to a call in the operating system exactly while the call holds a socket on it. */
  ghost predicate OwnershipExact(p: Pool) {
    forall port: int, id: CallId :: Owns(p, port, id) <==> Holds(p, port, id)
  }

  predicate DrewBefore(p: Pool, id: CallId, port: u16) {
    Draw(id, port) in p.draws
  }

  predicate WorksOn(phase: Phase, port: u16) {
    && (phase.Drawn? || phase.HalfBound? || phase.Refused? || phase.Owned? || phase.Streaming?)
    && phase.port == port
  }

  /** A call only ever works on pairs it drew itself. */
  ghost predicate PortsWereDrawn(p: Pool) {
    forall id, port :: id in p.calls && WorksOn(p.calls[id], port) ==> DrewBefore(p, id, port)
  }

  function OwnDraws(draws: seq<Draw>, id: CallId): nat {
    if draws == [] then 0
    else OwnDraws(draws[..|draws| - 1], id) + if draws[|draws| - 1].caller == id then 1 else 0
  }

  /** Draws an unfinished or failed allocation has made. */
  function DrawsMade(r: Range, phase: Phase): nat
    requires !phase.Owned? && !phase.Streaming? && !phase.Released?
  {
    match phase
    case Selecting(attempts) => attempts
    case Loaded(attempts, _) => attempts
    case Drawn(attempts, _) => attempts + 1
    case HalfBound(attempts, _) => attempts + 1
    case Refused(attempts, _) => attempts + 1
    case Exhausted => Capacity(r)
  }

  predicate CountFits(r: Range, draws: seq<Draw>, calls: map<CallId, Phase>, id: CallId) {
    if id !in calls then OwnDraws(draws, id) == 0
    else var phase := calls[id];
      phase.Owned? || phase.Streaming? || phase.Released? || OwnDraws(draws, id) == DrawsMade(r, phase)
  }

  ghost predicate AttemptsCounted(r: Range, p: Pool) {
    forall id: CallId :: CountFits(r, p.draws, p.calls, id)
  }

  ghost predicate Inv(r: Range, p: Pool) {
    CursorMatchesDraws(r, p) && OwnershipExact(p) && PortsWereDrawn(p) && AttemptsCounted(r, p)
  }

  lemma InitialInv(r: Range, p: Pool)
    requires Initial(r, p)
    ensures Inv(r, p)
  {
  }

  lemma CursorStep(r: Range, p: Pool, l: Label)
    requires Enabled(r, p, l) && CursorMatchesDraws(r, p)
    ensures CursorMatchesDraws(r, Apply(r, p, l))
  {
    hide NextPort;
  }

  lemma OwnershipStep(r: Range, p: Pool, l: Label)
    requires Enabled(r, p, l) && OwnershipExact(p)
    ensures OwnershipExact(Apply(r, p, l))
  {
    hide NextPort;
    hide CursorAfter;
    hide Capacity;
    var p' := Apply(r, p, l);
    forall port: int, id: CallId
      ensures Owns(p', port, id) <==> Holds(p', port, id)
    {
      assert Owns(p, port, id) <==> Holds(p, port, id);
      if OfCall(l) {
        assert Owns(p, port, l.id) <==> Holds(p, port, l.id);
      }
    }
  }

  lemma DrawnStep(r: Range, p: Pool, l: Label)
    requires Enabled(r, p, l) && PortsWereDrawn(p)
    ensures PortsWereDrawn(Apply(r, p, l))
  {
    hide NextPort;
    hide CursorAfter;
    hide Capacity;
    var p' := Apply(r, p, l);
    forall id, port | id in p'.calls && WorksOn(p'.calls[id], port)
      ensures DrewBefore(p', id, port)
    {
      if id in p.calls && WorksOn(p.calls[id], port) {
        assert DrewBefore(p, id, port);
      }
    }
  }

  lemma CountStep(r: Range, p: Pool, l: Label)
    requires Enabled(r, p, l) && AttemptsCounted(r, p)
    ensures AttemptsCounted(r, Apply(r, p, l))
  {
    hide NextPort;
    hide CursorAfter;
    hide Capacity;
    var p' := Apply(r, p, l);
    forall id: CallId
      ensures CountFits(r, p'.draws, p'.calls, id)
    {
      assert CountFits(r, p.draws, p.calls, id);
      if l.CasOk? {
        assert p'.draws[..|p'.draws| - 1] == p.draws;
      }
    }
  }

  lemma StepInv(r: Range, p: Pool, l: Label)
    requires Enabled(r, p, l) && Inv(r, p)
    ensures Inv(r, Apply(r, p, l))
  {
    CursorStep(r, p, l);
    OwnershipStep(r, p, l);
    DrawnStep(r, p, l);
    CountStep(r, p, l);
  }

  predicate OfCall(l: Label) {
    !l.OutsideBind? && !l.OutsideRelease? && !l.Stutter?
  }

  predicate ActsFor(l: Label, id: CallId) {
    OfCall(l) && l.id == id
  }

  /** A step moves only the call that takes it. */
  lemma StepFrame(r: Range, p: Pool, l: Label, other: CallId)
    requires Enabled(r, p, l) && !ActsFor(l, other)
    ensures other in Apply(r, p, l).calls <==> other in p.calls
    ensures other in p.calls ==> Apply(r, p, l).calls[other] == p.calls[other]
  {
    hide NextPort;
    hide CursorAfter;
    hide Capacity;
  }

  lemma {:induction false} RunInv(r: Range, states: seq<Pool>, labels: seq<Label>, i: nat)
    requires Run(r, states, labels) && i < |states|
    ensures Inv(r, states[i])
  {
    if i == 0 {
      InitialInv(r, states[0]);
    } else {
      RunInv(r, states, labels, i - 1);
      StepInv(r, states[i - 1], labels[i - 1]);
    }
  }

  // ----- Round robin -----

  /** In every run, whatever the interleaving, the k-th successful compare-exchange draws pair
      `k mod capacity`, and the cursor stands on the next one. */
  lemma RoundRobin(r: Range, states: seq<Pool>, labels: seq<Label>, i: nat)
    requires Usable(r) && Run(r, states, labels) && i < |states|
    ensures forall k :: 0 <= k < |states[i].draws| ==>
              states[i].draws[k].port == PairPort(r, k % Capacity(r))
    ensures states[i].cursor == PairPort(r, |states[i].draws| % Capacity(r))
  {
    hide Capacity;
    hide CursorAfter;
    UsableCapacity(r);
    RunInv(r, states, labels, i);
    CursorIsRoundRobin(r, |states[i].draws|);
    forall k | 0 <= k < |states[i].draws|
      ensures states[i].draws[k].port == PairPort(r, k % Capacity(r))
    {
      CursorIsRoundRobin(r, k);
    }
  }

  /** Every number of draws up to the present one was the number of draws at some time. */
  lemma {:induction false} DrawsCountUp(r: Range, states: seq<Pool>, labels: seq<Label>, i: nat, version: nat)
      returns (j: nat)
    requires Run(r, states, labels) && i < |states| && version <= |states[i].draws|
    ensures j <= i && |states[j].draws| == version
  {
    hide Capacity;
    hide CursorAfter;
    hide NextPort;
    j := i;
    if version < |states[i].draws| {
      assert i > 0 && states[i] == Apply(r, states[i - 1], labels[i - 1]);
      j := DrawsCountUp(r, states, labels, i - 1, version);
    }
  }

  /** A relaxed load returns any value the cursor has ever held, and no other. */
  lemma LoadsAnyEarlierCursor(r: Range, states: seq<Pool>, labels: seq<Label>, i: nat, id: CallId, seen: u16)
    requires Run(r, states, labels) && i < |states| && id in states[i].calls
    requires states[i].calls[id].Selecting? && states[i].calls[id].attempts < Capacity(r)
    ensures (exists version: nat :: LoadReturns(r, states[i], id, version, seen))
            <==> exists j :: 0 <= j <= i && states[j].cursor == seen
  {
    if j :| 0 <= j <= i && states[j].cursor == seen {
      RunInv(r, states, labels, j);
      DrawsGrow(r, states, labels, j, i);
      assert LoadReturns(r, states[i], id, |states[j].draws|, seen);
    }
    if version: nat :| LoadReturns(r, states[i], id, version, seen) {
      var j := DrawsCountUp(r, states, labels, i, version);
      RunInv(r, states, labels, j);
      assert states[j].cursor == seen;
    }
  }

  /** The load may return `seen`, the `version`-th value of the cursor. */
  predicate LoadReturns(r: Range, p: Pool, id: CallId, version: nat, seen: u16) {
    Enabled(r, p, Load(id, version))
    && id in Apply(r, p, Load(id, version)).calls
    && Apply(r, p, Load(id, version)).calls[id].Loaded?
    && Apply(r, p, Load(id, version)).calls[id].seen == seen
  }

  lemma {:induction false} PhaseStays(r: Range, states: seq<Pool>, labels: seq<Label>,
                                      from: nat, to: nat, id: CallId)
    requires Run(r, states, labels) && from <= to < |states| && id in states[from].calls
    requires forall m :: from <= m < to ==> !ActsFor(labels[m], id)
    ensures id in states[to].calls && states[to].calls[id] == states[from].calls[id]
  {
    hide Apply;
    hide Enabled;
    if from < to {
      PhaseStays(r, states, labels, from, to - 1, id);
      assert Enabled(r, states[to - 1], labels[to - 1]);
      StepFrame(r, states[to - 1], labels[to - 1], id);
    }
  }

  /** In every run, a compare-exchange after a load of the cursor's `version`-th value succeeds, however
      many draws others make in between, exactly when the pool has moved by a whole number of rounds
      since that value: not at all, or all the way round to the same value (the ABA case). By
      `RoundRobin` it is harmless either way. */
  lemma CompareExchangeSucceedsIff(r: Range, states: seq<Pool>, labels: seq<Label>, from: nat, to: nat,
                                   id: CallId, version: nat)
    requires Usable(r) && Run(r, states, labels) && from < to < |states|
    requires labels[from] == Load(id, version)
    requires forall m :: from < m < to ==> !ActsFor(labels[m], id)
    ensures version <= |states[from].draws| <= |states[to].draws|
    ensures Enabled(r, states[to], CasOk(id)) <==> (|states[to].draws| - version) % Capacity(r) == 0
  {
    hide CursorAfter;
    assert Enabled(r, states[from], labels[from]) && states[from + 1] == Apply(r, states[from], labels[from]);
    PhaseStays(r, states, labels, from + 1, to, id);
    DrawsGrow(r, states, labels, from, to);
    RunInv(r, states, labels, to);
    UsableCapacity(r);
    hide Capacity;
    hide Apply;
    CursorIsRoundRobin(r, version);
    CursorIsRoundRobin(r, |states[to].draws|);
    DifferenceIsMultiple(Capacity(r), version, |states[to].draws|);
  }

  /** The retry loop is lock-free: a compare-exchange that follows an up-to-date load fails only
      because some other call drew a pair in between. */
  lemma RetryMeansProgress(r: Range, states: seq<Pool>, labels: seq<Label>, from: nat, to: nat, id: CallId)
    requires Run(r, states, labels) && from < to < |labels|
    requires labels[from] == Load(id, |states[from].draws|) && labels[to] == CasFail(id)
    requires forall m :: from < m < to ==> !ActsFor(labels[m], id)
    ensures |states[from].draws| < |states[to].draws|
    ensures states[to].draws[|states[from].draws|].caller != id
  {
    RunInv(r, states, labels, from);
    RunInv(r, states, labels, to);
    assert Enabled(r, states[from], labels[from]) && states[from + 1] == Apply(r, states[from], labels[from]);
    PhaseStays(r, states, labels, from + 1, to, id);
    assert Enabled(r, states[to], labels[to]);
    DrawsGrow(r, states, labels, from, to);
    OthersDrew(r, states, labels, from + 1, to, id);
  }

  /** While a call takes no step, every new draw is somebody else's. */
  lemma {:induction false} OthersDrew(r: Range, states: seq<Pool>, labels: seq<Label>, from: nat, to: nat, id: CallId)
    requires Run(r, states, labels) && from <= to < |states|
    requires forall m :: from <= m < to ==> !ActsFor(labels[m], id)
    ensures states[from].draws <= states[to].draws
    ensures forall k :: |states[from].draws| <= k < |states[to].draws| ==> states[to].draws[k].caller != id
  {
    hide Capacity;
    hide CursorAfter;
    hide NextPort;
    if from < to {
      OthersDrew(r, states, labels, from, to - 1, id);
      assert Enabled(r, states[to - 1], labels[to - 1]);
      assert states[to] == Apply(r, states[to - 1], labels[to - 1]);
    }
  }

  /** Any `capacity` consecutive draws of a run hand out every pair exactly once. */
  lemma WindowCoversPool(r: Range, p: Pool, start: nat, q: nat) returns (k: nat)
    requires Usable(r) && CursorMatchesDraws(r, p)
    requires start + Capacity(r) <= |p.draws| && q < Capacity(r)
    ensures start <= k < start + Capacity(r) && p.draws[k].port == PairPort(r, q)
    ensures forall j :: start <= j < start + Capacity(r) && p.draws[j].port == PairPort(r, q) ==> j == k
  {
    hide Capacity;
    hide CursorAfter;
    k := WindowCoversOnce(Capacity(r), start, q);
    CursorIsRoundRobin(r, k);
    forall j | start <= j < start + Capacity(r) && p.draws[j].port == PairPort(r, q)
      ensures j == k
    {
      CursorIsRoundRobin(r, j);
    }
  }

  // ----- Exclusivity -----

  predicate HasSockets(p: Pool, id: CallId) {
    id in p.calls && (p.calls[id].Owned? || p.calls[id].Streaming?)
  }

  /** The pairs of two live calls never overlap, even after the RTCP sockets are gone: different RTP
      ports, and the RTP port of one is never the RTCP port of the other. The one exception is port 0,
      which the system lets everybody have. */
  lemma LiveCallsAreDisjoint(r: Range, states: seq<Pool>, labels: seq<Label>, i: nat, a: CallId, b: CallId)
    requires Usable(r) && Run(r, states, labels) && i < |states|
    requires a != b && HasSockets(states[i], a) && HasSockets(states[i], b)
    ensures PairOf(states[i].calls[a].port) !! PairOf(states[i].calls[b].port)
            <==> !(states[i].calls[a].port == 0 && states[i].calls[b].port == 0)
    ensures r.first <= states[i].calls[a].port
  {
    RunInv(r, states, labels, i);
    SocketsAreDisjoint(r, states[i], a, b);
  }

  lemma SocketsAreDisjoint(r: Range, p: Pool, a: CallId, b: CallId)
    requires Usable(r) && Inv(r, p) && a != b && HasSockets(p, a) && HasSockets(p, b)
    ensures PairOf(p.calls[a].port) !! PairOf(p.calls[b].port) <==> !(p.calls[a].port == 0 && p.calls[b].port == 0)
    ensures r.first <= p.calls[a].port
  {
    hide AttemptsCounted;
    hide CursorMatchesDraws;
    hide Usable;
    var portA: int, portB: int := p.calls[a].port, p.calls[b].port;
    assert Holds(p, portA, a) <==> Owns(p, portA, a);
    assert Holds(p, portB, b) <==> Owns(p, portB, b);
    assert WorksOn(p.calls[a], p.calls[a].port) && WorksOn(p.calls[b], p.calls[b].port);
    DrawnParity(r, p, a, portA);
    DrawnParity(r, p, b, portB);
    assert portA + 1 != portB && portB + 1 != portA;
    if portA == portB {
      assert portA in PairOf(portA) && portA in PairOf(portB);
    }
  }

  lemma DrawnParity(r: Range, p: Pool, id: CallId, port: u16)
    requires Usable(r) && CursorMatchesDraws(r, p) && DrewBefore(p, id, port)
    ensures port % 2 == r.first % 2 && r.first <= port
  {
    hide CursorAfter;
    hide Usable;
    var k :| 0 <= k < |p.draws| && p.draws[k] == Draw(id, port);
    CursorInPool(r, k);
  }

  /** An attempt that binds RTP but is refused RTCP leaves no trace in the operating system, whatever
      others do between its steps: its RTP port is free again, none of its three steps touches any
      other port, and it counts as one attempt. */
  lemma HalfBoundAttemptRestores(r: Range, states: seq<Pool>, labels: seq<Label>,
                                 i: nat, j: nat, k: nat, id: CallId, attempts: nat, port: u16)
    requires Run(r, states, labels) && i < j < k < |labels|
    requires labels[i] == BindRtp(id) && labels[j] == BindRtcp(id) && labels[k] == DropHalf(id)
    requires forall m :: i < m < k && m != j ==> !ActsFor(labels[m], id)
    requires states[i].calls[id] == Drawn(attempts, port)
    ensures states[i + 1].bound - {port} == states[i].bound - {port}
    ensures states[j + 1].bound == states[j].bound
    ensures states[k + 1].bound - {port} == states[k].bound - {port}
    ensures !Taken(states[i], port) && !Taken(states[k + 1], port)
    ensures states[k + 1].calls[id] == Selecting(attempts + 1)
  {
    hide NextPort;
    hide CursorAfter;
    hide Capacity;
    assert Enabled(r, states[i], labels[i]) && states[i + 1] == Apply(r, states[i], labels[i]);
    PhaseStays(r, states, labels, i + 1, j, id);
    assert Enabled(r, states[j], labels[j]) && states[j + 1] == Apply(r, states[j], labels[j]);
    PhaseStays(r, states, labels, j + 1, k, id);
    assert Enabled(r, states[k], labels[k]) && states[k + 1] == Apply(r, states[k], labels[k]);
  }

  /** Others may take any free port at any time: even on a pair that is free when a call draws it, the
      attempt can fail. They may also give it back, and then it is as if nothing had happened. */
  lemma FreePairCanBeLost(r: Range, p: Pool, id: CallId)
    requires id in p.calls && p.calls[id].Drawn? && p.calls[id].port != 0 && p.calls[id].port !in p.bound
    ensures Enabled(r, p, OutsideBind(p.calls[id].port))
    ensures var taken := Apply(r, p, OutsideBind(p.calls[id].port));
            && Enabled(r, taken, BindRtp(id))
            && Apply(r, taken, BindRtp(id)).calls[id] == Selecting(p.calls[id].attempts + 1)
            && Apply(r, taken, BindRtp(id)).bound == p.bound[p.calls[id].port := Outside]
            && Enabled(r, taken, OutsideRelease(p.calls[id].port))
            && Apply(r, taken, OutsideRelease(p.calls[id].port)) == p
  {
  }

  // ----- Progress -----

  /** Steps of `try_allocate_socket_pair` after its first. */
  predicate AllocationStep(l: Label, id: CallId) {
    ActsFor(l, id) && !l.Begin? && !l.DropRtcp? && !l.Release?
  }

  /** An allocation that has not ended. */
  predicate Allocating(phase: Phase) {
    !phase.Exhausted? && !phase.Owned? && !phase.Streaming? && !phase.Released?
  }

  /** No attempt is made beyond the capacity. */
  predicate WithinCapacity(r: Range, phase: Phase) {
    match phase
    case Selecting(attempts) => attempts <= Capacity(r)
    case Loaded(attempts, _) => attempts < Capacity(r)
    case Drawn(attempts, _) => attempts < Capacity(r)
    case HalfBound(attempts, _) => attempts < Capacity(r)
    case Refused(attempts, _) => attempts < Capacity(r)
    case _ => true
  }

  lemma CapacityStep(r: Range, p: Pool, l: Label, id: CallId)
    requires Enabled(r, p, l) && (id in p.calls ==> WithinCapacity(r, p.calls[id]))
    ensures id in Apply(r, p, l).calls ==> WithinCapacity(r, Apply(r, p, l).calls[id])
  {
    hide NextPort;
    hide CursorAfter;
    hide Capacity;
  }

  lemma {:induction false} RunWithinCapacity(r: Range, states: seq<Pool>, labels: seq<Label>, i: nat, id: CallId)
    requires Run(r, states, labels) && i < |states|
    ensures id in states[i].calls ==> WithinCapacity(r, states[i].calls[id])
  {
    hide Apply;
    hide Enabled;
    hide WithinCapacity;
    if i > 0 {
      RunWithinCapacity(r, states, labels, i - 1, id);
      assert Enabled(r, states[i - 1], labels[i - 1]);
      CapacityStep(r, states[i - 1], labels[i - 1], id);
    }
  }

  /** In every run an allocation that has not ended can take a step of its own. */
  lemma AllocationNeverSticks(r: Range, states: seq<Pool>, labels: seq<Label>, i: nat, id: CallId) returns (l: Label)
    requires Run(r, states, labels) && i < |states| && id in states[i].calls && Allocating(states[i].calls[id])
    ensures AllocationStep(l, id) && Enabled(r, states[i], l)
  {
    RunWithinCapacity(r, states, labels, i, id);
    hide Run;
    hide Capacity;
    var p := states[i];
    match p.calls[id]
    case Selecting(attempts) => l := if attempts < Capacity(r) then Load(id, |p.draws|) else GiveUp(id);
    case Loaded(_, seen) => l := if p.cursor == seen then CasOk(id) else CasFail(id);
    case Drawn(_, _) => l := BindRtp(id);
    case HalfBound(_, _) => l := BindRtcp(id);
    case Refused(_, _) => l := DropHalf(id);
  }

  /** How far an allocation still has to go, in steps other than the retries of its compare-exchange: at
      most four for each attempt left, and giving up. */
  function StepsLeft(r: Range, phase: Phase): int {
    match phase
    case Selecting(attempts) => 4 * (Capacity(r) - attempts) + 1
    case Loaded(attempts, _) => 4 * (Capacity(r) - attempts) + 1
    case Drawn(attempts, _) => 4 * (Capacity(r) - attempts)
    case HalfBound(attempts, _) => 4 * (Capacity(r) - attempts) - 1
    case Refused(attempts, _) => 4 * (Capacity(r) - attempts) - 2
    case _ => 0
  }

  /** Own steps of an allocation that are not part of its compare-exchange retries. */
  predicate Advances(l: Label, id: CallId) {
    AllocationStep(l, id) && !l.Load? && !l.CasFail?
  }

  function AdvancesMade(labels: seq<Label>, from: nat, to: nat, id: CallId): nat
    requires from <= to <= |labels|
  {
    if from == to then 0 else AdvancesMade(labels, from, to - 1, id) + if Advances(labels[to - 1], id) then 1 else 0
  }

  lemma AdvanceStep(r: Range, p: Pool, l: Label, id: CallId)
    requires Enabled(r, p, l) && id in p.calls && WithinCapacity(r, p.calls[id])
    ensures id in Apply(r, p, l).calls
    ensures StepsLeft(r, p.calls[id]) >= 0
    ensures StepsLeft(r, Apply(r, p, l).calls[id]) <= StepsLeft(r, p.calls[id]) - if Advances(l, id) then 1 else 0
  {
    hide NextPort;
    hide CursorAfter;
    hide Capacity;
  }

  lemma {:induction false} AdvancesUseUpSteps(r: Range, states: seq<Pool>, labels: seq<Label>, from: nat, to: nat, id: CallId)
    requires Run(r, states, labels) && from < to < |states| && labels[from] == Begin(id)
    ensures id in states[to].calls
    ensures AdvancesMade(labels, from + 1, to, id) + StepsLeft(r, states[to].calls[id]) <= 4 * Capacity(r) + 1
  {
    hide Apply;
    hide Enabled;
    hide Capacity;
    hide StepsLeft;
    hide Advances;
    assert Enabled(r, states[to - 1], labels[to - 1]);
    if to == from + 1 {
      BeginsWithAllSteps(r, states[from], id);
    } else {
      AdvancesUseUpSteps(r, states, labels, from, to - 1, id);
      RunWithinCapacity(r, states, labels, to - 1, id);
      AdvanceStep(r, states[to - 1], labels[to - 1], id);
    }
  }

  lemma BeginsWithAllSteps(r: Range, p: Pool, id: CallId)
    requires Enabled(r, p, Begin(id))
    ensures id in Apply(r, p, Begin(id)).calls
    ensures StepsLeft(r, Apply(r, p, Begin(id)).calls[id]) == 4 * Capacity(r) + 1
  {
  }

  /** Every allocation ends: in every run, whatever others do, it takes at most four steps for each pair
      of the pool, and one, besides the retries of its compare-exchange; and those, by
      `RetryMeansProgress`, others have to cause. */
  lemma AllocationsEnd(r: Range, states: seq<Pool>, labels: seq<Label>, from: nat, to: nat, id: CallId)
    requires Run(r, states, labels) && from < to < |states| && labels[from] == Begin(id)
    ensures AdvancesMade(labels, from + 1, to, id) <= 4 * Capacity(r) + 1
  {
    AdvancesUseUpSteps(r, states, labels, from, to, id);
    RunWithinCapacity(r, states, labels, to, id);
    StepsLeftCount(r, states[to].calls[id]);
  }

  lemma StepsLeftCount(r: Range, phase: Phase)
    requires WithinCapacity(r, phase)
    ensures StepsLeft(r, phase) >= 0
  {
    hide Capacity;
  }

  // ----- A failed allocation -----

  lemma {:induction false} OwnDrawsAtMostLength(draws: seq<Draw>, id: CallId)
    ensures OwnDraws(draws, id) <= |draws|
  {
    if draws != [] {
      OwnDrawsAtMostLength(draws[..|draws| - 1], id);
    }
  }

  /** The window from the first to the last own draw. */
  lemma {:induction false} OwnWindow(draws: seq<Draw>, id: CallId) returns (first: nat, last: nat)
    requires OwnDraws(draws, id) >= 1
    ensures first <= last < |draws|
    ensures draws[first].caller == id && draws[last].caller == id
    ensures forall k :: 0 <= k < |draws| && draws[k].caller == id ==> first <= k <= last
    ensures OwnDraws(draws, id) <= last - first + 1
  {
    var shorter := draws[..|draws| - 1];
    if OwnDraws(shorter, id) >= 1 {
      first, last := OwnWindow(shorter, id);
      if draws[|draws| - 1].caller == id {
        last := |draws| - 1;
      }
    } else {
      NoOwnDraws(shorter, id);
      first, last := |draws| - 1, |draws| - 1;
    }
  }

  lemma {:induction false} NoOwnDraws(draws: seq<Draw>, id: CallId)
    requires OwnDraws(draws, id) == 0
    ensures forall k :: 0 <= k < |draws| ==> draws[k].caller != id
  {
    if draws != [] {
      NoOwnDraws(draws[..|draws| - 1], id);
    }
  }

  /** When an allocation gives up, every pair of the pool was drawn, by it or by others, between its
      own first and last draw. */
  lemma ExhaustedSawWholePool(r: Range, states: seq<Pool>, labels: seq<Label>, i: nat, id: CallId)
      returns (first: nat, last: nat)
    requires Usable(r) && Run(r, states, labels) && i < |states|
    requires id in states[i].calls && states[i].calls[id] == Exhausted
    ensures first <= last < |states[i].draws|
    ensures states[i].draws[first].caller == id && states[i].draws[last].caller == id
    ensures forall q :: 0 <= q < Capacity(r) ==>
              exists k :: first <= k <= last && states[i].draws[k].port == PairPort(r, q)
  {
    var p := states[i];
    RunInv(r, states, labels, i);
    UsableCapacity(r);
    hide Capacity;
    assert CountFits(r, p.draws, p.calls, id);
    first, last := OwnWindow(p.draws, id);
    forall q | 0 <= q < Capacity(r)
      ensures exists k :: first <= k <= last && p.draws[k].port == PairPort(r, q)
    {
      var k := WindowCoversPool(r, p, first, q);
    }
  }

  /** Somebody other than `id` holds one of the two ports of the pair at `port`. */
  predicate Contended(p: Pool, id: CallId, port: int) {
    || (Taken(p, port) && p.bound[port] != Call(id))
    || (Taken(p, port + 1) && p.bound[port + 1] != Call(id))
  }

  ghost predicate ContendedBetween(states: seq<Pool>, from: nat, to: nat, id: CallId, port: int) {
    exists m :: from <= m <= to && m < |states| && Contended(states[m], id, port)
  }

  /** The call works on the pair and has not been refused yet. */
  predicate PendingOn(phase: Phase, port: u16) {
    WorksOn(phase, port) && !phase.Refused?
  }

  /** A call stops pursuing a pair without winning it only when somebody else is in the way. */
  lemma RefusalMeansContention(r: Range, p: Pool, l: Label, id: CallId, port: u16)
    requires Inv(r, p) && Enabled(r, p, l) && id in p.calls && PendingOn(p.calls[id], port)
    requires id in Apply(r, p, l).calls && Apply(r, p, l).calls[id] != Released
    requires !PendingOn(Apply(r, p, l).calls[id], port)
    ensures Contended(p, id, port)
  {
    hide Capacity;
    hide CursorAfter;
    hide NextPort;
    assert Owns(p, port, id) <==> Holds(p, port, id);
    assert Owns(p, port + 1, id) <==> Holds(p, port + 1, id);
  }

  /** Only a draw of its own adds to the pairs a call has drawn. */
  lemma NewDrawIsPending(r: Range, p: Pool, l: Label, id: CallId, port: u16)
    requires Enabled(r, p, l) && !DrewBefore(p, id, port) && DrewBefore(Apply(r, p, l), id, port)
    ensures id in Apply(r, p, l).calls && PendingOn(Apply(r, p, l).calls[id], port)
  {
    hide Capacity;
    hide CursorAfter;
    hide NextPort;
  }

  /** Every pair a call drew is one it still pursues, or it was contended during the call. */
  lemma {:induction false} OwnDrawsWereContended(r: Range, states: seq<Pool>, labels: seq<Label>,
                                                 from: nat, to: nat, id: CallId, port: u16)
    requires Run(r, states, labels) && from <= to < |states|
    requires id !in states[from].calls
    requires id in states[to].calls && states[to].calls[id] != Released
    requires DrewBefore(states[to], id, port)
    ensures PendingOn(states[to].calls[id], port) || ContendedBetween(states, from, to, id, port)
  {
    hide Apply;
    hide Enabled;
    var p, l := states[to - 1], labels[to - 1];
    assert Enabled(r, p, l) && states[to] == Apply(r, p, l);
    RunInv(r, states, labels, to - 1);
    if !DrewBefore(p, id, port) {
      NewDrawIsPending(r, p, l, id, port);
    } else {
      DrawerIsKnown(r, p, id, port);
      ReleasedIsFinal(r, p, l, id);
      OwnDrawsWereContended(r, states, labels, from, to - 1, id, port);
      if PendingOn(p.calls[id], port) && !PendingOn(states[to].calls[id], port) {
        RefusalMeansContention(r, p, l, id, port);
        assert Contended(states[to - 1], id, port);
      }
    }
  }

  lemma DrawerIsKnown(r: Range, p: Pool, id: CallId, port: u16)
    requires Inv(r, p) && DrewBefore(p, id, port)
    ensures id in p.calls
  {
    assert CountFits(r, p.draws, p.calls, id);
    if id !in p.calls {
      NoOwnDraws(p.draws, id);
    }
  }

  lemma ReleasedIsFinal(r: Range, p: Pool, l: Label, id: CallId)
    requires Enabled(r, p, l) && id in p.calls
    ensures id in Apply(r, p, l).calls
    ensures p.calls[id] == Released ==> Apply(r, p, l).calls[id] == Released
  {
  }

  /** Draws are only ever appended. */
  lemma {:induction false} DrawsGrow(r: Range, states: seq<Pool>, labels: seq<Label>, from: nat, to: nat)
    requires Run(r, states, labels) && from <= to < |states|
    ensures states[from].draws <= states[to].draws
  {
    hide Capacity;
    hide CursorAfter;
    hide NextPort;
    if from < to {
      DrawsGrow(r, states, labels, from, to - 1);
      assert states[to] == Apply(r, states[to - 1], labels[to - 1]);
    }
  }

  /** An allocation that fails between `from` and `to` is not to blame: each pair it drew was
      contended while it ran, and every pair that nobody else touched throughout was handed, during
      the call, to somebody else. */
  lemma FailureIsJustified(r: Range, states: seq<Pool>, labels: seq<Label>, from: nat, to: nat, id: CallId)
    requires Usable(r) && Run(r, states, labels) && from <= to < |states|
    requires id !in states[from].calls && id in states[to].calls && states[to].calls[id] == Exhausted
    ensures forall port: u16 :: DrewBefore(states[to], id, port) ==> ContendedBetween(states, from, to, id, port)
    ensures forall q :: 0 <= q < Capacity(r) && !ContendedBetween(states, from, to, id, PairPort(r, q)) ==>
              exists k :: |states[from].draws| <= k < |states[to].draws|
                          && states[to].draws[k].port == PairPort(r, q) && states[to].draws[k].caller != id
  {
    hide Capacity;
    hide ContendedBetween;
    forall port: u16 | DrewBefore(states[to], id, port)
      ensures ContendedBetween(states, from, to, id, port)
    {
      OwnDrawsWereContended(r, states, labels, from, to, id, port);
    }
    var first, last := ExhaustedSawWholePool(r, states, labels, to, id);
    OwnDrawsComeLater(r, states, labels, from, to, id, first);
    forall q | 0 <= q < Capacity(r) && !ContendedBetween(states, from, to, id, PairPort(r, q))
      ensures exists k :: |states[from].draws| <= k < |states[to].draws|
                          && states[to].draws[k].port == PairPort(r, q) && states[to].draws[k].caller != id
    {
      var k :| first <= k <= last && states[to].draws[k].port == PairPort(r, q);
      assert states[to].draws[k].caller == id ==> DrewBefore(states[to], id, states[to].draws[k].port);
    }
  }

  /** The draws from number `from` on that others made. */
  function ForeignDraws(draws: seq<Draw>, from: nat, id: CallId): set<nat> {
    set k: nat | from <= k < |draws| && draws[k].caller != id
  }

  /** The pairs on which nobody else had a socket at any time between `from` and `to`. */
  ghost function Uncontended(r: Range, states: seq<Pool>, from: nat, to: nat, id: CallId): set<nat> {
    set q: nat | q < Capacity(r) && !ContendedBetween(states, from, to, id, PairPort(r, q))
  }

  /** The pair that draw `k` hands out. */
  function PairOfDraw(r: Range, k: nat): nat {
    if Capacity(r) == 0 then 0 else k % Capacity(r)
  }

  function PairsOfDraws(r: Range, ks: set<nat>): set<nat> {
    set k | k in ks :: PairOfDraw(r, k)
  }

  lemma {:induction false} PairsAtMostDraws(r: Range, ks: set<nat>)
    ensures |PairsOfDraws(r, ks)| <= |ks|
  {
    hide PairOfDraw;
    if ks != {} {
      var k :| k in ks;
      PairsAtMostDraws(r, ks - {k});
      assert PairsOfDraws(r, ks) == PairsOfDraws(r, ks - {k}) + {PairOfDraw(r, k)};
    }
  }

  lemma SubsetAtMost(a: set<nat>, b: set<nat>)
    requires a <= b
    ensures |a| <= |b|
  {
    assert b == a + (b - a);
  }

  /** A failed allocation in numbers: while it ran, others drew at least as often as there were pairs
      nobody else touched throughout. */
  lemma FailureCounted(r: Range, states: seq<Pool>, labels: seq<Label>, from: nat, to: nat, id: CallId)
    requires Usable(r) && Run(r, states, labels) && from <= to < |states|
    requires id !in states[from].calls && id in states[to].calls && states[to].calls[id] == Exhausted
    ensures |Uncontended(r, states, from, to, id)| <= |ForeignDraws(states[to].draws, |states[from].draws|, id)|
  {
    var foreign := ForeignDraws(states[to].draws, |states[from].draws|, id);
    forall q | q in Uncontended(r, states, from, to, id)
      ensures q in PairsOfDraws(r, foreign)
    {
      UncontendedWasDrawn(r, states, labels, from, to, id, q);
    }
    SubsetAtMost(Uncontended(r, states, from, to, id), PairsOfDraws(r, foreign));
    PairsAtMostDraws(r, foreign);
  }

  lemma PairOfDrawIs(r: Range, k: nat, q: nat)
    requires Usable(r) && CursorAfter(r, k) == PairPort(r, q)
    ensures PairOfDraw(r, k) == q
  {
    UsableCapacity(r);
    hide CursorAfter;
    CursorIsRoundRobin(r, k);
  }

  lemma UncontendedWasDrawn(r: Range, states: seq<Pool>, labels: seq<Label>, from: nat, to: nat, id: CallId, q: nat)
    requires Usable(r) && Run(r, states, labels) && from <= to < |states|
    requires id !in states[from].calls && id in states[to].calls && states[to].calls[id] == Exhausted
    requires q in Uncontended(r, states, from, to, id)
    ensures q in PairsOfDraws(r, ForeignDraws(states[to].draws, |states[from].draws|, id))
  {
    RunInv(r, states, labels, to);
    hide Run;
    hide ContendedBetween;
    hide Capacity;
    hide CursorAfter;
    hide Usable;
    hide PairOfDraw;
    FailureIsJustified(r, states, labels, from, to, id);
    var k :| |states[from].draws| <= k < |states[to].draws|
             && states[to].draws[k].port == PairPort(r, q) && states[to].draws[k].caller != id;
    PairOfDrawIs(r, k, q);
    assert k in ForeignDraws(states[to].draws, |states[from].draws|, id);
  }

  /** A call draws nothing before it begins. */
  lemma OwnDrawsComeLater(r: Range, states: seq<Pool>, labels: seq<Label>, from: nat, to: nat, id: CallId, k: nat)
    requires Run(r, states, labels) && from <= to < |states| && id !in states[from].calls
    requires k < |states[to].draws| && states[to].draws[k].caller == id
    ensures |states[from].draws| <= k
  {
    RunInv(r, states, labels, from);
    DrawsGrow(r, states, labels, from, to);
    assert CountFits(r, states[from].draws, states[from].calls, id);
    NoOwnDraws(states[from].draws, id);
  }
}
