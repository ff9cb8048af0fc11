/** Calls from INVITE to return (src/call_handler.rs), with the metrics they keep and the sockets
    they hold, on top of the port pool.

    Any number of calls run at once. Each takes the steps of `handle_call`; its allocation and its
    sockets move through the phases of the port pool. The two media tasks of a call may stop at any
    time and may outlive `handle_call`; its RTP socket closes when the last of them is gone. */
module CallLifecycle {
  import opened Bits
  import opened PortRange
  import opened Wrappers
  import PortPool

  type CallId = PortPool.CallId

  datatype Reason =
    | SdpOfferInvalid | RtpPortPoolExhausted | UdpConnectFailed | NoSupportedCodec | CodecInitFailed

  /** How a call that never became active ended. `SdpRejectError` is the one that returns an error
      before any counter is touched. */
  datatype Outcome = Rejected(reason: Reason) | AcceptFailed | SdpRejectError

  datatype Stage =
    | Invited
    | Allocating
    | Bound
    | Connected
    | Ready
    | Accepted
    | Talking
    | Returned
    | Ended(outcome: Outcome)

  /** `cancelled` is the dialog's token and `mediaCancelled` the session's child token; `receiving`
      and `sending` say which media tasks still run. */
  datatype Call = Call(stage: Stage, cancelled: bool, mediaCancelled: bool, receiving: bool, sending: bool)

  /** The active gauge and the accepted and rejected counters. */
  datatype Metrics = Metrics(active: int, accepted: nat, rejected: map<Reason, nat>)

  datatype Server = Server(pool: PortPool.Pool, calls: map<CallId, Call>, metrics: Metrics)

  datatype Label =
    | Invite(id: CallId)
    | ParseOk(id: CallId)
    | ParseFail(id: CallId, invalid: bool, rejectSent: bool)
    | Pool(step: PortPool.Label)
    | Allocated(id: CallId)
    | AllocationFailed(id: CallId)
    | Connect(id: CallId, ok: bool)
    | CreateCodec(id: CallId, ok: bool)
    | Accept(id: CallId, ok: bool)
    | Start(id: CallId)
    | MediaTimeout(id: CallId)
    | ReceiveTaskEnds(id: CallId)
    | SendTaskEnds(id: CallId)
    | CancelDialog(id: CallId)
    | Return(id: CallId)

  predicate InStage(s: Server, id: CallId, stage: Stage) {
    id in s.calls && s.calls[id].stage == stage
  }

  /** Steps of the pool that need no other part of the call: an allocation at work, or sockets of
      other programs. */
  predicate PoolOnly(s: Server, l: PortPool.Label) {
    match l
    case Begin(_) => false
    case DropRtcp(_) => false
    case Release(_) => false
    case OutsideBind(_) => true
    case OutsideRelease(_) => true
    case Stutter => true
    case _ => InStage(s, l.id, Allocating)
  }

  predicate HasPhase(s: Server, id: CallId) {
    id in s.pool.calls
  }

  predicate Enabled(r: Range, s: Server, l: Label) {
    match l
    case Invite(id) => id !in s.calls
    case ParseOk(id) => InStage(s, id, Invited) && PortPool.Enabled(r, s.pool, PortPool.Begin(id))
    case ParseFail(id, _, _) => InStage(s, id, Invited)
    case Pool(step) => PortPool.Enabled(r, s.pool, step) && PoolOnly(s, step)
    case Allocated(id) => InStage(s, id, Allocating) && HasPhase(s, id) && s.pool.calls[id].Owned?
    case AllocationFailed(id) => InStage(s, id, Allocating) && HasPhase(s, id) && s.pool.calls[id].Exhausted?
    case Connect(id, _) => InStage(s, id, Bound) && PortPool.Enabled(r, s.pool, PortPool.Release(id))
    case CreateCodec(id, _) => InStage(s, id, Connected) && PortPool.Enabled(r, s.pool, PortPool.Release(id))
    case Accept(id, _) => InStage(s, id, Ready) && PortPool.Enabled(r, s.pool, PortPool.Release(id))
    case Start(id) => InStage(s, id, Accepted) && PortPool.Enabled(r, s.pool, PortPool.DropRtcp(id))
    case MediaTimeout(id) => id in s.calls && s.calls[id].receiving && !s.calls[id].mediaCancelled
    case ReceiveTaskEnds(id) =>
      id in s.calls && s.calls[id].receiving && PortPool.Enabled(r, s.pool, PortPool.Release(id))
    case SendTaskEnds(id) =>
      id in s.calls && s.calls[id].sending && PortPool.Enabled(r, s.pool, PortPool.Release(id))
    case CancelDialog(id) => id in s.calls
    case Return(id) => InStage(s, id, Talking) && s.calls[id].cancelled
  }

  function Update(s: Server, id: CallId, call: Call): Server {
    s.(calls := s.calls[id := call])
  }

  function Move(s: Server, id: CallId, stage: Stage): Server
    requires id in s.calls
  {
    Update(s, id, s.calls[id].(stage := stage))
  }

  function Rejections(rejected: map<Reason, nat>, reason: Reason): nat {
    if reason in rejected then rejected[reason] else 0
  }

  function CountRejection(m: Metrics, reason: Reason): Metrics {
    m.(rejected := m.rejected[reason := Rejections(m.rejected, reason) + 1])
  }

  /** Counting a rejection and returning. */
  function Reject(s: Server, id: CallId, reason: Reason): Server
    requires id in s.calls
  {
    Move(s, id, Ended(Rejected(reason))).(metrics := CountRejection(s.metrics, reason))
  }

  function Release(r: Range, s: Server, id: CallId): Server
    requires PortPool.Enabled(r, s.pool, PortPool.Release(id))
  {
    s.(pool := PortPool.Apply(r, s.pool, PortPool.Release(id)))
  }

  function Apply(r: Range, s: Server, l: Label): Server
    requires Enabled(r, s, l)
  {
    match l
    case Invite(id) => Update(s, id, Call(Invited, false, false, false, false))
    case ParseOk(id) =>
      Move(s, id, Allocating).(pool := PortPool.Apply(r, s.pool, PortPool.Begin(id)))
    case ParseFail(id, invalid, rejectSent) =>
      var reason := if invalid then SdpOfferInvalid else NoSupportedCodec;
      if rejectSent then Reject(s, id, reason)
      else Move(s, id, Ended(SdpRejectError))
    case Pool(step) => s.(pool := PortPool.Apply(r, s.pool, step))
    case Allocated(id) => Move(s, id, Bound)
    case AllocationFailed(id) =>
      Reject(s, id, RtpPortPoolExhausted)
    case Connect(id, ok) =>
      if ok then Move(s, id, Connected)
      else Reject(Release(r, s, id), id, UdpConnectFailed)
    case CreateCodec(id, ok) =>
      if ok then Move(s, id, Ready)
      else Reject(Release(r, s, id), id, CodecInitFailed)
    case Accept(id, ok) =>
      if ok then
        Move(s, id, Accepted)
          .(metrics := s.metrics.(active := s.metrics.active + 1, accepted := s.metrics.accepted + 1))
      else Move(Release(r, s, id), id, Ended(AcceptFailed))
    case Start(id) =>
      Update(s, id, s.calls[id].(stage := Talking, receiving := true, sending := true))
        .(pool := PortPool.Apply(r, s.pool, PortPool.DropRtcp(id)))
    case MediaTimeout(id) => Update(s, id, s.calls[id].(mediaCancelled := true))
    case ReceiveTaskEnds(id) =>
      var s' := Update(s, id, s.calls[id].(receiving := false));
      if s.calls[id].sending then s' else Release(r, s', id)
    case SendTaskEnds(id) =>
      var s' := Update(s, id, s.calls[id].(sending := false));
      if s.calls[id].receiving then s' else Release(r, s', id)
    case CancelDialog(id) => Update(s, id, s.calls[id].(cancelled := true, mediaCancelled := true))
    case Return(id) => Move(s, id, Returned).(metrics := s.metrics.(active := s.metrics.active - 1))
  }

  ghost predicate Initial(r: Range, s: Server) {
    PortPool.Initial(r, s.pool) && s.calls == map[] && s.metrics == Metrics(0, 0, map[])
  }

  ghost predicate Run(r: Range, states: seq<Server>, labels: seq<Label>) {
    && |states| == |labels| + 1
    && Initial(r, states[0])
    && forall i :: 0 <= i < |labels| ==>
         Enabled(r, states[i], labels[i]) && states[i + 1] == Apply(r, states[i], labels[i])
  }

  // ----- Calls and sockets -----

  /** Which pool phase goes with a stage: no pair before allocation, the whole pair during setup, the
      RTP socket while a media task runs, nothing afterwards. */
  predicate PhaseFits(p: PortPool.Pool, id: CallId, call: Call) {
    && (call.receiving || call.sending ==> call.stage.Talking? || call.stage.Returned?)
    && match call.stage
       case Invited => id !in p.calls
       case Allocating =>
         id in p.calls && !p.calls[id].Streaming? && !p.calls[id].Released?
       case Bound => id in p.calls && p.calls[id].Owned?
       case Connected => id in p.calls && p.calls[id].Owned?
       case Ready => id in p.calls && p.calls[id].Owned?
       case Accepted => id in p.calls && p.calls[id].Owned?
       case Talking => id in p.calls && TaskPhase(p.calls[id], call)
       case Returned => id in p.calls && TaskPhase(p.calls[id], call)
       case Ended(Rejected(RtpPortPoolExhausted)) => id in p.calls && p.calls[id].Exhausted?
       case Ended(Rejected(SdpOfferInvalid)) => id !in p.calls
       case Ended(Rejected(NoSupportedCodec)) => id !in p.calls
       case Ended(SdpRejectError) => id !in p.calls
       case Ended(_) => id in p.calls && p.calls[id].Released?
  }

  predicate TaskPhase(phase: PortPool.Phase, call: Call) {
    if call.receiving || call.sending then phase.Streaming? else phase.Released?
  }

  ghost predicate SocketInv(r: Range, s: Server) {
    && PortPool.Inv(r, s.pool)
    && (forall id :: id in s.calls ==> PhaseFits(s.pool, id, s.calls[id]))
    && (forall id :: id in s.pool.calls ==> id in s.calls)
  }

  /** What a server step does to the pool. */
  function PoolStep(s: Server, l: Label): PortPool.Label {
    match l
    case ParseOk(id) => PortPool.Begin(id)
    case Pool(step) => step
    case Connect(id, ok) => if ok then PortPool.Stutter else PortPool.Release(id)
    case CreateCodec(id, ok) => if ok then PortPool.Stutter else PortPool.Release(id)
    case Accept(id, ok) => if ok then PortPool.Stutter else PortPool.Release(id)
    case Start(id) => PortPool.DropRtcp(id)
    case ReceiveTaskEnds(id) => if id in s.calls && s.calls[id].sending then PortPool.Stutter else PortPool.Release(id)
    case SendTaskEnds(id) => if id in s.calls && s.calls[id].receiving then PortPool.Stutter else PortPool.Release(id)
    case _ => PortPool.Stutter
  }

  lemma StepProjects(r: Range, s: Server, l: Label)
    requires Enabled(r, s, l)
    ensures PortPool.Enabled(r, s.pool, PoolStep(s, l))
    ensures Apply(r, s, l).pool == PortPool.Apply(r, s.pool, PoolStep(s, l))
  {
  }

  /** Where pool steps take the call that makes them. */
  lemma PoolMove(r: Range, p: PortPool.Pool, l: PortPool.Label)
    requires PortPool.Enabled(r, p, l) && PortPool.OfCall(l)
    ensures var p' := PortPool.Apply(r, p, l);
            && l.id in p'.calls
            && (l.Release? ==> p'.calls[l.id].Released?)
            && (l.DropRtcp? ==> p'.calls[l.id].Streaming?)
            && (!l.Release? && !l.DropRtcp? ==> !p'.calls[l.id].Streaming? && !p'.calls[l.id].Released?)
  {
    hide NextPort;
    hide CursorAfter;
    hide Capacity;
  }

  lemma SocketStep(r: Range, s: Server, l: Label)
    requires Enabled(r, s, l) && SocketInv(r, s)
    ensures SocketInv(r, Apply(r, s, l))
  {
    hide PortPool.Inv;
    hide PortPool.Apply;
    hide PhaseFits;
    var s', step := Apply(r, s, l), PoolStep(s, l);
    StepProjects(r, s, l);
    PortPool.StepInv(r, s.pool, step);
    forall id | id in s'.calls
      ensures PhaseFits(s'.pool, id, s'.calls[id])
    {
      FitStep(r, s, l, id);
    }
    forall id | id in s'.pool.calls
      ensures id in s'.calls
    {
      if !PortPool.ActsFor(step, id) {
        PortPool.StepFrame(r, s.pool, step, id);
      }
    }
  }

  lemma FitStep(r: Range, s: Server, l: Label, id: CallId)
    requires Enabled(r, s, l) && id in Apply(r, s, l).calls
    requires id in s.calls ==> PhaseFits(s.pool, id, s.calls[id])
    requires id in s.pool.calls ==> id in s.calls
    ensures PhaseFits(Apply(r, s, l).pool, id, Apply(r, s, l).calls[id])
  {
    hide PortPool.Apply;
    hide PhaseFits;
    if ActsOn(l, id) {
      FitActor(r, s, l, id);
    } else {
      FitOther(r, s, l, id);
    }
  }

  lemma FitOther(r: Range, s: Server, l: Label, id: CallId)
    requires Enabled(r, s, l) && !ActsOn(l, id) && id in Apply(r, s, l).calls
    requires id in s.calls ==> PhaseFits(s.pool, id, s.calls[id])
    ensures PhaseFits(Apply(r, s, l).pool, id, Apply(r, s, l).calls[id])
  {
    hide PortPool.Apply;
    hide PortPool.Enabled;
    hide PhaseFits;
    StepProjects(r, s, l);
    PortPool.StepFrame(r, s.pool, PoolStep(s, l), id);
    FitFrame(s.pool, Apply(r, s, l).pool, id, s.calls[id]);
  }

  lemma FitActor(r: Range, s: Server, l: Label, id: CallId)
    requires Enabled(r, s, l) && ActsOn(l, id) && id in Apply(r, s, l).calls
    requires id in s.calls ==> PhaseFits(s.pool, id, s.calls[id])
    requires id in s.pool.calls ==> id in s.calls
    ensures PhaseFits(Apply(r, s, l).pool, id, Apply(r, s, l).calls[id])
  {
    hide PortPool.Apply;
    hide PortPool.Enabled;
    StepProjects(r, s, l);
    if PortPool.OfCall(PoolStep(s, l)) {
      PoolMove(r, s.pool, PoolStep(s, l));
    } else {
      StutterStays(r, s.pool);
    }
  }

  lemma StutterStays(r: Range, p: PortPool.Pool)
    ensures PortPool.Apply(r, p, PortPool.Stutter) == p
  {
  }

  predicate ActsOn(l: Label, id: CallId) {
    if l.Pool? then PortPool.ActsFor(l.step, id) else l.id == id
  }

  lemma FitFrame(p: PortPool.Pool, p': PortPool.Pool, id: CallId, call: Call)
    requires PhaseFits(p, id, call)
    requires id in p'.calls <==> id in p.calls
    requires id in p.calls ==> p'.calls[id] == p.calls[id]
    ensures PhaseFits(p', id, call)
  {
  }

  lemma {:induction false} RunSockets(r: Range, states: seq<Server>, labels: seq<Label>, i: nat)
    requires Run(r, states, labels) && i < |states|
    ensures SocketInv(r, states[i])
  {
    hide Apply;
    hide Enabled;
    if i == 0 {
      PortPool.InitialInv(r, states[0].pool);
    } else {
      RunSockets(r, states, labels, i - 1);
      assert Enabled(r, states[i - 1], labels[i - 1]);
      SocketStep(r, states[i - 1], labels[i - 1]);
    }
  }

  /** Every run of the server is, seen from its ports, a run of the pool: all that holds of the pool
      under any interleaving holds of the calls that share it. */
  lemma RunProjects(r: Range, states: seq<Server>, labels: seq<Label>)
      returns (pools: seq<PortPool.Pool>, steps: seq<PortPool.Label>)
    requires Run(r, states, labels)
    ensures PortPool.Run(r, pools, steps)
    ensures |pools| == |states| && forall i :: 0 <= i < |states| ==> pools[i] == states[i].pool
  {
    hide Apply;
    hide Enabled;
    hide PortPool.Apply;
    hide PortPool.Enabled;
    pools := seq(|states|, i requires 0 <= i < |states| => states[i].pool);
    steps := seq(|labels|, i requires 0 <= i < |labels| && i < |states| => PoolStep(states[i], labels[i]));
    forall i | 0 <= i < |labels|
      ensures PortPool.Enabled(r, pools[i], steps[i]) && pools[i + 1] == PortPool.Apply(r, pools[i], steps[i])
    {
      assert Enabled(r, states[i], labels[i]);
      StepProjects(r, states[i], labels[i]);
    }
  }

  /** A call rejected because the pool was exhausted is rejected for cause: each pair it drew was held
      by somebody else while it tried, and each pair that nobody else held throughout went to another
      call meanwhile, so that others drew at least as often as there were such pairs. */
  lemma ExhaustionIsJustified(r: Range, states: seq<Server>, labels: seq<Label>, from: nat, to: nat, id: CallId)
      returns (pools: seq<PortPool.Pool>)
    requires Usable(r) && Run(r, states, labels) && from <= to < |states|
    requires InStage(states[from], id, Invited)
    requires InStage(states[to], id, Ended(Rejected(RtpPortPoolExhausted)))
    ensures |pools| == |states| && forall i :: 0 <= i < |states| ==> pools[i] == states[i].pool
    ensures forall port: u16 :: PortPool.DrewBefore(pools[to], id, port) ==>
              PortPool.ContendedBetween(pools, from, to, id, port)
    ensures forall q :: 0 <= q < Capacity(r) && !PortPool.ContendedBetween(pools, from, to, id, PairPort(r, q)) ==>
              exists k :: |pools[from].draws| <= k < |pools[to].draws|
                          && pools[to].draws[k].port == PairPort(r, q) && pools[to].draws[k].caller != id
    ensures |PortPool.Uncontended(r, pools, from, to, id)|
            <= |PortPool.ForeignDraws(pools[to].draws, |pools[from].draws|, id)|
  {
    hide PortPool.Run;
    hide PortPool.ContendedBetween;
    hide Capacity;
    RunSockets(r, states, labels, from);
    RunSockets(r, states, labels, to);
    assert PhaseFits(states[from].pool, id, states[from].calls[id]);
    assert PhaseFits(states[to].pool, id, states[to].calls[id]);
    var steps;
    pools, steps := RunProjects(r, states, labels);
    PortPool.FailureIsJustified(r, pools, steps, from, to, id);
    PortPool.FailureCounted(r, pools, steps, from, to, id);
  }

  /** A call has its sockets while it is being set up or a media task runs. */
  predicate Live(call: Call) {
    call.stage.Bound? || call.stage.Connected? || call.stage.Ready? || call.stage.Accepted?
    || call.receiving || call.sending
  }

  /** Live calls never collide on a port, in any run of the server, but for port 0. */
  lemma LiveCallsNeverShare(r: Range, states: seq<Server>, labels: seq<Label>, i: nat, a: CallId, b: CallId)
    requires Usable(r) && Run(r, states, labels) && i < |states| && a != b
    requires a in states[i].calls && b in states[i].calls && Live(states[i].calls[a]) && Live(states[i].calls[b])
    ensures var p := states[i].pool;
            && PortPool.HasSockets(p, a) && PortPool.HasSockets(p, b)
            && (PairOf(p.calls[a].port) !! PairOf(p.calls[b].port)
                <==> !(p.calls[a].port == 0 && p.calls[b].port == 0))
            && r.first <= p.calls[a].port
  {
    hide PortPool.Run;
    RunSockets(r, states, labels, i);
    var pools, steps := RunProjects(r, states, labels);
    assert PhaseFits(states[i].pool, a, states[i].calls[a]) && PhaseFits(states[i].pool, b, states[i].calls[b]);
    PortPool.LiveCallsAreDisjoint(r, pools, steps, i, a, b);
  }

  /** The ports a call must have: those of the attempt at work while it allocates, both during the rest
      of the setup, RTP alone while a media task runs, none otherwise. */
  function ExpectedSockets(p: PortPool.Pool, id: CallId, call: Call): set<int>
    requires PhaseFits(p, id, call)
  {
    if call.receiving || call.sending then SocketOn(p.calls[id].port)
    else if call.stage.Allocating? then PortPool.Held(p.calls[id])
    else if Live(call) then PairSockets(p.calls[id].port)
    else {}
  }

  /** The operating system has a port bound for a call exactly while call setup or one of its two
      media tasks holds it. */
  lemma PortsBoundExactlyWhileHeld(r: Range, states: seq<Server>, labels: seq<Label>, i: nat, id: CallId, port: int)
    requires Run(r, states, labels) && i < |states| && id in states[i].calls
    ensures PhaseFits(states[i].pool, id, states[i].calls[id])
    ensures PortPool.Owns(states[i].pool, port, id) <==>
            port in ExpectedSockets(states[i].pool, id, states[i].calls[id])
  {
    RunSockets(r, states, labels, i);
    var p, call := states[i].pool, states[i].calls[id];
    assert PhaseFits(p, id, call);
    assert PortPool.Owns(p, port, id) <==> PortPool.Holds(p, port, id);
  }

  /** The socket operations of `handle_call` and of its tasks are possible whenever it gets there. */
  lemma SocketsAreThere(r: Range, s: Server, id: CallId)
    requires SocketInv(r, s) && id in s.calls
    ensures s.calls[id].stage.Invited? ==> Enabled(r, s, ParseOk(id))
    ensures Live(s.calls[id]) ==> PortPool.Enabled(r, s.pool, PortPool.Release(id))
    ensures s.calls[id].stage.Accepted? ==> Enabled(r, s, Start(id))
    ensures s.calls[id].receiving ==> Enabled(r, s, ReceiveTaskEnds(id))
    ensures s.calls[id].sending ==> Enabled(r, s, SendTaskEnds(id))
  {
    assert PhaseFits(s.pool, id, s.calls[id]);
  }

  // ----- Metrics -----

  datatype Class = Pending | Active | Completed | Refused(reason: Reason) | Unaccepted | Uncounted

  function ClassOf(stage: Stage): Class {
    match stage
    case Accepted => Active
    case Talking => Active
    case Returned => Completed
    case Ended(Rejected(reason)) => Refused(reason)
    case Ended(AcceptFailed) => Unaccepted
    case Ended(SdpRejectError) => Uncounted
    case _ => Pending
  }

  function InClass(calls: map<CallId, Call>, k: Class): set<CallId> {
    set id | id in calls && ClassOf(calls[id].stage) == k
  }

  /** Gauge and counters say exactly what the calls are. */
  ghost predicate MetricsExact(s: Server) {
    && s.metrics.active == |InClass(s.calls, Active)|
    && s.metrics.accepted == |InClass(s.calls, Active)| + |InClass(s.calls, Completed)|
    && forall reason :: Rejections(s.metrics.rejected, reason) == |InClass(s.calls, Refused(reason))|
  }

  /** One call changing hands: it leaves its old class and joins the new one. */
  lemma ClassUpdate(calls: map<CallId, Call>, id: CallId, call: Call, k: Class)
    ensures InClass(calls[id := call], k)
            == if ClassOf(call.stage) == k then InClass(calls, k) + {id} else InClass(calls, k) - {id}
    ensures id in InClass(calls, k) <==> id in calls && ClassOf(calls[id].stage) == k
  {
  }

  lemma ClassCount(calls: map<CallId, Call>, id: CallId, call: Call, k: Class)
    ensures |InClass(calls[id := call], k)| ==
            |InClass(calls, k)|
            + (if ClassOf(call.stage) == k then 1 else 0)
            - (if id in calls && ClassOf(calls[id].stage) == k then 1 else 0)
  {
    ClassUpdate(calls, id, call, k);
  }

  function ClassAt(calls: map<CallId, Call>, id: CallId): Class {
    if id in calls then ClassOf(calls[id].stage) else Pending
  }

  /** The metric update that goes with a change of class. */
  function Recorded(m: Metrics, after: Class): Metrics {
    match after
    case Active => m.(active := m.active + 1, accepted := m.accepted + 1)
    case Completed => m.(active := m.active - 1)
    case Refused(reason) => CountRejection(m, reason)
    case _ => m
  }

  /** A step leaves the call it concerns in its class and the metrics alone, or it settles a pending
      call or completes an active one, with the update that goes with it. */
  predicate Accounted(s: Server, s': Server, id: CallId) {
    var before, after := ClassAt(s.calls, id), ClassAt(s'.calls, id);
    if before == after then s'.metrics == s.metrics
    else
      && (if before == Active then after == Completed else before == Pending && after != Completed)
      && s'.metrics == Recorded(s.metrics, after)
  }

  /** Steps that can decide how a call is counted. */
  predicate Decides(l: Label) {
    l.ParseFail? || l.AllocationFailed? || l.Connect? || l.CreateCodec? || l.Accept? || l.Return?
  }

  lemma StepFocus(r: Range, s: Server, l: Label)
    requires Enabled(r, s, l) && !l.Pool?
    ensures l.id in Apply(r, s, l).calls
    ensures Apply(r, s, l).calls == s.calls[l.id := Apply(r, s, l).calls[l.id]]
  {
    hide PortPool.Apply;
    hide PortPool.Enabled;
  }

  lemma UndecidedAccounted(r: Range, s: Server, l: Label)
    requires Enabled(r, s, l) && !l.Pool? && !Decides(l)
    ensures Accounted(s, Apply(r, s, l), l.id)
  {
    hide PortPool.Apply;
    hide PortPool.Enabled;
  }

  lemma DecidedAccounted(r: Range, s: Server, l: Label)
    requires Enabled(r, s, l) && Decides(l)
    ensures Accounted(s, Apply(r, s, l), l.id)
  {
    hide PortPool.Apply;
    hide PortPool.Enabled;
  }

  lemma StepAccounted(r: Range, s: Server, l: Label)
    requires Enabled(r, s, l) && !l.Pool?
    ensures l.id in Apply(r, s, l).calls
    ensures Apply(r, s, l).calls == s.calls[l.id := Apply(r, s, l).calls[l.id]]
    ensures Accounted(s, Apply(r, s, l), l.id)
  {
    hide Apply;
    hide Enabled;
    hide Accounted;
    StepFocus(r, s, l);
    if Decides(l) {
      DecidedAccounted(r, s, l);
    } else {
      UndecidedAccounted(r, s, l);
    }
  }

  lemma MetricsStep(r: Range, s: Server, l: Label)
    requires Enabled(r, s, l) && MetricsExact(s)
    ensures MetricsExact(Apply(r, s, l))
  {
    hide InClass;
    var s' := Apply(r, s, l);
    if !l.Pool? {
      StepAccounted(r, s, l);
      hide Apply;
      hide Enabled;
      ClassCount(s.calls, l.id, s'.calls[l.id], Active);
      ClassCount(s.calls, l.id, s'.calls[l.id], Completed);
      forall reason
        ensures Rejections(s'.metrics.rejected, reason) == |InClass(s'.calls, Refused(reason))|
      {
        ClassCount(s.calls, l.id, s'.calls[l.id], Refused(reason));
        assert Rejections(s.metrics.rejected, reason) == |InClass(s.calls, Refused(reason))|;
      }
    }
  }

  /** Calls `handle_call` has returned from. */
  function Finished(calls: map<CallId, Call>): set<CallId> {
    set id | id in calls && HasFinished(calls[id])
  }

  predicate HasFinished(call: Call) {
    call.stage.Returned? || call.stage.Ended?
  }

  function TotalRejected(rejected: map<Reason, nat>): nat {
    Rejections(rejected, SdpOfferInvalid) + Rejections(rejected, RtpPortPoolExhausted)
    + Rejections(rejected, UdpConnectFailed) + Rejections(rejected, NoSupportedCodec)
    + Rejections(rejected, CodecInitFailed)
  }

  ghost predicate Balanced(s: Server) {
    |Finished(s.calls)| + s.metrics.active
    == s.metrics.accepted + TotalRejected(s.metrics.rejected)
                  + |InClass(s.calls, Unaccepted)| + |InClass(s.calls, Uncounted)|
  }

  lemma FinishedCount(calls: map<CallId, Call>, id: CallId, call: Call)
    ensures |Finished(calls[id := call])| ==
            |Finished(calls)| + (if HasFinished(call) then 1 else 0)
            - (if id in calls && HasFinished(calls[id]) then 1 else 0)
  {
    assert Finished(calls[id := call])
           == if HasFinished(call) then Finished(calls) + {id} else Finished(calls) - {id};
    assert id in Finished(calls) <==> id in calls && HasFinished(calls[id]);
  }

  lemma RejectionCounts(m: Metrics, reason: Reason)
    ensures TotalRejected(CountRejection(m, reason).rejected) == TotalRejected(m.rejected) + 1
    ensures CountRejection(m, reason).active == m.active && CountRejection(m, reason).accepted == m.accepted
  {
  }

  lemma BalanceStep(r: Range, s: Server, l: Label)
    requires Enabled(r, s, l) && Balanced(s)
    ensures Balanced(Apply(r, s, l))
  {
    if !l.Pool? {
      hide Balanced;
      StepAccounted(r, s, l);
      BalanceMove(s, Apply(r, s, l), l.id);
    }
  }

  lemma BalanceMove(s: Server, s': Server, id: CallId)
    requires Balanced(s) && Accounted(s, s', id)
    requires id in s'.calls && s'.calls == s.calls[id := s'.calls[id]]
    ensures Balanced(s')
  {
    hide InClass;
    hide Finished;
    hide TotalRejected;
    hide CountRejection;
    ClassCount(s.calls, id, s'.calls[id], Unaccepted);
    ClassCount(s.calls, id, s'.calls[id], Uncounted);
    FinishedCount(s.calls, id, s'.calls[id]);
    if ClassOf(s'.calls[id].stage).Refused? {
      RejectionCounts(s.metrics, ClassOf(s'.calls[id].stage).reason);
    }
  }

  lemma {:induction false} RunMetrics(r: Range, states: seq<Server>, labels: seq<Label>, i: nat)
    requires Run(r, states, labels) && i < |states|
    ensures MetricsExact(states[i]) && Balanced(states[i])
  {
    hide Apply;
    hide Enabled;
    if i == 0 {
      assert forall k :: InClass(states[0].calls, k) == {};
      assert Finished(states[0].calls) == {};
    } else {
      RunMetrics(r, states, labels, i - 1);
      assert Enabled(r, states[i - 1], labels[i - 1]);
      MetricsStep(r, states[i - 1], labels[i - 1]);
      BalanceStep(r, states[i - 1], labels[i - 1]);
    }
  }

  /** In every run the gauge is the number of calls between accept and return, each counter is the
      number of calls it is about, and every finished call is accounted for once: accepted and
      returned, rejected for one reason, failed to accept, or lost to an error while sending the SDP
      rejection. */
  lemma CallsBalance(r: Range, states: seq<Server>, labels: seq<Label>, i: nat)
    requires Run(r, states, labels) && i < |states|
    ensures var s := states[i];
            && s.metrics.active == |InClass(s.calls, Active)|
            && s.metrics.accepted == |InClass(s.calls, Active)| + |InClass(s.calls, Completed)|
            && (forall reason :: Rejections(s.metrics.rejected, reason) == |InClass(s.calls, Refused(reason))|)
            && |Finished(s.calls)| + s.metrics.active
               == s.metrics.accepted + TotalRejected(s.metrics.rejected)
                  + |InClass(s.calls, Unaccepted)| + |InClass(s.calls, Uncounted)|
  {
    RunMetrics(r, states, labels, i);
  }

  // ----- Metrics, event by event -----

  /** The step at which the code counts a rejection for `reason`. */
  predicate RejectsFor(l: Label, reason: Reason) {
    match reason
    case SdpOfferInvalid => l.ParseFail? && l.invalid && l.rejectSent
    case NoSupportedCodec => l.ParseFail? && !l.invalid && l.rejectSent
    case RtpPortPoolExhausted => l.AllocationFailed?
    case UdpConnectFailed => l.Connect? && !l.ok
    case CodecInitFailed => l.CreateCodec? && !l.ok
  }

  /** The step at which `handle_call` returns. */
  predicate Finishes(l: Label) {
    l.ParseFail? || l.AllocationFailed? || (l.Connect? && !l.ok) || (l.CreateCodec? && !l.ok)
    || (l.Accept? && !l.ok) || l.Return?
  }

  predicate Accepts(l: Label) {
    l.Accept? && l.ok
  }

  function RejectEvents(labels: seq<Label>, n: nat, reason: Reason): nat
    requires n <= |labels|
  {
    if n == 0 then 0 else RejectEvents(labels, n - 1, reason) + if RejectsFor(labels[n - 1], reason) then 1 else 0
  }

  function AcceptEvents(labels: seq<Label>, n: nat): nat
    requires n <= |labels|
  {
    if n == 0 then 0 else AcceptEvents(labels, n - 1) + if Accepts(labels[n - 1]) then 1 else 0
  }

  function ReturnEvents(labels: seq<Label>, n: nat): nat
    requires n <= |labels|
  {
    if n == 0 then 0 else ReturnEvents(labels, n - 1) + if labels[n - 1].Return? then 1 else 0
  }

  function ExitEvents(labels: seq<Label>, n: nat): nat
    requires n <= |labels|
  {
    if n == 0 then 0 else ExitEvents(labels, n - 1) + if Finishes(labels[n - 1]) then 1 else 0
  }

  lemma MetricsEvent(r: Range, s: Server, l: Label)
    requires Enabled(r, s, l)
    ensures var m, m' := s.metrics, Apply(r, s, l).metrics;
            && m'.accepted == m.accepted + (if Accepts(l) then 1 else 0)
            && m'.active == m.active + (if Accepts(l) then 1 else 0) - (if l.Return? then 1 else 0)
            && forall reason :: Rejections(m'.rejected, reason)
                                == Rejections(m.rejected, reason) + if RejectsFor(l, reason) then 1 else 0
  {
    hide PortPool.Apply;
    hide PortPool.Enabled;
  }

  lemma FinishEvent(r: Range, s: Server, l: Label)
    requires Enabled(r, s, l)
    ensures |Finished(Apply(r, s, l).calls)| == |Finished(s.calls)| + if Finishes(l) then 1 else 0
  {
    hide Finished;
    if !l.Pool? {
      StepFocus(r, s, l);
      FinishedCount(s.calls, l.id, Apply(r, s, l).calls[l.id]);
      hide PortPool.Apply;
      hide PortPool.Enabled;
    }
  }

  /** In every run each counter is the number of events it counts: a rejection counter the failures of
      its own step, the accepted counter the accepted calls, the gauge those of them that have not
      returned; and the calls that are over are those whose last step was an exit. */
  lemma {:induction false} CountersCountEvents(r: Range, states: seq<Server>, labels: seq<Label>, i: nat)
    requires Run(r, states, labels) && i < |states|
    ensures forall reason :: Rejections(states[i].metrics.rejected, reason) == RejectEvents(labels, i, reason)
    ensures states[i].metrics.accepted == AcceptEvents(labels, i)
    ensures states[i].metrics.active == AcceptEvents(labels, i) - ReturnEvents(labels, i)
    ensures |Finished(states[i].calls)| == ExitEvents(labels, i)
  {
    hide Apply;
    hide Enabled;
    hide Finished;
    hide RejectsFor;
    hide Rejections;
    if i == 0 {
      NoEvents(states[0]);
    } else {
      CountersCountEvents(r, states, labels, i - 1);
      assert Enabled(r, states[i - 1], labels[i - 1]);
      MetricsEvent(r, states[i - 1], labels[i - 1]);
      FinishEvent(r, states[i - 1], labels[i - 1]);
    }
  }

  lemma NoEvents(s: Server)
    requires s.calls == map[] && s.metrics == Metrics(0, 0, map[])
    ensures Finished(s.calls) == {} && forall reason :: Rejections(s.metrics.rejected, reason) == 0
  {
  }

  // ----- The course of a call -----

  /** Steps of `handle_call` itself, as opposed to its dialog, its media tasks and the pool. */
  predicate OfHandler(l: Label, id: CallId) {
    !l.Pool? && !l.MediaTimeout? && !l.ReceiveTaskEnds? && !l.SendTaskEnds? && !l.CancelDialog? && l.id == id
  }

  function Course(labels: seq<Label>, n: nat, id: CallId): seq<Label>
    requires n <= |labels|
  {
    if n == 0 then []
    else Course(labels, n - 1, id) + if OfHandler(labels[n - 1], id) then [labels[n - 1]] else []
  }

  /** The first `n` steps of a call that is not turned away. */
  function Setup(id: CallId, n: nat): seq<Label>
    requires n <= 8
  {
    [Invite(id), ParseOk(id), Allocated(id), Connect(id, true), CreateCodec(id, true), Accept(id, true), Start(id),
     Return(id)][..n]
  }

  /** The course that leads to a stage: each step in its place, and none twice. */
  predicate LeadsTo(id: CallId, course: seq<Label>, stage: Stage) {
    match stage
    case Invited => course == Setup(id, 1)
    case Allocating => course == Setup(id, 2)
    case Bound => course == Setup(id, 3)
    case Connected => course == Setup(id, 4)
    case Ready => course == Setup(id, 5)
    case Accepted => course == Setup(id, 6)
    case Talking => course == Setup(id, 7)
    case Returned => course == Setup(id, 8)
    case Ended(Rejected(SdpOfferInvalid)) => course == Setup(id, 1) + [ParseFail(id, true, true)]
    case Ended(Rejected(NoSupportedCodec)) => course == Setup(id, 1) + [ParseFail(id, false, true)]
    case Ended(SdpRejectError) =>
      course == Setup(id, 1) + [ParseFail(id, true, false)] || course == Setup(id, 1) + [ParseFail(id, false, false)]
    case Ended(Rejected(RtpPortPoolExhausted)) => course == Setup(id, 2) + [AllocationFailed(id)]
    case Ended(Rejected(UdpConnectFailed)) => course == Setup(id, 3) + [Connect(id, false)]
    case Ended(Rejected(CodecInitFailed)) => course == Setup(id, 4) + [CreateCodec(id, false)]
    case Ended(AcceptFailed) => course == Setup(id, 5) + [Accept(id, false)]
  }

  /** Where the step `l` takes a call that is in `stage`; `None` is a call not yet there. */
  function StageAfter(stage: Option<Stage>, l: Label): Option<Stage> {
    match (stage, l)
    case (None, Invite(_)) => Some(Invited)
    case (Some(Invited), ParseOk(_)) => Some(Allocating)
    case (Some(Invited), ParseFail(_, invalid, rejectSent)) =>
      Some(Ended(if !rejectSent then SdpRejectError
                 else Rejected(if invalid then SdpOfferInvalid else NoSupportedCodec)))
    case (Some(Allocating), Allocated(_)) => Some(Bound)
    case (Some(Allocating), AllocationFailed(_)) => Some(Ended(Rejected(RtpPortPoolExhausted)))
    case (Some(Bound), Connect(_, ok)) => Some(if ok then Connected else Ended(Rejected(UdpConnectFailed)))
    case (Some(Connected), CreateCodec(_, ok)) => Some(if ok then Ready else Ended(Rejected(CodecInitFailed)))
    case (Some(Ready), Accept(_, ok)) => Some(if ok then Accepted else Ended(AcceptFailed))
    case (Some(Accepted), Start(_)) => Some(Talking)
    case (Some(Talking), Return(_)) => Some(Returned)
    case _ => None
  }

  function StageOf(s: Server, id: CallId): Option<Stage> {
    if id in s.calls then Some(s.calls[id].stage) else None
  }

  lemma StageStep(r: Range, s: Server, l: Label, id: CallId)
    requires Enabled(r, s, l) && OfHandler(l, id)
    ensures StageOf(Apply(r, s, l), id).Some? && StageOf(Apply(r, s, l), id) == StageAfter(StageOf(s, id), l)
  {
    hide PortPool.Apply;
    hide PortPool.Enabled;
  }

  lemma SetupGrows(id: CallId)
    ensures Setup(id, 1) == [Invite(id)]
    ensures Setup(id, 2) == Setup(id, 1) + [ParseOk(id)]
    ensures Setup(id, 3) == Setup(id, 2) + [Allocated(id)]
    ensures Setup(id, 4) == Setup(id, 3) + [Connect(id, true)]
    ensures Setup(id, 5) == Setup(id, 4) + [CreateCodec(id, true)]
    ensures Setup(id, 6) == Setup(id, 5) + [Accept(id, true)]
    ensures Setup(id, 7) == Setup(id, 6) + [Start(id)]
    ensures Setup(id, 8) == Setup(id, 7) + [Return(id)]
  {
  }

  lemma LeadsFurther(id: CallId, course: seq<Label>, stage: Option<Stage>, l: Label)
    requires if stage.Some? then LeadsTo(id, course, stage.value) else course == []
    requires OfHandler(l, id) && StageAfter(stage, l).Some?
    ensures LeadsTo(id, course + [l], StageAfter(stage, l).value)
  {
    SetupGrows(id);
    hide Setup;
  }

  lemma CourseStep(r: Range, s: Server, l: Label, id: CallId, course: seq<Label>)
    requires Enabled(r, s, l) && OfHandler(l, id)
    requires if id in s.calls then LeadsTo(id, course, s.calls[id].stage) else course == []
    ensures id in Apply(r, s, l).calls && LeadsTo(id, course + [l], Apply(r, s, l).calls[id].stage)
  {
    hide Apply;
    hide Enabled;
    hide LeadsTo;
    hide StageAfter;
    StageStep(r, s, l, id);
    LeadsFurther(id, course, StageOf(s, id), l);
  }

  lemma CourseFrame(r: Range, s: Server, l: Label, id: CallId)
    requires Enabled(r, s, l) && !OfHandler(l, id)
    ensures id in Apply(r, s, l).calls <==> id in s.calls
    ensures id in s.calls ==> Apply(r, s, l).calls[id].stage == s.calls[id].stage
  {
    hide PortPool.Apply;
    hide PortPool.Enabled;
  }

  /** In every run a call is where its own steps have brought it, and these are the steps of the code in
      the order of the code: parse, allocate, connect, create the codec, accept, start, return, or a
      beginning of that and the one exit taken. */
  lemma {:induction false} CallsTakeTheirCourse(r: Range, states: seq<Server>, labels: seq<Label>, i: nat, id: CallId)
    requires Run(r, states, labels) && i < |states|
    ensures if id in states[i].calls then LeadsTo(id, Course(labels, i, id), states[i].calls[id].stage)
            else Course(labels, i, id) == []
  {
    hide Apply;
    hide Enabled;
    hide LeadsTo;
    hide OfHandler;
    if i > 0 {
      CallsTakeTheirCourse(r, states, labels, i - 1, id);
      var s, l, before := states[i - 1], labels[i - 1], Course(labels, i - 1, id);
      assert Enabled(r, s, l);
      if OfHandler(l, id) {
        CourseStep(r, s, l, id, before);
      } else {
        CourseFrame(r, s, l, id);
        assert before + [] == before;
      }
    }
  }

  /** Sockets of other programs come and go in the server as they do in the pool. */
  lemma OthersActFreely(r: Range, s: Server, step: PortPool.Label)
    requires !PortPool.OfCall(step)
    ensures Enabled(r, s, Pool(step)) <==> PortPool.Enabled(r, s.pool, step)
    ensures Enabled(r, s, Pool(step)) ==>
              Apply(r, s, Pool(step)) == s.(pool := PortPool.Apply(r, s.pool, step))
  {
  }

  /** In every run a call that `handle_call` has not returned from can go on: with the outcomes the code
      knows at each stage, through a step of its allocation, or by its dialog being cancelled. */
  lemma CallsNeverStick(r: Range, states: seq<Server>, labels: seq<Label>, i: nat, id: CallId)
    requires Usable(r) && Run(r, states, labels) && i < |states| && id in states[i].calls
    ensures var s := states[i];
            && Enabled(r, s, CancelDialog(id))
            && match s.calls[id].stage
               case Invited =>
                 Enabled(r, s, ParseOk(id))
                 && forall invalid, rejectSent :: Enabled(r, s, ParseFail(id, invalid, rejectSent))
               case Allocating =>
                 || Enabled(r, s, Allocated(id)) || Enabled(r, s, AllocationFailed(id))
                 || exists step :: PortPool.AllocationStep(step, id) && Enabled(r, s, Pool(step))
               case Bound => Enabled(r, s, Connect(id, true)) && Enabled(r, s, Connect(id, false))
               case Connected => Enabled(r, s, CreateCodec(id, true)) && Enabled(r, s, CreateCodec(id, false))
               case Ready => Enabled(r, s, Accept(id, true)) && Enabled(r, s, Accept(id, false))
               case Accepted => Enabled(r, s, Start(id))
               case Talking => s.calls[id].cancelled ==> Enabled(r, s, Return(id))
               case _ => true
  {
    hide PortPool.Run;
    RunSockets(r, states, labels, i);
    var s := states[i];
    assert PhaseFits(s.pool, id, s.calls[id]);
    if s.calls[id].stage.Allocating? {
      var pools, steps := RunProjects(r, states, labels);
      if !s.pool.calls[id].Owned? && !s.pool.calls[id].Exhausted? {
        var step := PortPool.AllocationNeverSticks(r, pools, steps, i, id);
        assert Enabled(r, s, Pool(step));
      }
    } else {
      hide Run;
      SocketsAreThere(r, s, id);
    }
  }

  // ----- Who ends a call -----

  /** A call that is talking goes on until its dialog is cancelled, whatever happens to its media. */
  lemma {:induction false} TalkingUntilDialogCancelled(r: Range, states: seq<Server>, labels: seq<Label>,
                                                       i: nat, j: nat, id: CallId)
    requires Run(r, states, labels) && i <= j < |states|
    requires InStage(states[i], id, Talking) && !states[i].calls[id].cancelled
    requires forall m :: i <= m < j ==> labels[m] != CancelDialog(id)
    ensures InStage(states[j], id, Talking) && !states[j].calls[id].cancelled
    ensures !Enabled(r, states[j], Return(id))
  {
    hide Apply;
    if i < j {
      TalkingUntilDialogCancelled(r, states, labels, i, j - 1, id);
      var s, l := states[j - 1], labels[j - 1];
      assert Enabled(r, s, l) && states[j] == Apply(r, s, l);
      hide Enabled;
      TalkingStep(r, s, l, id);
    }
    ReturnGuard(r, states[j], id);
  }

  lemma TalkingStep(r: Range, s: Server, l: Label, id: CallId)
    requires Enabled(r, s, l) && l != CancelDialog(id)
    requires InStage(s, id, Talking) && !s.calls[id].cancelled
    ensures InStage(Apply(r, s, l), id, Talking) && !Apply(r, s, l).calls[id].cancelled
  {
    hide PortPool.Apply;
    hide PortPool.Enabled;
  }

  lemma ReturnGuard(r: Range, s: Server, id: CallId)
    ensures Enabled(r, s, Return(id)) <==> InStage(s, id, Talking) && s.calls[id].cancelled
  {
  }

  predicate DialogCancelled(s: Server, id: CallId) {
    id in s.calls && s.calls[id].cancelled
  }

  lemma DialogStep(r: Range, s: Server, l: Label, id: CallId)
    requires Enabled(r, s, l)
    ensures DialogCancelled(Apply(r, s, l), id) <==> DialogCancelled(s, id) || l == CancelDialog(id)
  {
    hide PortPool.Apply;
    hide PortPool.Enabled;
  }

  /** No step but its dialog's cancellation sets the token of a call, and nothing clears it. */
  lemma {:induction false} CancelledOnlyByDialog(r: Range, states: seq<Server>, labels: seq<Label>, j: nat, id: CallId)
    requires Run(r, states, labels) && j < |states|
    ensures DialogCancelled(states[j], id) <==> exists m :: 0 <= m < j && labels[m] == CancelDialog(id)
  {
    hide Apply;
    hide Enabled;
    if j > 0 {
      CancelledOnlyByDialog(r, states, labels, j - 1, id);
      assert Enabled(r, states[j - 1], labels[j - 1]);
      DialogStep(r, states[j - 1], labels[j - 1], id);
    }
  }

  /** In every run, a talking call can return exactly when its dialog was cancelled at some time before;
      nothing that happens to its media counts. */
  lemma ReturnNeedsDialog(r: Range, states: seq<Server>, labels: seq<Label>, j: nat, id: CallId)
    requires Run(r, states, labels) && j < |states| && InStage(states[j], id, Talking)
    ensures Enabled(r, states[j], Return(id)) <==> exists m :: 0 <= m < j && labels[m] == CancelDialog(id)
  {
    CancelledOnlyByDialog(r, states, labels, j, id);
    ReturnGuard(r, states[j], id);
  }
}
