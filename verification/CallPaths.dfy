/** What can happen to calls: states of the server with its sessions that some run reaches. They show
    that the guarantees of the other modules are not empty and where they end. */
module CallPaths {
  import opened PortRange
  import opened CallMedia
  import PortPool
  import Calls = CallLifecycle
  import Media = MediaSession

  // ----- Single moves -----

  lemma CallMove(r: Range, s: System, l: Calls.Label) returns (s': System)
    requires Reachable(r, s) && Calls.Enabled(r, s.server, l) && !CausedByMedia(l) && !l.CancelDialog?
    ensures Reachable(r, s') && s' == s.(server := Calls.Apply(r, s.server, l))
  {
    hide Reachable;
    hide Calls.Apply;
    hide Calls.Enabled;
    StepReachable(r, s, CallStep(l));
    s' := Apply(r, s, CallStep(l));
  }

  lemma PoolMove(r: Range, s: System, step: PortPool.Label) returns (s': System)
    requires Reachable(r, s) && PortPool.Enabled(r, s.server.pool, step) && Calls.PoolOnly(s.server, step)
    ensures Reachable(r, s') && s' == s.(server := s.server.(pool := PortPool.Apply(r, s.server.pool, step)))
  {
    hide Reachable;
    hide PortPool.Apply;
    hide PortPool.Enabled;
    s' := CallMove(r, s, Calls.Pool(step));
  }

  lemma MediaMove(r: Range, s: System, id: CallId, move: Media.Label) returns (s': System)
    requires Reachable(r, s) && id in s.media && Calls.InStage(s.server, id, Calls.Talking)
    requires move != Media.CancelDialog && Media.Enabled(s.media[id].config, s.media[id].current, move)
    ensures Reachable(r, s') && s'.media == s.media[id := Extend(s.media[id], move)]
    ensures Calls.InStage(s'.server, id, Calls.Talking) && s'.server.metrics == s.server.metrics
    ensures Calls.DialogCancelled(s'.server, id) == Calls.DialogCancelled(s.server, id)
  {
    var states: seq<System>, labels: seq<Label> :| Run(r, states, labels) && s == states[|labels|];
    SessionsNeverBlocked(r, states, labels, |labels|, id, move);
    hide Run;
    StepReachable(r, s, MediaStep(id, move));
    hide Reachable;
    s' := Apply(r, s, MediaStep(id, move));
    SessionLeavesCall(r, s, id, move);
  }

  lemma SessionLeavesCall(r: Range, s: System, id: CallId, move: Media.Label)
    requires Enabled(r, s, MediaStep(id, move)) && Calls.InStage(s.server, id, Calls.Talking)
    ensures var server := Apply(r, s, MediaStep(id, move)).server;
            && Calls.InStage(server, id, Calls.Talking) && server.metrics == s.server.metrics
            && Calls.DialogCancelled(server, id) == Calls.DialogCancelled(s.server, id)
  {
    hide PortPool.Apply;
    hide PortPool.Enabled;
    hide Media.Apply;
    hide Media.Enabled;
  }

  // ----- From the invitation to the conversation -----

  function WithPool(s: System, p: PortPool.Pool): System {
    s.(server := s.server.(pool := p))
  }

  lemma Begins(r: Range, s: System, id: CallId) returns (s': System)
    requires Reachable(r, s) && id !in s.server.calls && id !in s.server.pool.calls
    ensures Reachable(r, s') && s'.media == s.media
    ensures s'.server.calls == s.server.calls[id := Calls.Call(Calls.Allocating, false, false, false, false)]
    ensures s'.server.pool == PortPool.Goto(s.server.pool, id, PortPool.Selecting(0))
  {
    hide Reachable;
    s' := CallMove(r, s, Calls.Invite(id));
    s' := CallMove(r, s', Calls.ParseOk(id));
  }

  function Drew(r: Range, p: PortPool.Pool, id: CallId, phase: PortPool.Phase): PortPool.Pool {
    PortPool.Goto(p, id, phase)
      .(cursor := NextPort(r, p.cursor), draws := p.draws + [PortPool.Draw(id, p.cursor)])
  }

  predicate CanDraw(r: Range, s: System, id: CallId) {
    var p := s.server.pool;
    && Calls.InStage(s.server, id, Calls.Allocating)
    && id in p.calls && p.calls[id].Selecting? && p.calls[id].attempts < Capacity(r)
    && p.cursor == CursorAfter(r, |p.draws|)
  }

  lemma Draws(r: Range, s: System, id: CallId) returns (s': System)
    requires Reachable(r, s) && CanDraw(r, s, id)
    ensures var p := s.server.pool;
            Reachable(r, s') && s' == WithPool(s, Drew(r, p, id, PortPool.Drawn(p.calls[id].attempts, p.cursor)))
  {
    hide Reachable;
    hide Capacity;
    hide NextPort;
    hide CursorAfter;
    s' := PoolMove(r, s, PortPool.Load(id, |s.server.pool.draws|));
    s' := PoolMove(r, s', PortPool.CasOk(id));
  }

  lemma AttemptFails(r: Range, s: System, id: CallId) returns (s': System)
    requires Reachable(r, s) && CanDraw(r, s, id) && PortPool.Taken(s.server.pool, s.server.pool.cursor)
    ensures var p := s.server.pool;
            Reachable(r, s') && s' == WithPool(s, Drew(r, p, id, PortPool.Selecting(p.calls[id].attempts + 1)))
  {
    hide Reachable;
    hide Capacity;
    hide NextPort;
    hide CursorAfter;
    s' := Draws(r, s, id);
    s' := PoolMove(r, s', PortPool.BindRtp(id));
  }

  lemma AttemptSucceeds(r: Range, s: System, id: CallId) returns (s': System)
    requires Reachable(r, s) && CanDraw(r, s, id)
    requires !PortPool.Taken(s.server.pool, s.server.pool.cursor)
    requires !PortPool.Taken(s.server.pool, s.server.pool.cursor + 1)
    ensures Reachable(r, s') && s'.media == s.media && s'.server.calls == s.server.calls
    ensures var p, p' := s.server.pool, s'.server.pool;
            && p'.calls == p.calls[id := PortPool.Owned(p.cursor)]
            && p'.cursor == NextPort(r, p.cursor) && p'.draws == p.draws + [PortPool.Draw(id, p.cursor)]
            && p'.bound - PairSockets(p.cursor) == p.bound
  {
    hide Reachable;
    hide Capacity;
    hide NextPort;
    hide CursorAfter;
    s' := Draws(r, s, id);
    s' := PoolMove(r, s', PortPool.BindRtp(id));
    s' := PoolMove(r, s', PortPool.BindRtcp(id));
  }

  function WithCall(s: System, id: CallId, call: Calls.Call): System {
    s.(server := Calls.Update(s.server, id, call))
  }

  lemma Prepares(r: Range, s: System, id: CallId) returns (s': System)
    requires Reachable(r, s)
    requires id in s.server.calls && s.server.calls[id] == Calls.Call(Calls.Allocating, false, false, false, false)
    requires id in s.server.pool.calls && s.server.pool.calls[id].Owned?
    ensures Reachable(r, s') && s' == WithCall(s, id, Calls.Call(Calls.Ready, false, false, false, false))
  {
    hide Reachable;
    hide PortPool.Apply;
    s' := CallMove(r, s, Calls.Allocated(id));
    s' := CallMove(r, s', Calls.Connect(id, true));
    s' := CallMove(r, s', Calls.CreateCodec(id, true));
  }

  lemma Answers(r: Range, s: System, id: CallId, config: Media.Config, socket: seq<Media.Datagram>) returns (s': System)
    requires Reachable(r, s) && id !in s.media
    requires id in s.server.calls && s.server.calls[id] == Calls.Call(Calls.Ready, false, false, false, false)
    requires id in s.server.pool.calls && s.server.pool.calls[id].Owned?
    ensures Reachable(r, s') && s'.media == s.media[id := Opened(config, socket)]
    ensures s'.server.calls == s.server.calls[id := Calls.Call(Calls.Talking, false, false, true, true)]
    ensures s'.server.pool == PortPool.Apply(r, s.server.pool, PortPool.DropRtcp(id))
  {
    hide Reachable;
    hide PortPool.Apply;
    s' := CallMove(r, s, Calls.Accept(id, true));
    StepReachable(r, s', Start(id, config, socket));
    s' := Apply(r, s', Start(id, config, socket));
  }

  /** The server before its first call, with some ports in other hands. */
  function Idle(r: Range, bound: map<int, PortPool.Owner>): System {
    System(Calls.Server(PortPool.Pool(r.first, [], bound, map[]), map[], Calls.Metrics(0, 0, map[])), map[])
  }

  ghost predicate FirstPairFree(r: Range, bound: map<int, PortPool.Owner>) {
    && (forall port :: port in bound ==> bound[port] == PortPool.Outside)
    && 0 !in bound && r.first !in bound && r.first + 1 !in bound
  }

  /** On every range, whatever other ports are in use and whatever the media configuration, a first call
      can get as far as talking: on the first pair, with both media tasks at work and no token set. */
  lemma CanTalk(r: Range, bound: map<int, PortPool.Owner>, config: Media.Config, socket: seq<Media.Datagram>)
      returns (s: System)
    requires Usable(r) && FirstPairFree(r, bound)
    ensures Reachable(r, s) && s.media == map[0 := Opened(config, socket)]
    ensures s.server.calls == map[0 := Calls.Call(Calls.Talking, false, false, true, true)]
    ensures var p := s.server.pool;
            && p.calls == map[0 := PortPool.Streaming(r.first)] && p.draws == [PortPool.Draw(0, r.first)]
            && p.cursor == NextPort(r, r.first) && p.bound - SocketOn(r.first) == bound
  {
    hide Reachable;
    UsableCapacity(r);
    hide Capacity;
    hide NextPort;
    s := Idle(r, bound);
    InitialReachable(r, s);
    s := Begins(r, s, 0);
    s := AttemptSucceeds(r, s, 0);
    s := Prepares(r, s, 0);
    s := Answers(r, s, 0, config, socket);
  }

  // ----- The media timeout -----

  /** The documented purpose of the media timeout, to stop the call, is not met by the code. From every
      reachable state of a talking call with no token set and both media tasks waiting, it takes only
      the passing of time and the tasks' own reactions to it for the timeout to fire, both tasks to stop
      and the port to close; the call goes on, still counted as active, and cannot return. */
  lemma TimeoutAloneLeavesCallActive(r: Range, s: System, id: CallId) returns (s': System)
    requires Reachable(r, s) && Calls.InStage(s.server, id, Calls.Talking) && id in s.media
    requires !Calls.DialogCancelled(s.server, id)
    requires var m := s.media[id].current; !m.mediaCancelled && m.receiver.Selecting? && m.sender.Idle?
    ensures Reachable(r, s') && id in s'.media
    ensures s'.media[id].steps ==
            s.media[id].steps + [Media.Tick(s.media[id].current.expiry), Media.ReceiverPoll, Media.ReceiverPoll,
                                 Media.SenderCancelled]
    ensures s'.media[id].current.receiver.ReceiverStopped? && s'.media[id].current.sender.SenderStopped?
    ensures forall port :: !PortPool.Owns(s'.server.pool, port, id)
    ensures Calls.InStage(s'.server, id, Calls.Talking) && s'.server.metrics == s.server.metrics
    ensures !Enabled(r, s', CallStep(Calls.Return(id)))
  {
    hide Reachable;
    s' := MediaMove(r, s, id, Media.Tick(s.media[id].current.expiry));
    s' := MediaMove(r, s', id, Media.ReceiverPoll);
    s' := MediaMove(r, s', id, Media.ReceiverPoll);
    s' := MediaMove(r, s', id, Media.SenderCancelled);
    StoppedTasksHoldNothing(r, s', id);
    Calls.ReturnGuard(r, s'.server, id);
  }

  lemma StoppedTasksHoldNothing(r: Range, s: System, id: CallId)
    requires Reachable(r, s) && id in s.media
    requires s.media[id].current.receiver.ReceiverStopped? && s.media[id].current.sender.SenderStopped?
    ensures forall port :: !PortPool.Owns(s.server.pool, port, id)
  {
    var states: seq<System>, labels: seq<Label> :| Run(r, states, labels) && s == states[|labels|];
    hide Run;
    forall port
      ensures !PortPool.Owns(s.server.pool, port, id)
    {
      PortOpenExactlyWhileTasksRun(r, states, labels, |labels|, id, port);
    }
  }

  // ----- A pool that starts at port 0 -----

  /** Every pair but the first has its RTP port in other hands. */
  function Busy(r: Range): map<int, PortPool.Owner> {
    map q | 0 < q < Capacity(r) as int :: PairPort(r, q) := PortPool.Outside
  }

  /** Call 0 talks on port 0; call 1 is allocating and has failed `j` times. */
  ghost predicate Trying(r: Range, s: System, j: nat) {
    var p := s.server.pool;
    && Reachable(r, s) && p.bound == Busy(r)
    && 0 in s.server.calls && Calls.Live(s.server.calls[0]) && 0 in p.calls && p.calls[0] == PortPool.Streaming(0)
    && Calls.InStage(s.server, 1, Calls.Allocating) && 1 in p.calls && p.calls[1] == PortPool.Selecting(j)
    && |p.draws| == j + 1 && p.cursor == CursorAfter(r, j + 1)
  }

  lemma StartsTrying(r: Range, config: Media.Config) returns (s: System)
    requires Usable(r) && r.first == 0
    ensures Trying(r, s, 0)
  {
    hide Reachable;
    assert FirstPairFree(r, Busy(r));
    s := CanTalk(r, Busy(r), config, []);
    s := Begins(r, s, 1);
    assert CursorAfter(r, 1) == NextPort(r, CursorAfter(r, 0));
  }

  /** Until the cursor has come round it stands on busy pairs. */
  lemma BusyAhead(r: Range, j: nat)
    requires Usable(r) && r.first == 0 && j + 1 < Capacity(r)
    ensures CursorAfter(r, j + 1) == PairPort(r, j + 1) && PairPort(r, j + 1) != 0
    ensures PairPort(r, j + 1) in Busy(r)
  {
    UsableCapacity(r);
    ReachesLastPort(r, j + 1);
  }

  lemma TriesAgain(r: Range, s: System, j: nat) returns (s': System)
    requires Usable(r) && r.first == 0 && j + 1 < Capacity(r) && Trying(r, s, j)
    ensures Trying(r, s', j + 1)
  {
    hide Reachable;
    hide Capacity;
    hide NextPort;
    hide Busy;
    BusyAhead(r, j);
    s' := AttemptFails(r, s, 1);
    assert CursorAfter(r, j + 2) == NextPort(r, CursorAfter(r, j + 1));
  }

  /** Past the busy pairs the cursor comes round to port 0 again. */
  lemma {:induction false} KeepsTrying(r: Range, s: System, j: nat) returns (s': System)
    requires Usable(r) && r.first == 0 && j < Capacity(r) && Trying(r, s, j)
    ensures Trying(r, s', Capacity(r) - 1)
    decreases Capacity(r) - j
  {
    hide Trying;
    hide Usable;
    s' := s;
    if j + 1 < Capacity(r) {
      s' := TriesAgain(r, s, j);
      s' := KeepsTrying(r, s', j + 1);
    }
  }

  /** On a pool that starts at port 0 two live calls can both be given the pair (0, 1). */
  lemma PortZeroIsShared(r: Range, config: Media.Config) returns (s: System)
    requires Usable(r) && r.first == 0
    ensures Reachable(r, s)
    ensures 0 in s.server.calls && Calls.Live(s.server.calls[0]) && 1 in s.server.calls && Calls.Live(s.server.calls[1])
    ensures 0 in s.server.pool.calls && s.server.pool.calls[0] == PortPool.Streaming(0)
    ensures 1 in s.server.pool.calls && s.server.pool.calls[1] == PortPool.Owned(0)
  {
    hide Reachable;
    UsableCapacity(r);
    s := StartsTrying(r, config);
    s := KeepsTrying(r, s, 0);
    hide NextPort;
    CursorIsRoundRobin(r, Capacity(r));
    hide Capacity;
    assert Capacity(r) % Capacity(r) == 0;
    assert s.server.pool.cursor == 0;
    assert 1 !in s.server.pool.bound;
    s := AttemptSucceeds(r, s, 1);
    s := CallMove(r, s, Calls.Allocated(1));
  }

  /** No two live calls have a port in common. */
  ghost predicate NoSharedPorts(s: Calls.Server) {
    forall a, b :: a != b && a in s.calls && b in s.calls && Calls.Live(s.calls[a]) && Calls.Live(s.calls[b]) ==>
      && PortPool.HasSockets(s.pool, a) && PortPool.HasSockets(s.pool, b)
      && PairOf(s.pool.calls[a].port) !! PairOf(s.pool.calls[b].port)
  }

  /** Live calls never share a port, whatever happens, exactly on pools that do not start at port 0. */
  lemma NeverSharedExactlyWhen(r: Range)
    requires Usable(r)
    ensures (forall s :: Reachable(r, s) ==> NoSharedPorts(s.server)) <==> 0 < r.first
  {
    hide Reachable;
    if r.first == 0 {
      var config: Media.Config :| true;
      var s := PortZeroIsShared(r, config);
      assert !NoSharedPorts(s.server) by {
        assert 0 in PairOf(0);
      }
    } else {
      forall s | Reachable(r, s)
        ensures NoSharedPorts(s.server)
      {
        NoneShared(r, s);
      }
    }
  }

  lemma NoneShared(r: Range, s: System)
    requires Usable(r) && 0 < r.first && Reachable(r, s)
    ensures NoSharedPorts(s.server)
  {
    var states: seq<System>, labels: seq<Label> :| Run(r, states, labels) && s == states[|labels|];
    var servers, steps := RunProjects(r, states, labels);
    hide Run;
    hide Calls.Run;
    hide Calls.Live;
    hide Usable;
    hide Reachable;
    forall a, b | a != b && a in s.server.calls && b in s.server.calls
                  && Calls.Live(s.server.calls[a]) && Calls.Live(s.server.calls[b])
      ensures PortPool.HasSockets(s.server.pool, a) && PortPool.HasSockets(s.server.pool, b)
              && PairOf(s.server.pool.calls[a].port) !! PairOf(s.server.pool.calls[b].port)
    {
      Calls.LiveCallsNeverShare(r, servers, steps, |labels|, a, b);
    }
  }
}
