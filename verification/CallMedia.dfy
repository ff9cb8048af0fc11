/** Calls together with their media (src/call_handler.rs, src/media/session.rs): the server of
    `CallLifecycle` in which the media tasks of every call are a session of `MediaSession`.

    The dialog's token reaches the session when the call is cancelled. In return the session's steps
    are what the server sees of its media: a poll that finds the deadline passed is the media timeout,
    and a task that stops is the end of that task. */
module CallMedia {
  import opened PortRange
  import PortPool
  import Calls = CallLifecycle
  import Media = MediaSession
  import SendTask

  type CallId = Calls.CallId

  /** The media of one call: where its session stands and how it came there. */
  datatype Track = Track(config: Media.Config, past: seq<Media.Session>, current: Media.Session, steps: seq<Media.Label>)

  datatype System = System(server: Calls.Server, media: map<CallId, Track>)

  datatype Label =
    | CallStep(step: Calls.Label)
    | Start(id: CallId, config: Media.Config, socket: seq<Media.Datagram>)
    | MediaStep(id: CallId, move: Media.Label)

  function Opened(config: Media.Config, socket: seq<Media.Datagram>): Track {
    Track(config, [],
          Media.Session(config.start, false, false, socket, Media.Selecting, config.start + config.timeout,
                        [], Media.Listening, [], Media.Idle, config.stream, []),
          [])
  }

  function Extend(t: Track, l: Media.Label): Track
    requires Media.Enabled(t.config, t.current, l)
  {
    Track(t.config, t.past + [t.current], Media.Apply(t.config, t.current, l), t.steps + [l])
  }

  /** Steps of the server that only a session can cause. */
  predicate CausedByMedia(l: Calls.Label) {
    l.Start? || l.MediaTimeout? || l.ReceiveTaskEnds? || l.SendTaskEnds?
  }

  /** What the server sees of a session that goes from `before` to `after`. */
  function SeenByServer(id: CallId, before: Media.Session, after: Media.Session): Calls.Label {
    if !before.receiver.ReceiverStopped? && after.receiver.ReceiverStopped? then Calls.ReceiveTaskEnds(id)
    else if !before.sender.SenderStopped? && after.sender.SenderStopped? then Calls.SendTaskEnds(id)
    else if !before.mediaCancelled && after.mediaCancelled then Calls.MediaTimeout(id)
    else Calls.Pool(PortPool.Stutter)
  }

  predicate MediaEnabled(s: System, l: Label) {
    match l
    case CallStep(step) => !CausedByMedia(step)
    case Start(id, _, _) => id !in s.media
    case MediaStep(id, move) =>
      id in s.media && move != Media.CancelDialog && Media.Enabled(s.media[id].config, s.media[id].current, move)
  }

  function ServerStep(s: System, l: Label): Calls.Label
    requires MediaEnabled(s, l)
  {
    match l
    case CallStep(step) => step
    case Start(id, _, _) => Calls.Start(id)
    case MediaStep(id, move) => SeenByServer(id, s.media[id].current, Extend(s.media[id], move).current)
  }

  predicate Enabled(r: Range, s: System, l: Label) {
    MediaEnabled(s, l) && Calls.Enabled(r, s.server, ServerStep(s, l))
  }

  function MediaAfter(s: System, l: Label): map<CallId, Track>
    requires MediaEnabled(s, l)
  {
    match l
    case CallStep(CancelDialog(id)) =>
      if id in s.media then s.media[id := Extend(s.media[id], Media.CancelDialog)] else s.media
    case CallStep(_) => s.media
    case Start(id, config, socket) =>
      var t := Opened(config, socket);
      s.media[id := if Calls.DialogCancelled(s.server, id) then Extend(t, Media.CancelDialog) else t]
    case MediaStep(id, move) => s.media[id := Extend(s.media[id], move)]
  }

  function Apply(r: Range, s: System, l: Label): System
    requires Enabled(r, s, l)
  {
    System(Calls.Apply(r, s.server, ServerStep(s, l)), MediaAfter(s, l))
  }

  ghost predicate Initial(r: Range, s: System) {
    Calls.Initial(r, s.server) && s.media == map[]
  }

  ghost predicate Run(r: Range, states: seq<System>, labels: seq<Label>) {
    && |states| == |labels| + 1
    && Initial(r, states[0])
    && forall i :: 0 <= i < |labels| ==>
         Enabled(r, states[i], labels[i]) && states[i + 1] == Apply(r, states[i], labels[i])
  }

  // ----- The parts of a run -----

  /** Every run, seen from its calls, is a run of the server. */
  lemma RunProjects(r: Range, states: seq<System>, labels: seq<Label>)
      returns (servers: seq<Calls.Server>, steps: seq<Calls.Label>)
    requires Run(r, states, labels)
    ensures Calls.Run(r, servers, steps)
    ensures |servers| == |states| && forall i :: 0 <= i < |states| ==> servers[i] == states[i].server
    ensures forall i :: 0 <= i < |labels| ==> MediaEnabled(states[i], labels[i]) && steps[i] == ServerStep(states[i], labels[i])
  {
    hide Calls.Apply;
    hide Calls.Enabled;
    hide ServerStep;
    hide MediaEnabled;
    servers := seq(|states|, i requires 0 <= i < |states| => states[i].server);
    steps := seq(|labels|, i requires 0 <= i < |labels| && i < |states| && MediaEnabled(states[i], labels[i]) =>
      ServerStep(states[i], labels[i]));
  }

  /** The steps of a call's media so far are a run of `MediaSession`. */
  ghost predicate IsSession(t: Track) {
    Media.Run(t.config, t.past + [t.current], t.steps)
  }

  /** The server's record of the call's media is right. */
  predicate Mirrors(call: Calls.Call, m: Media.Session) {
    && call.cancelled == m.dialogCancelled
    && call.mediaCancelled == m.mediaCancelled
    && call.receiving == !m.receiver.ReceiverStopped?
    && call.sending == !m.sender.SenderStopped?
  }

  predicate HasMedia(call: Calls.Call) {
    call.stage.Talking? || call.stage.Returned?
  }

  /** A call has a session exactly once it talks; from then on the server and the session agree. */
  ghost predicate LinkedAt(s: System, id: CallId) {
    if id in s.media then
      && id in s.server.calls && HasMedia(s.server.calls[id])
      && Mirrors(s.server.calls[id], s.media[id].current) && IsSession(s.media[id])
    else
      id in s.server.calls ==>
        && !HasMedia(s.server.calls[id])
        && s.server.calls[id].mediaCancelled == s.server.calls[id].cancelled
  }

  ghost predicate Linked(s: System) {
    forall id: CallId :: LinkedAt(s, id)
  }

  lemma OpenedIsSession(config: Media.Config, socket: seq<Media.Datagram>)
    ensures IsSession(Opened(config, socket))
  {
  }

  lemma ExtendIsSession(t: Track, l: Media.Label)
    requires IsSession(t) && Media.Enabled(t.config, t.current, l)
    ensures IsSession(Extend(t, l))
  {
    hide Media.Apply;
    hide Media.Enabled;
    var states, states' := t.past + [t.current], t.past + [t.current] + [Extend(t, l).current];
    forall i | 0 <= i < |t.steps| + 1
      ensures Media.Enabled(t.config, states'[i], (t.steps + [l])[i])
              && states'[i + 1] == Media.Apply(t.config, states'[i], (t.steps + [l])[i])
    {
      if i < |t.steps| {
        assert Media.Enabled(t.config, states[i], t.steps[i]);
      }
    }
  }

  /** Steps that leave the media of call `id` alone leave the server's record of it alone. */
  predicate Unrelated(l: Calls.Label, id: CallId) {
    !(CausedByMedia(l) && l.id == id) && l != Calls.CancelDialog(id)
  }

  lemma UnrelatedStep(r: Range, s: Calls.Server, l: Calls.Label, id: CallId)
    requires Calls.Enabled(r, s, l) && Unrelated(l, id)
    ensures id in s.calls ==>
              id in Calls.Apply(r, s, l).calls && SameMedia(s.calls[id], Calls.Apply(r, s, l).calls[id])
    ensures id !in s.calls && id in Calls.Apply(r, s, l).calls ==>
              Calls.Apply(r, s, l).calls[id] == Calls.Call(Calls.Invited, false, false, false, false)
  {
    hide PortPool.Apply;
    hide PortPool.Enabled;
  }

  predicate SameMedia(a: Calls.Call, b: Calls.Call) {
    HasMedia(a) == HasMedia(b) && a.cancelled == b.cancelled && a.mediaCancelled == b.mediaCancelled
    && a.receiving == b.receiving && a.sending == b.sending
  }

  /** What the steps that concern the media do to the server's record. */
  lemma RelatedStep(r: Range, s: Calls.Server, l: Calls.Label)
    requires Calls.Enabled(r, s, l) && (CausedByMedia(l) || l.CancelDialog?)
    ensures l.id in s.calls && l.id in Calls.Apply(r, s, l).calls
    ensures var call, call' := s.calls[l.id], Calls.Apply(r, s, l).calls[l.id];
            match l
            case Start(_) => call' == call.(stage := Calls.Talking, receiving := true, sending := true)
            case MediaTimeout(_) => call' == call.(mediaCancelled := true)
            case ReceiveTaskEnds(_) => call' == call.(receiving := false)
            case SendTaskEnds(_) => call' == call.(sending := false)
            case _ => call' == call.(cancelled := true, mediaCancelled := true)
  {
    hide PortPool.Apply;
    hide PortPool.Enabled;
  }

  /** A session step other than the dialog's changes at most one thing the server sees of it. */
  lemma SessionStep(c: Media.Config, s: Media.Session, l: Media.Label, id: CallId)
    requires Media.Enabled(c, s, l)
    ensures l != Media.CancelDialog ==>
              var s', seen := Media.Apply(c, s, l), SeenByServer(id, s, Media.Apply(c, s, l));
              && s'.dialogCancelled == s.dialogCancelled
              && s'.mediaCancelled == (s.mediaCancelled || seen.MediaTimeout?)
              && s'.receiver.ReceiverStopped? == (s.receiver.ReceiverStopped? || seen.ReceiveTaskEnds?)
              && s'.sender.SenderStopped? == (s.sender.SenderStopped? || seen.SendTaskEnds?)
              && (seen.MediaTimeout? ==> !s.receiver.ReceiverStopped? && !s.mediaCancelled)
              && (seen.ReceiveTaskEnds? ==> !s.receiver.ReceiverStopped?)
              && (seen.SendTaskEnds? ==> !s.sender.SenderStopped?)
    ensures l == Media.CancelDialog ==>
              Media.Apply(c, s, l) == s.(dialogCancelled := true, mediaCancelled := true)
  {
    hide Media.Wire.Encode;
    hide Media.Wire.Decode;
    hide Media.SendTask.Advance;
  }

  lemma LinkedStep(r: Range, s: System, l: Label, id: CallId)
    requires Enabled(r, s, l) && LinkedAt(s, id)
    ensures LinkedAt(Apply(r, s, l), id)
  {
    hide Calls.Enabled;
    hide Calls.Apply;
    hide Media.Enabled;
    hide Media.Apply;
    hide IsSession;
    var step := ServerStep(s, l);
    if l.MediaStep? && l.id == id {
      LinkedMediaStep(r, s, id, l.move);
    } else if l.Start? && l.id == id {
      LinkedStart(r, s, l);
    } else if l == CallStep(Calls.CancelDialog(id)) {
      LinkedCancel(r, s, id);
    } else {
      UnrelatedStep(r, s.server, step, id);
    }
  }

  lemma LinkedMediaStep(r: Range, s: System, id: CallId, move: Media.Label)
    requires Enabled(r, s, MediaStep(id, move)) && LinkedAt(s, id)
    ensures LinkedAt(Apply(r, s, MediaStep(id, move)), id)
  {
    hide Calls.Enabled;
    hide Calls.Apply;
    hide Media.Enabled;
    hide Media.Apply;
    hide IsSession;
    var t, step := s.media[id], ServerStep(s, MediaStep(id, move));
    ExtendIsSession(t, move);
    SessionStep(t.config, t.current, move, id);
    if CausedByMedia(step) {
      RelatedStep(r, s.server, step);
    } else {
      UnrelatedStep(r, s.server, step, id);
    }
  }

  lemma LinkedStart(r: Range, s: System, l: Label)
    requires l.Start? && Enabled(r, s, l) && LinkedAt(s, l.id)
    ensures LinkedAt(Apply(r, s, l), l.id)
  {
    hide Calls.Enabled;
    hide Calls.Apply;
    hide IsSession;
    var t := Opened(l.config, l.socket);
    OpenedIsSession(l.config, l.socket);
    ExtendIsSession(t, Media.CancelDialog);
    RelatedStep(r, s.server, Calls.Start(l.id));
  }

  lemma LinkedCancel(r: Range, s: System, id: CallId)
    requires Enabled(r, s, CallStep(Calls.CancelDialog(id))) && LinkedAt(s, id)
    ensures LinkedAt(Apply(r, s, CallStep(Calls.CancelDialog(id))), id)
  {
    hide Calls.Enabled;
    hide Calls.Apply;
    hide IsSession;
    RelatedStep(r, s.server, Calls.CancelDialog(id));
    if id in s.media {
      ExtendIsSession(s.media[id], Media.CancelDialog);
    }
  }

  /** In every run, the server's record of each call's media and the call's session agree, and the
      session is a run of its own: all that holds of sessions holds of every call. */
  lemma {:induction false} RunLinked(r: Range, states: seq<System>, labels: seq<Label>, i: nat)
    requires Run(r, states, labels) && i < |states|
    ensures Linked(states[i])
  {
    hide Apply;
    hide Enabled;
    hide LinkedAt;
    if i == 0 {
      forall id: CallId
        ensures LinkedAt(states[0], id)
      {
        NoCallLinked(states[0], id);
      }
    } else {
      RunLinked(r, states, labels, i - 1);
      assert Enabled(r, states[i - 1], labels[i - 1]);
      forall id: CallId
        ensures LinkedAt(states[i], id)
      {
        LinkedStep(r, states[i - 1], labels[i - 1], id);
      }
    }
  }

  lemma NoCallLinked(s: System, id: CallId)
    requires s.server.calls == map[] && s.media == map[]
    ensures LinkedAt(s, id)
  {
  }

  lemma RunSockets(r: Range, states: seq<System>, labels: seq<Label>, i: nat)
    requires Run(r, states, labels) && i < |states|
    ensures Calls.SocketInv(r, states[i].server)
  {
    hide Run;
    hide Calls.Run;
    hide Calls.SocketInv;
    var servers, steps := RunProjects(r, states, labels);
    Calls.RunSockets(r, servers, steps, i);
  }

  /** The server never stands in the way of a session: whatever step a session can take, it can take
      in the server. */
  lemma SessionsNeverBlocked(r: Range, states: seq<System>, labels: seq<Label>, i: nat, id: CallId, move: Media.Label)
    requires Run(r, states, labels) && i < |states| && id in states[i].media && move != Media.CancelDialog
    ensures Enabled(r, states[i], MediaStep(id, move))
            <==> Media.Enabled(states[i].media[id].config, states[i].media[id].current, move)
  {
    RunLinked(r, states, labels, i);
    RunSockets(r, states, labels, i);
    hide Run;
    LinkedNeverBlocks(r, states[i], id, move);
  }

  lemma LinkedNeverBlocks(r: Range, s: System, id: CallId, move: Media.Label)
    requires Linked(s) && Calls.SocketInv(r, s.server) && id in s.media && move != Media.CancelDialog
    ensures Enabled(r, s, MediaStep(id, move)) <==> Media.Enabled(s.media[id].config, s.media[id].current, move)
  {
    hide Calls.SocketInv;
    hide Media.Enabled;
    hide Media.Apply;
    hide IsSession;
    assert LinkedAt(s, id);
    if Media.Enabled(s.media[id].config, s.media[id].current, move) {
      SessionStep(s.media[id].config, s.media[id].current, move, id);
      Calls.SocketsAreThere(r, s.server, id);
    }
  }

  /** The RTP port of a call is bound exactly until both its media tasks have stopped. */
  lemma PortOpenExactlyWhileTasksRun(r: Range, states: seq<System>, labels: seq<Label>, i: nat, id: CallId, port: int)
    requires Run(r, states, labels) && i < |states| && id in states[i].media
    ensures id in states[i].server.calls
    ensures Calls.PhaseFits(states[i].server.pool, id, states[i].server.calls[id])
    ensures var p, m := states[i].server.pool, states[i].media[id].current;
            if m.receiver.ReceiverStopped? && m.sender.SenderStopped? then !PortPool.Owns(p, port, id)
            else PortPool.HasSockets(p, id) && (PortPool.Owns(p, port, id) <==> port in SocketOn(p.calls[id].port))
  {
    RunLinked(r, states, labels, i);
    assert LinkedAt(states[i], id);
    var servers, steps := RunProjects(r, states, labels);
    hide Run;
    hide Calls.Run;
    hide IsSession;
    Calls.PortsBoundExactlyWhileHeld(r, servers, steps, i, id, port);
  }

  /** The media timeout as it works in the whole server, in every run. A call that is talking has its
      media cancelled without its dialog exactly because its receive task polled a full timeout after
      the last packet that parsed. Whether it did or not, the call can return exactly if its dialog
      was cancelled. */
  lemma TimeoutNeverEndsCall(r: Range, states: seq<System>, labels: seq<Label>, i: nat, id: CallId)
    requires Run(r, states, labels) && i < |states| && Calls.InStage(states[i].server, id, Calls.Talking)
    ensures id in states[i].media && IsSession(states[i].media[id])
    ensures !Calls.DialogCancelled(states[i].server, id) ==>
              var t := states[i].media[id];
              t.current.mediaCancelled <==>
              exists k: nat :: k < |t.steps| && Media.TimedOutAt(t.config, t.past + [t.current], t.steps, k)
    ensures Enabled(r, states[i], CallStep(Calls.Return(id)))
            <==> exists m :: 0 <= m < i && labels[m] == CallStep(Calls.CancelDialog(id))
  {
    RunLinked(r, states, labels, i);
    assert LinkedAt(states[i], id);
    var servers, steps := RunProjects(r, states, labels);
    hide Run;
    hide Calls.Run;
    var t := states[i].media[id];
    Media.CancellationHasCause(t.config, t.past + [t.current], t.steps, |t.steps|);
    Calls.ReturnNeedsDialog(r, servers, steps, i, id);
    forall m | 0 <= m < i
      ensures steps[m] == Calls.CancelDialog(id) <==> labels[m] == CallStep(Calls.CancelDialog(id))
    {
    }
  }

  /** In every run, what each call has sent is the audio that arrived for it, as far as it has been
      handled, echoed in order and numbered consecutively, however many calls share the server. */
  lemma EveryCallEchoes(r: Range, states: seq<System>, labels: seq<Label>, i: nat, id: CallId)
    requires Run(r, states, labels) && i < |states| && id in states[i].media
    ensures IsSession(states[i].media[id])
    ensures var t := states[i].media[id];
            |Media.Waiting(t.current)| <= |Media.Arrived(t.past + [t.current], t.steps, |t.steps|)|
    ensures var t := states[i].media[id];
            var expected :=
              Media.Echoed(t.config.codec, Media.Parsable(Media.Handled(t.past + [t.current], t.steps, |t.steps|)));
            && |t.current.sent| <= |expected|
            && t.current.sent == SendTask.Numbered(t.config.stream, expected[..|t.current.sent|])
  {
    RunLinked(r, states, labels, i);
    assert LinkedAt(states[i], id);
    hide Run;
    var t := states[i].media[id];
    Media.EchoStream(t.config, t.past + [t.current], t.steps, |t.steps|);
  }

  // ----- Reachable states -----

  ghost predicate Reachable(r: Range, s: System) {
    exists states: seq<System>, labels: seq<Label> :: Run(r, states, labels) && s == states[|labels|]
  }

  lemma InitialReachable(r: Range, s: System)
    requires Initial(r, s)
    ensures Reachable(r, s)
  {
    assert Run(r, [s], []);
  }

  lemma StepReachable(r: Range, s: System, l: Label)
    requires Reachable(r, s) && Enabled(r, s, l)
    ensures Reachable(r, Apply(r, s, l))
  {
    hide Enabled;
    hide Apply;
    var states: seq<System>, labels: seq<Label> :| Run(r, states, labels) && s == states[|labels|];
    var states', labels' := states + [Apply(r, s, l)], labels + [l];
    forall i | 0 <= i < |labels'|
      ensures Enabled(r, states'[i], labels'[i]) && states'[i + 1] == Apply(r, states'[i], labels'[i])
    {
      if i < |labels| {
        assert Enabled(r, states[i], labels[i]);
      }
    }
    assert Run(r, states', labels') && Apply(r, s, l) == states'[|labels'|];
  }
}
