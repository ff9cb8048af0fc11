/** The two media loops as written against the session they are part of: in every run of
    `MediaSession`, the receive task and the send task do what `ReceiveLoop` and `SendLoop` do on the
    turns the run gave them. */
module TaskLoops {
  import opened MediaSession
  import SendTask
  import ReceiveTask
  import Wire

  // ----- The send task -----

  /** The turn of the send loop that a step completes, if any. */
  function SenderTurn(c: Config, s: Session, l: Label): seq<SendTask.Turn>
    requires Enabled(c, s, l)
  {
    match l
    case SenderTake => if Wire.Encode(c.codec, s.audioOut[0]) == [] then [SendTask.Frame([], true)] else []
    case SenderDone(ok) => [SendTask.Frame(s.sender.packet.payload, ok)]
    case SenderCancelled => [SendTask.Cancelled]
    case SenderClosed => [SendTask.Closed]
    case _ => []
  }

  /** The turns of the send loop in the first `n` steps of a run. */
  function SenderTurns(c: Config, states: seq<Session>, labels: seq<Label>, n: nat): seq<SendTask.Turn>
    requires |states| == |labels| + 1 && n <= |labels|
    requires forall i :: 0 <= i < |labels| ==> Enabled(c, states[i], labels[i])
  {
    if n == 0 then []
    else SenderTurns(c, states, labels, n - 1) + SenderTurn(c, states[n - 1], labels[n - 1])
  }

  /** The loop goes on after these turns. */
  predicate GoesOn(turns: seq<SendTask.Turn>) {
    forall i :: 0 <= i < |turns| ==> turns[i].Frame? && (turns[i].payload == [] || turns[i].sent)
  }

  lemma {:induction false} TurnsAppend(turns: seq<SendTask.Turn>, turn: SendTask.Turn)
    requires GoesOn(turns)
    ensures SendTask.Payloads(turns + [turn]) == SendTask.Payloads(turns) + SendTask.Payloads([turn])
    ensures SendTask.EndsInFailure(turns + [turn]) == SendTask.EndsInFailure([turn])
    ensures !SendTask.EndsInFailure(turns)
  {
    if turns == [] {
      assert turns + [turn] == [turn];
    } else {
      assert (turns + [turn])[1..] == turns[1..] + [turn];
      TurnsAppend(turns[1..], turn);
    }
  }

  lemma OneTurn(turn: SendTask.Turn)
    ensures SendTask.Payloads([turn]) ==
            if turn.Frame? && turn.payload != [] && turn.sent then [turn.payload] else []
    ensures SendTask.EndsInFailure([turn]) <==> turn.Frame? && turn.payload != [] && !turn.sent
  {
    assert [turn][1..] == [];
  }

  /** The send task stands where `SendLoop` stands after these turns. */
  ghost predicate SenderFollows(c: Config, s: Session, turns: seq<SendTask.Turn>) {
    && PayloadsOf(s.sent) == SendTask.Payloads(turns)
    && (!s.sender.SenderStopped? ==> GoesOn(turns))
    && (s.sender.Sending? ==> s.sender.packet.payload != [])
    && s.stream == SendTask.After(c.stream, |s.sent|
         + (if s.sender.Sending? || (s.sender.SenderStopped? && SendTask.EndsInFailure(turns)) then 1 else 0))
  }

  lemma SenderFollowsStep(c: Config, s: Session, l: Label, turns: seq<SendTask.Turn>)
    requires Enabled(c, s, l) && SenderFollows(c, s, turns)
    ensures SenderFollows(c, Apply(c, s, l), turns + SenderTurn(c, s, l))
  {
    hide SendTask.After;
    hide SendTask.Advance;
    hide SendTask.Payloads;
    hide SendTask.EndsInFailure;
    hide Wire.Encode;
    hide Wire.Decode;
    SendTask.AdvanceAfter(c.stream, |s.sent|);
    var step := SenderTurn(c, s, l);
    if step == [] {
      assert turns + step == turns;
    } else {
      TurnsAppend(turns, step[0]);
      OneTurn(step[0]);
      if l.SenderDone? && l.ok {
        PayloadsAppend(s.sent, s.sender.packet);
      }
    }
  }

  lemma {:induction false} SenderFollowsRun(c: Config, states: seq<Session>, labels: seq<Label>, n: nat)
    requires Run(c, states, labels) && n < |states|
    ensures SenderFollows(c, states[n], SenderTurns(c, states, labels, n))
  {
    hide Apply;
    hide Enabled;
    hide SenderFollows;
    if n == 0 {
      NothingSent(c, states[0]);
    } else {
      SenderFollowsRun(c, states, labels, n - 1);
      assert Enabled(c, states[n - 1], labels[n - 1]);
      SenderFollowsStep(c, states[n - 1], labels[n - 1], SenderTurns(c, states, labels, n - 1));
    }
  }

  lemma NothingSent(c: Config, s: Session)
    requires Initial(c, s)
    ensures SenderFollows(c, s, [])
  {
    SendTask.AfterNone(c.stream);
  }

  /** In every run the send task has sent exactly the packets `SendLoop` sends on the turns the run gave
      it, and used up as many numbers once it has stopped. */
  lemma SenderRunsLoop(c: Config, states: seq<Session>, labels: seq<Label>, n: nat)
    requires Run(c, states, labels) && n < |states|
    ensures var turns := SenderTurns(c, states, labels, n);
            && states[n].sent == SendTask.Numbered(c.stream, SendTask.Payloads(turns))
            && (!states[n].sender.Sending? ==>
                  states[n].stream
                  == SendTask.After(c.stream, |states[n].sent| + if SendTask.EndsInFailure(turns) then 1 else 0))
  {
    hide SendTask.After;
    hide SendTask.Payloads;
    SenderFollowsRun(c, states, labels, n);
    RunEcho(c, states, labels, n);
    var s, turns := states[n], SenderTurns(c, states, labels, n);
    forall k | 0 <= k < |s.sent|
      ensures s.sent[k] == SendTask.Packet(SendTask.After(c.stream, k), SendTask.Payloads(turns)[k])
    {
      assert s.sent[k].payload == PayloadsOf(s.sent)[k];
    }
    if s.sender.Idle? {
      TurnsAppend(turns, SendTask.Closed);
    }
  }

  // ----- The receive task -----

  /** When the receive task last looked at its token, its deadline and its socket. */
  function PolledAt(states: seq<Session>, labels: seq<Label>, n: nat): nat
    requires n <= |labels| && n <= |states|
  {
    if n == 0 then 0
    else Polled(states[n - 1], labels[n - 1], PolledAt(states, labels, n - 1))
  }

  function Polled(s: Session, l: Label, before: nat): nat {
    if l == ReceiverPoll then s.now else before
  }

  predicate TakesDatagram(s: Session) {
    !s.mediaCancelled && s.now < s.expiry && s.socket != []
  }

  function ArrivalOf(d: Datagram): ReceiveTask.Arrival {
    match d
    case Rtp(payload) => ReceiveTask.Rtp(payload)
    case Unparsable => ReceiveTask.Unparsable
  }

  /** The turn of the receive loop that a step completes, if any: a poll that takes a datagram completes
      its turn only when the datagram has been handled. */
  function ReceiverTurn(c: Config, s: Session, l: Label, polled: nat): seq<ReceiveTask.Turn>
    requires Enabled(c, s, l)
  {
    match l
    case ReceiverPoll =>
      if TakesDatagram(s) then []
      else [ReceiveTask.Turn(s.now, s.mediaCancelled, ReceiveTask.Nothing, s.now, true)]
    case ReceiverError => [ReceiveTask.Turn(s.now, false, ReceiveTask.Error, s.now, true)]
    case ReceiverHandle =>
      [ReceiveTask.Turn(polled, false, ArrivalOf(s.receiver.datagram), s.now, !s.echo.EchoStopped?)]
    case _ => []
  }

  function ReceiverTurns(c: Config, states: seq<Session>, labels: seq<Label>, n: nat): seq<ReceiveTask.Turn>
    requires |states| == |labels| + 1 && n <= |labels|
    requires forall i :: 0 <= i < |labels| ==> Enabled(c, states[i], labels[i])
  {
    if n == 0 then []
    else ReceiverTurns(c, states, labels, n - 1)
         + ReceiverTurn(c, states[n - 1], labels[n - 1], PolledAt(states, labels, n - 1))
  }

  /** The payload a step forwards to the audio channel. */
  function Forward(s: Session, l: Label): seq<Wire.Payload> {
    if s.echo.EchoStopped? then [] else Intake(s, l)
  }

  function Forwarded(states: seq<Session>, labels: seq<Label>, n: nat): seq<Wire.Payload>
    requires n <= |labels| && n <= |states|
  {
    if n == 0 then [] else Forwarded(states, labels, n - 1) + Forward(states[n - 1], labels[n - 1])
  }

  /** The step is the poll that finds the deadline passed. */
  predicate TimesOutNow(s: Session, l: Label) {
    l == ReceiverPoll && !s.mediaCancelled && s.now >= s.expiry
  }

  ghost predicate HasTimedOut(states: seq<Session>, labels: seq<Label>, n: nat)
    requires n <= |labels| && n <= |states|
  {
    exists k :: 0 <= k < n && TimesOutNow(states[k], labels[k])
  }

  /** Facts about earlier turns do not change when another is added. */
  lemma {:induction false} EarlierTurns(start: nat, turns: seq<ReceiveTask.Turn>, turn: ReceiveTask.Turn, n: nat)
    requires n <= |turns|
    ensures ReceiveTask.LastParsed(start, turns + [turn], n) == ReceiveTask.LastParsed(start, turns, n)
    ensures ReceiveTask.Parsed(turns + [turn], n) == ReceiveTask.Parsed(turns, n)
  {
    if n > 0 {
      EarlierTurns(start, turns, turn, n - 1);
    }
  }

  ghost predicate TurnsOver(turns: seq<ReceiveTask.Turn>, time: nat) {
    forall k :: 0 <= k < |turns| ==> turns[k].handled <= time
  }

  /** Time and deadline as the loop has them after these turns. */
  ghost predicate ReceiverTimes(c: Config, s: Session, turns: seq<ReceiveTask.Turn>, polled: nat) {
    && c.start <= s.now && ReceiveTask.Chronological(c.start, turns) && TurnsOver(turns, s.now)
    && s.expiry == ReceiveTask.LastParsed(c.start, turns, |turns|) + c.timeout
    && (s.receiver.Handling? ==> c.start <= polled <= s.now && polled < s.expiry && TurnsOver(turns, polled))
  }

  /** What a step does to the receive task and its clock. */
  lemma ReceiverEffect(c: Config, s: Session, l: Label)
    requires Enabled(c, s, l)
    ensures var s' := Apply(c, s, l);
            && s.now <= s'.now && (s.mediaCancelled ==> s'.mediaCancelled)
            && match l
               case ReceiverPoll =>
                 && s.receiver.Selecting? && s'.expiry == s.expiry && s'.now == s.now
                 && (if TakesDatagram(s) then s'.receiver.Handling?
                     else if s.mediaCancelled then s'.receiver.ReceiverStopped?
                     else s'.receiver.Selecting? && (s.now >= s.expiry ==> s'.mediaCancelled))
               case ReceiverError =>
                 && s.receiver.Selecting? && !s.mediaCancelled && s.now < s.expiry
                 && s'.receiver.ReceiverStopped? && s'.expiry == s.expiry && s'.now == s.now
               case ReceiverHandle =>
                 && s.receiver.Handling? && s'.now == s.now
                 && s'.expiry == (if s.receiver.datagram.Rtp? then s.now + c.timeout else s.expiry)
                 && (if s.receiver.datagram.Rtp? && s.echo.EchoStopped? then s'.receiver.ReceiverStopped?
                     else s'.receiver.Selecting?)
               case _ => s'.receiver == s.receiver && s'.expiry == s.expiry
  {
    hide Wire.Encode;
    hide Wire.Decode;
    hide SendTask.Advance;
  }

  lemma TurnAdded(start: nat, turns: seq<ReceiveTask.Turn>, turn: ReceiveTask.Turn)
    requires ReceiveTask.Chronological(start, turns) && TurnsOver(turns, turn.now) && start <= turn.now <= turn.handled
    ensures ReceiveTask.Chronological(start, turns + [turn]) && TurnsOver(turns + [turn], turn.handled)
    ensures ReceiveTask.LastParsed(start, turns + [turn], |turns| + 1)
            == if turn.arrival.Rtp? then turn.handled else ReceiveTask.LastParsed(start, turns, |turns|)
  {
    EarlierTurns(start, turns, turn, |turns|);
  }

  lemma StillOver(turns: seq<ReceiveTask.Turn>, time: nat, later: nat)
    requires TurnsOver(turns, time) && time <= later
    ensures TurnsOver(turns, later)
  {
  }

  lemma ReceiverTimesStep(c: Config, s: Session, l: Label, turns: seq<ReceiveTask.Turn>, polled: nat)
    requires Enabled(c, s, l) && ReceiverTimes(c, s, turns, polled)
    ensures ReceiverTimes(c, Apply(c, s, l), turns + ReceiverTurn(c, s, l, polled), Polled(s, l, polled))
  {
    hide Apply;
    hide Enabled;
    hide ReceiverTimes;
    var step := ReceiverTurn(c, s, l, polled);
    if step == [] {
      assert turns + step == turns;
      TimesWithoutTurn(c, s, l, turns, polled);
    } else {
      assert turns + step == turns + [step[0]];
      TimesWithTurn(c, s, l, turns, polled, step[0]);
    }
  }

  lemma TimesWithoutTurn(c: Config, s: Session, l: Label, turns: seq<ReceiveTask.Turn>, polled: nat)
    requires Enabled(c, s, l) && ReceiverTimes(c, s, turns, polled) && ReceiverTurn(c, s, l, polled) == []
    ensures ReceiverTimes(c, Apply(c, s, l), turns, Polled(s, l, polled))
  {
    ReceiverEffect(c, s, l);
    StillOver(turns, s.now, Apply(c, s, l).now);
    hide Apply;
    hide Enabled;
    hide TurnsOver;
    hide ReceiveTask.Chronological;
    hide ReceiveTask.LastParsed;
  }

  lemma TimesWithTurn(c: Config, s: Session, l: Label, turns: seq<ReceiveTask.Turn>, polled: nat, turn: ReceiveTask.Turn)
    requires Enabled(c, s, l) && ReceiverTimes(c, s, turns, polled) && ReceiverTurn(c, s, l, polled) == [turn]
    ensures ReceiverTimes(c, Apply(c, s, l), turns + [turn], Polled(s, l, polled))
  {
    ReceiverEffect(c, s, l);
    hide Apply;
    hide Enabled;
    hide TurnsOver;
    hide ReceiveTask.Chronological;
    hide ReceiveTask.LastParsed;
    TurnAdded(c.start, turns, turn);
  }

  /** The receive task stands where `ReceiveLoop` stands after these turns. */
  ghost predicate ReceiverFollows(c: Config, s: Session, turns: seq<ReceiveTask.Turn>,
                                  forwarded: seq<Wire.Payload>, timedOut: bool, stop: nat) {
    && ReceiveTask.StopsAt(c.start, c.timeout, turns, stop)
    && forwarded == ReceiveTask.Parsed(turns, stop)
    && (timedOut <==> ReceiveTask.TimesOut(c.start, c.timeout, turns, stop))
    && (s.receiver.ReceiverStopped? ==> stop < |turns|)
    && (stop < |turns| ==> s.receiver.ReceiverStopped? || (s.receiver.Selecting? && s.mediaCancelled))
  }

  function NextStop(c: Config, turns: seq<ReceiveTask.Turn>, stop: nat): nat {
    if stop < |turns| && !ReceiveTask.EndsAt(c.start, c.timeout, turns, stop) then stop + 1 else stop
  }

  /** Another turn does not change where the loop has ended; if it has not, that turn decides. */
  lemma StopAfterTurn(c: Config, turns: seq<ReceiveTask.Turn>, turn: ReceiveTask.Turn, stop: nat)
    requires ReceiveTask.StopsAt(c.start, c.timeout, turns, stop)
    ensures var turns', stop' := turns + [turn], NextStop(c, turns + [turn], stop);
            var overdue := turn.cancelled || turn.now >= ReceiveTask.LastParsed(c.start, turns, |turns|) + c.timeout;
            var ends := overdue || turn.arrival.Error? || (turn.arrival.Rtp? && !turn.open);
            && ReceiveTask.StopsAt(c.start, c.timeout, turns', stop')
            && stop' == (if stop < |turns| || ends then stop else stop + 1)
            && (stop < |turns| ==>
                  (ReceiveTask.TimesOut(c.start, c.timeout, turns', stop')
                   <==> ReceiveTask.TimesOut(c.start, c.timeout, turns, stop)))
            && (stop == |turns| ==>
                  (ReceiveTask.TimesOut(c.start, c.timeout, turns', stop') <==> !turn.cancelled && overdue))
            && ReceiveTask.Parsed(turns', stop') == ReceiveTask.Parsed(turns, stop)
               + (if stop == |turns| && !ends && turn.arrival.Rtp? then [turn.arrival.payload] else [])
  {
    forall n: nat | n <= |turns|
      ensures ReceiveTask.LastParsed(c.start, turns + [turn], n) == ReceiveTask.LastParsed(c.start, turns, n)
      ensures ReceiveTask.Parsed(turns + [turn], n) == ReceiveTask.Parsed(turns, n)
    {
      EarlierTurns(c.start, turns, turn, n);
    }
    hide ReceiveTask.LastParsed;
    var turns' := turns + [turn];
    assert forall i :: 0 <= i < |turns| ==> turns'[i] == turns[i];
    assert forall i: nat :: i < |turns| ==>
        (ReceiveTask.EndsAt(c.start, c.timeout, turns', i) <==> ReceiveTask.EndsAt(c.start, c.timeout, turns, i));
  }

  lemma ReceiverFollowsStep(c: Config, s: Session, l: Label, turns: seq<ReceiveTask.Turn>, polled: nat,
                            forwarded: seq<Wire.Payload>, timedOut: bool, stop: nat)
    requires Enabled(c, s, l) && ReceiverTimes(c, s, turns, polled)
    requires ReceiverFollows(c, s, turns, forwarded, timedOut, stop)
    ensures var turns' := turns + ReceiverTurn(c, s, l, polled);
            ReceiverFollows(c, Apply(c, s, l), turns', forwarded + Forward(s, l), timedOut || TimesOutNow(s, l),
                            NextStop(c, turns', stop))
  {
    ReceiverEffect(c, s, l);
    hide Apply;
    hide Enabled;
    hide ReceiveTask.LastParsed;
    var step := ReceiverTurn(c, s, l, polled);
    if step == [] {
      assert turns + step == turns;
    } else {
      StopAfterTurn(c, turns, step[0], stop);
      assert turns + step == turns + [step[0]];
    }
  }

  /** In every run, `ReceiveLoop` on the turns the run gave the receive task ends as the task did: the
      same payloads forwarded, the timeout fired exactly if the task fired it, and the loop over exactly
      when the task has stopped or has fired its timeout. */
  lemma {:induction false} ReceiverRunsLoop(c: Config, states: seq<Session>, labels: seq<Label>, n: nat)
      returns (stop: nat)
    requires Run(c, states, labels) && n < |states|
    ensures var turns := ReceiverTurns(c, states, labels, n);
            && ReceiverTimes(c, states[n], turns, PolledAt(states, labels, n))
            && ReceiverFollows(c, states[n], turns, Forwarded(states, labels, n), HasTimedOut(states, labels, n), stop)
  {
    hide Apply;
    hide Enabled;
    hide ReceiverFollows;
    hide ReceiverTimes;
    if n == 0 {
      stop := 0;
      NothingReceived(c, states[0], PolledAt(states, labels, 0));
    } else {
      stop := ReceiverRunsLoop(c, states, labels, n - 1);
      var s, l, turns := states[n - 1], labels[n - 1], ReceiverTurns(c, states, labels, n - 1);
      var polled := PolledAt(states, labels, n - 1);
      assert Enabled(c, s, l);
      ReceiverTimesStep(c, s, l, turns, polled);
      ReceiverFollowsStep(c, s, l, turns, polled, Forwarded(states, labels, n - 1),
                          HasTimedOut(states, labels, n - 1), stop);
      stop := NextStop(c, ReceiverTurns(c, states, labels, n), stop);
    }
  }

  lemma NothingReceived(c: Config, s: Session, polled: nat)
    requires Initial(c, s)
    ensures ReceiverTimes(c, s, [], polled) && ReceiverFollows(c, s, [], [], false, 0)
  {
  }
}
