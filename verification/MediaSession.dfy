/** The media tasks of one call: receive task, echo handler and send task, connected by unbounded
    channels (src/media/session.rs, src/media/deadline.rs, examples/echo_server.rs).

    Tasks, clock, network and dialog take steps in any order. The receive task's select is biased
    and therefore deterministic; the other two may take any branch that is ready. */
module MediaSession {
  import opened Bits
  import opened SendTask
  import opened Wire
  import Negotiation

  /** A datagram, by how `parse_rtp_packet` takes it. */
  datatype Datagram = Rtp(payload: Payload) | Unparsable

  /** Receive task: waiting in its select, working on a datagram, or gone. */
  datatype Receiver = Selecting | Handling(datagram: Datagram) | ReceiverStopped

  datatype Echo = Listening | Holding(frame: Samples) | EchoStopped

  datatype Sender = Idle | Sending(packet: Packet) | SenderStopped

  datatype Config = Config(codec: Codec, timeout: nat, start: nat, stream: Stream)

  datatype Session = Session(
    now: nat,
    dialogCancelled: bool,   // the dialog's token
    mediaCancelled: bool,    // the session's child token
    socket: seq<Datagram>,
    receiver: Receiver,
    expiry: nat,             // when the deadline fires
    audioIn: seq<Samples>,
    echo: Echo,
    audioOut: seq<Samples>,
    sender: Sender,
    stream: Stream,
    sent: seq<Packet>)

  datatype Label =
    | Tick(elapsed: nat)
    | Arrive(datagram: Datagram)
    | CancelDialog
    | ReceiverPoll
    | ReceiverError
    | ReceiverHandle
    | EchoTake
    | EchoPut
    | EchoCancelled
    | EchoClosed
    | SenderTake
    | SenderCancelled
    | SenderClosed
    | SenderDone(ok: bool)

  ghost predicate Initial(c: Config, s: Session) {
    s == Session(c.start, false, false, s.socket, Selecting, c.start + c.timeout,
                 [], Listening, [], Idle, c.stream, [])
  }

  predicate Enabled(c: Config, s: Session, l: Label) {
    match l
    case Tick(_) => true
    case Arrive(_) => true
    case CancelDialog => true
    case ReceiverPoll => s.receiver.Selecting?
    case ReceiverError => s.receiver.Selecting? && !s.mediaCancelled && s.now < s.expiry
    case ReceiverHandle => s.receiver.Handling?
    case EchoTake => s.echo.Listening? && s.audioIn != []
    case EchoPut => s.echo.Holding?
    case EchoCancelled => s.echo.Listening? && s.dialogCancelled
    case EchoClosed => s.echo.Listening? && s.audioIn == [] && s.receiver.ReceiverStopped?
    case SenderTake => s.sender.Idle? && s.audioOut != []
    case SenderCancelled => s.sender.Idle? && s.mediaCancelled
    case SenderClosed => s.sender.Idle? && s.audioOut == [] && s.echo.EchoStopped?
    case SenderDone(_) => s.sender.Sending?
  }

  /** One poll of the receive task's biased select: token, then deadline, then socket. */
  function Poll(s: Session): Session
    requires s.receiver.Selecting?
  {
    if s.mediaCancelled then s.(receiver := ReceiverStopped)
    else if s.now >= s.expiry then s.(mediaCancelled := true)
    else if s.socket != [] then s.(receiver := Handling(s.socket[0]), socket := s.socket[1..])
    else s
  }

  /** The body of the socket branch: only a parsed packet resets the deadline and is forwarded. */
  function Handle(c: Config, s: Session): Session
    requires s.receiver.Handling?
  {
    match s.receiver.datagram
    case Unparsable => s.(receiver := Selecting)
    case Rtp(payload) =>
      var parsed := s.(expiry := s.now + c.timeout);
      if s.echo.EchoStopped? then parsed.(receiver := ReceiverStopped)
      else parsed.(receiver := Selecting, audioIn := s.audioIn + [Wire.Decode(c.codec, payload)])
  }

  /** Taking a frame from the channel: an empty payload is skipped, any other consumes a number. */
  function Take(c: Config, s: Session): Session
    requires s.audioOut != []
  {
    var payload := Wire.Encode(c.codec, s.audioOut[0]);
    var taken := s.(audioOut := s.audioOut[1..]);
    if payload == [] then taken
    else taken.(sender := Sending(Packet(s.stream, payload)), stream := Advance(s.stream))
  }

  function Apply(c: Config, s: Session, l: Label): Session
    requires Enabled(c, s, l)
  {
    match l
    case Tick(elapsed) => s.(now := s.now + elapsed)
    case Arrive(datagram) => s.(socket := s.socket + [datagram])
    case CancelDialog => s.(dialogCancelled := true, mediaCancelled := true)
    case ReceiverPoll => Poll(s)
    case ReceiverError => s.(receiver := ReceiverStopped)
    case ReceiverHandle => Handle(c, s)
    case EchoTake => s.(echo := Holding(s.audioIn[0]), audioIn := s.audioIn[1..])
    case EchoPut =>
      if s.sender.SenderStopped? then s.(echo := EchoStopped)
      else s.(echo := Listening, audioOut := s.audioOut + [s.echo.frame])
    case EchoCancelled => s.(echo := EchoStopped)
    case EchoClosed => s.(echo := EchoStopped)
    case SenderTake => Take(c, s)
    case SenderCancelled => s.(sender := SenderStopped)
    case SenderClosed => s.(sender := SenderStopped)
    case SenderDone(ok) =>
      if ok then s.(sender := Idle, sent := s.sent + [s.sender.packet]) else s.(sender := SenderStopped)
  }

  ghost predicate Run(c: Config, states: seq<Session>, labels: seq<Label>) {
    && |states| == |labels| + 1
    && Initial(c, states[0])
    && forall i :: 0 <= i < |labels| ==>
         Enabled(c, states[i], labels[i]) && states[i + 1] == Apply(c, states[i], labels[i])
  }

  /** The payload a step takes in: that of a parsed packet, when it is handled. */
  function Intake(s: Session, l: Label): seq<Payload> {
    if l == ReceiverHandle && s.receiver.Handling? && s.receiver.datagram.Rtp?
    then [s.receiver.datagram.payload] else []
  }

  /** The payloads taken in over the first `n` steps of a run. */
  function Received(states: seq<Session>, labels: seq<Label>, n: nat): seq<Payload>
    requires n <= |labels| && n <= |states|
  {
    if n == 0 then [] else Received(states, labels, n - 1) + Intake(states[n - 1], labels[n - 1])
  }

  /** When the last of them was taken in, or the session began. */
  function LastIntake(c: Config, states: seq<Session>, labels: seq<Label>, n: nat): nat
    requires n <= |labels| && n <= |states|
  {
    if n == 0 then c.start
    else if Intake(states[n - 1], labels[n - 1]) != [] then states[n - 1].now
    else LastIntake(c, states, labels, n - 1)
  }

  /** The datagrams that have reached the socket: those waiting at the start, then each as it arrives. */
  function Arrived(states: seq<Session>, labels: seq<Label>, n: nat): seq<Datagram>
    requires n <= |labels| && n < |states|
  {
    if n == 0 then states[0].socket
    else Arrived(states, labels, n - 1) + ArrivedBy(labels[n - 1])
  }

  function ArrivedBy(l: Label): seq<Datagram> {
    if l.Arrive? then [l.datagram] else []
  }

  /** The datagrams the receive task has not finished with: the one in hand, then those in the socket. */
  function Waiting(s: Session): seq<Datagram> {
    (if s.receiver.Handling? then [s.receiver.datagram] else []) + s.socket
  }

  /** The payloads of the datagrams that parse. */
  function Parsable(datagrams: seq<Datagram>): seq<Payload> {
    if datagrams == [] then []
    else Parsable(datagrams[..|datagrams| - 1])
         + if datagrams[|datagrams| - 1].Rtp? then [datagrams[|datagrams| - 1].payload] else []
  }

  /** What has arrived and is no longer waiting: the datagrams the receive task has handled. */
  function Handled(states: seq<Session>, labels: seq<Label>, n: nat): seq<Datagram>
    requires n <= |labels| && n < |states| && |Waiting(states[n])| <= |Arrived(states, labels, n)|
  {
    Arrived(states, labels, n)[..|Arrived(states, labels, n)| - |Waiting(states[n])|]
  }

  // ----- From the network to the receive task -----

  /** The datagrams handled in the first `n` steps of a run, one by one. */
  function Finished(states: seq<Session>, labels: seq<Label>, n: nat): seq<Datagram>
    requires n <= |labels| && n <= |states|
  {
    if n == 0 then [] else Finished(states, labels, n - 1) + Finish(states[n - 1], labels[n - 1])
  }

  function Finish(s: Session, l: Label): seq<Datagram> {
    if l == ReceiverHandle && s.receiver.Handling? then [s.receiver.datagram] else []
  }

  /** A step finishes with the front of the queue, or adds to its end, or leaves it alone. */
  lemma QueueStep(c: Config, s: Session, l: Label)
    requires Enabled(c, s, l)
    ensures Finish(s, l) + Waiting(Apply(c, s, l)) == Waiting(s) + ArrivedBy(l)
  {
    if l.Arrive? {
      assert Waiting(Apply(c, s, l)) == Waiting(s) + [l.datagram];
    } else if l == ReceiverPoll || l == ReceiverHandle {
      QueueServed(c, s, l);
    } else {
      QueueFrame(c, s, l);
    }
  }

  lemma QueueServed(c: Config, s: Session, l: Label)
    requires Enabled(c, s, l) && (l == ReceiverPoll || l == ReceiverHandle)
    ensures Finish(s, l) + Waiting(Apply(c, s, l)) == Waiting(s) + ArrivedBy(l)
  {
    hide Wire.Encode;
    hide Wire.Decode;
    hide Advance;
    assert Waiting(s) + ArrivedBy(l) == Waiting(s);
  }

  lemma QueueFrame(c: Config, s: Session, l: Label)
    requires Enabled(c, s, l) && !l.Arrive? && l != ReceiverPoll && l != ReceiverHandle
    ensures Finish(s, l) + Waiting(Apply(c, s, l)) == Waiting(s) + ArrivedBy(l)
  {
    hide Wire.Encode;
    hide Wire.Decode;
    hide Advance;
    assert Waiting(Apply(c, s, l)) == Waiting(s);
  }

  lemma ParsableAppend(a: seq<Datagram>, d: Datagram)
    ensures Parsable(a + [d]) == Parsable(a) + if d.Rtp? then [d.payload] else []
  {
    assert (a + [d])[..|a|] == a;
  }

  lemma {:induction false} ParsablePrefix(a: seq<Datagram>, b: seq<Datagram>)
    ensures Parsable(a) <= Parsable(a + b)
  {
    if b == [] {
      assert a + b == a;
    } else {
      ParsablePrefix(a, b[..|b| - 1]);
      assert (a + b)[..|a + b| - 1] == a + b[..|b| - 1];
    }
  }

  lemma {:induction false} QueueInOrder(c: Config, states: seq<Session>, labels: seq<Label>, n: nat)
    requires Run(c, states, labels) && n < |states|
    ensures Finished(states, labels, n) + Waiting(states[n]) == Arrived(states, labels, n)
  {
    hide Apply;
    hide Enabled;
    hide Waiting;
    hide Finish;
    hide ArrivedBy;
    if n == 0 {
      NothingHandled(c, states[0]);
    } else {
      QueueInOrder(c, states, labels, n - 1);
      var s, l, before := states[n - 1], labels[n - 1], Finished(states, labels, n - 1);
      assert Enabled(c, s, l);
      QueueStep(c, s, l);
      Associate(before, Finish(s, l), Waiting(states[n]));
      Associate(before, Waiting(s), ArrivedBy(l));
    }
  }

  lemma {:induction false} ReceivedAreParsable(states: seq<Session>, labels: seq<Label>, n: nat)
    requires n <= |labels| && n <= |states|
    ensures Received(states, labels, n) == Parsable(Finished(states, labels, n))
  {
    hide Intake;
    hide Finish;
    if n == 0 {
      assert Parsable([]) == [];
    } else {
      hide Parsable;
      ReceivedAreParsable(states, labels, n - 1);
      FinishedIntake(states[n - 1], labels[n - 1], Finished(states, labels, n - 1));
    }
  }

  lemma FinishedIntake(s: Session, l: Label, before: seq<Datagram>)
    ensures Parsable(before + Finish(s, l)) == Parsable(before) + Intake(s, l)
  {
    hide Parsable;
    if Finish(s, l) != [] {
      ParsableAppend(before, s.receiver.datagram);
    } else {
      assert before + Finish(s, l) == before;
    }
  }

  /** Nothing is lost, doubled or reordered on the way in: in every run, what has been handled, then the
      datagram in hand, then the socket are exactly what has arrived; and what has been received are
      the payloads of the handled datagrams that parse. */
  lemma ArrivalsInOrder(c: Config, states: seq<Session>, labels: seq<Label>, n: nat)
    requires Run(c, states, labels) && n < |states|
    ensures Finished(states, labels, n) + Waiting(states[n]) == Arrived(states, labels, n)
    ensures Handled(states, labels, n) == Finished(states, labels, n)
    ensures Received(states, labels, n) == Parsable(Handled(states, labels, n))
  {
    QueueInOrder(c, states, labels, n);
    ReceivedAreParsable(states, labels, n);
    hide Run;
    hide Waiting;
    assert Handled(states, labels, n) == Finished(states, labels, n);
  }

  lemma NothingHandled(c: Config, s: Session)
    requires Initial(c, s)
    ensures Waiting(s) == s.socket
  {
  }

  lemma Associate(a: seq<Datagram>, b: seq<Datagram>, c: seq<Datagram>)
    ensures (a + b) + c == a + (b + c)
  {
  }

  // ----- Timing -----

  lemma TimingStep(c: Config, s: Session, l: Label)
    requires Enabled(c, s, l)
    ensures Apply(c, s, l).now == s.now + if l.Tick? then l.elapsed else 0
    ensures Apply(c, s, l).expiry == if Intake(s, l) != [] then s.now + c.timeout else s.expiry
  {
    hide Wire.Encode;
    hide Wire.Decode;
    hide Advance;
  }

  /** The time that has passed in the first `n` steps. */
  function Elapsed(labels: seq<Label>, n: nat): nat
    requires n <= |labels|
  {
    if n == 0 then 0 else Elapsed(labels, n - 1) + if labels[n - 1].Tick? then labels[n - 1].elapsed else 0
  }

  /** The clock counts up from the start, and the deadline always stands one timeout after the last
      parsed packet. */
  lemma {:induction false} DeadlineFollowsIntake(c: Config, states: seq<Session>, labels: seq<Label>, i: nat)
    requires Run(c, states, labels) && i < |states|
    ensures states[i].now == c.start + Elapsed(labels, i)
    ensures c.start <= LastIntake(c, states, labels, i) <= states[i].now
    ensures states[i].expiry == LastIntake(c, states, labels, i) + c.timeout
  {
    hide Apply;
    hide Enabled;
    if i > 0 {
      DeadlineFollowsIntake(c, states, labels, i - 1);
      assert Enabled(c, states[i - 1], labels[i - 1]);
      TimingStep(c, states[i - 1], labels[i - 1]);
    }
  }

  /** A running session is cancelled by its dialog, or by a poll of the receive task at which a full
      timeout has passed since the start and since the last packet that parsed; such a poll always
      cancels, and it leaves a waiting packet in the socket. Datagrams that do not parse count for
      nothing. */
  lemma CancelledExactlyWhenDue(c: Config, states: seq<Session>, labels: seq<Label>, i: nat)
    requires Run(c, states, labels) && i < |labels| && !states[i].mediaCancelled
    ensures states[i + 1].mediaCancelled <==>
            || labels[i] == CancelDialog
            || (labels[i] == ReceiverPoll && states[i].now >= LastIntake(c, states, labels, i) + c.timeout)
    ensures states[i + 1].mediaCancelled && labels[i] == ReceiverPoll ==>
              && states[i].now >= c.start + c.timeout
              && states[i + 1] == states[i].(mediaCancelled := true)
  {
    hide Wire.Encode;
    hide Wire.Decode;
    hide Advance;
    DeadlineFollowsIntake(c, states, labels, i);
    assert Enabled(c, states[i], labels[i]) && states[i + 1] == Apply(c, states[i], labels[i]);
  }

  /** Step `k` is the poll at which the receive task finds its deadline passed. */
  predicate TimedOutAt(c: Config, states: seq<Session>, labels: seq<Label>, k: nat)
    requires k < |labels| && k < |states|
  {
    labels[k] == ReceiverPoll && !states[k].mediaCancelled
    && states[k].now >= LastIntake(c, states, labels, k) + c.timeout
  }

  /** The dialog's token is set by the dialog alone; the session's by the dialog or its own timeout. */
  lemma {:induction false} CancellationHasCause(c: Config, states: seq<Session>, labels: seq<Label>, i: nat)
    requires Run(c, states, labels) && i < |states|
    ensures states[i].dialogCancelled <==> exists k: nat :: k < i && labels[k] == CancelDialog
    ensures states[i].mediaCancelled <==>
            exists k: nat :: k < i && (labels[k] == CancelDialog || TimedOutAt(c, states, labels, k))
  {
    hide Apply;
    hide Enabled;
    hide LastIntake;
    if i > 0 {
      CancellationHasCause(c, states, labels, i - 1);
      var s, l := states[i - 1], labels[i - 1];
      assert Enabled(c, s, l) && states[i] == Apply(c, s, l);
      TokensStep(c, s, l);
      if !s.mediaCancelled {
        CancelledExactlyWhenDue(c, states, labels, i - 1);
        assert states[i].mediaCancelled <==> labels[i - 1] == CancelDialog || TimedOutAt(c, states, labels, i - 1);
      }
    }
  }

  lemma TokensStep(c: Config, s: Session, l: Label)
    requires Enabled(c, s, l)
    ensures s.mediaCancelled ==> Apply(c, s, l).mediaCancelled
    ensures Apply(c, s, l).dialogCancelled <==> s.dialogCancelled || l == CancelDialog
  {
    hide Wire.Encode;
    hide Wire.Decode;
    hide Advance;
  }

  /** The packet the receive task has in hand. */
  function InHand(s: Session): nat {
    if s.receiver.Handling? then 1 else 0
  }

  /** Once cancelled, the receive task takes in at most the packet it already holds. */
  lemma {:induction false} NoIntakeAfterCancellation(c: Config, states: seq<Session>, labels: seq<Label>,
                                                     i: nat, j: nat)
    requires Run(c, states, labels) && i <= j < |states| && states[i].mediaCancelled
    ensures states[j].mediaCancelled
    ensures Received(states, labels, i) <= Received(states, labels, j)
    ensures |Received(states, labels, j)| + InHand(states[j]) <= |Received(states, labels, i)| + InHand(states[i])
  {
    hide Apply;
    hide Enabled;
    if i < j {
      NoIntakeAfterCancellation(c, states, labels, i, j - 1);
      assert Enabled(c, states[j - 1], labels[j - 1]);
      IntakeStep(c, states[j - 1], labels[j - 1]);
    }
  }

  lemma IntakeStep(c: Config, s: Session, l: Label)
    requires Enabled(c, s, l) && s.mediaCancelled
    ensures Apply(c, s, l).mediaCancelled
    ensures |Intake(s, l)| + InHand(Apply(c, s, l)) <= InHand(s)
  {
    hide Wire.Encode;
    hide Wire.Decode;
    hide Advance;
  }

  /** After its own timeout the receive task takes in nothing at all. */
  lemma NoIntakeAfterTimeout(c: Config, states: seq<Session>, labels: seq<Label>, i: nat, j: nat)
    requires Run(c, states, labels) && i < j < |states|
    requires labels[i] == ReceiverPoll && !states[i].mediaCancelled && states[i + 1].mediaCancelled
    ensures Received(states, labels, j) == Received(states, labels, i)
  {
    assert Enabled(c, states[i], labels[i]);
    CancelledExactlyWhenDue(c, states, labels, i);
    NoIntakeAfterCancellation(c, states, labels, i + 1, j);
    assert Received(states, labels, i + 1) == Received(states, labels, i);
  }

  // ----- Numbering -----

  /** Header numbers consumed so far, given how many packets were sent. */
  ghost predicate NumberingInv(c: Config, s: Session) {
    && (forall k :: 0 <= k < |s.sent| ==> s.sent[k].header == After(c.stream, k) && s.sent[k].payload != [])
    && match s.sender
       case Idle => s.stream == After(c.stream, |s.sent|)
       case Sending(packet) =>
         s.stream == After(c.stream, |s.sent| + 1) && packet.header == After(c.stream, |s.sent|) && packet.payload != []
       case SenderStopped =>
         s.stream == After(c.stream, |s.sent|) || s.stream == After(c.stream, |s.sent| + 1)
  }

  predicate OfSender(l: Label) {
    l.SenderTake? || l.SenderCancelled? || l.SenderClosed? || l.SenderDone?
  }

  lemma NumberingStep(c: Config, s: Session, l: Label)
    requires Enabled(c, s, l) && NumberingInv(c, s)
    ensures NumberingInv(c, Apply(c, s, l))
  {
    hide After;
    hide Advance;
    hide Wire.Encode;
    hide Wire.Decode;
    if OfSender(l) {
      AdvanceAfter(c.stream, |s.sent|);
    } else {
      hide NumberingInv;
      NumberingFrame(c, s, Apply(c, s, l));
    }
  }

  lemma NumberingFrame(c: Config, s: Session, s': Session)
    requires NumberingInv(c, s) && s'.sent == s.sent && s'.sender == s.sender && s'.stream == s.stream
    ensures NumberingInv(c, s')
  {
    hide After;
  }

  // ----- The echo pipeline -----

  /** The payloads that leave for a list of frames: encoded, empty ones skipped. */
  function Outgoing(c: Codec, frames: seq<Samples>): seq<Payload> {
    if frames == [] then []
    else NonEmpty(Wire.Encode(c, frames[0])) + Outgoing(c, frames[1..])
  }

  function NonEmpty(payload: Payload): seq<Payload> {
    if payload == [] then [] else [payload]
  }

  /** The received payloads as the peer should hear them again. */
  function Echoed(c: Codec, received: seq<Payload>): seq<Payload> {
    if received == [] then []
    else Echoed(c, received[..|received| - 1]) + NonEmpty(Canonical(c, received[|received| - 1]))
  }

  lemma {:induction false} OutgoingAppend(c: Codec, frames: seq<Samples>, frame: Samples)
    ensures Outgoing(c, frames + [frame]) == Outgoing(c, frames) + NonEmpty(Wire.Encode(c, frame))
  {
    hide Wire.Encode;
    hide NonEmpty;
    if frames == [] {
      assert frames + [frame] == [frame] && [frame][1..] == [];
    } else {
      assert (frames + [frame])[1..] == frames[1..] + [frame];
      OutgoingAppend(c, frames[1..], frame);
    }
  }

  /** Frames on their way, oldest first. */
  function Frames(s: Session): seq<Samples> {
    s.audioOut + (if s.echo.Holding? then [s.echo.frame] else []) + s.audioIn
  }

  function PayloadsOf(packets: seq<Packet>): seq<Payload> {
    seq(|packets|, k requires 0 <= k < |packets| => packets[k].payload)
  }

  /** Payloads that have left or are with the socket. */
  function Departed(s: Session): seq<Payload> {
    PayloadsOf(s.sent) + (if s.sender.Sending? then [s.sender.packet.payload] else [])
  }

  /** Nothing is lost, added or reordered while all tasks run; whatever stops, what has left stays a
      prefix of what should. */
  ghost predicate EchoInv(c: Config, s: Session, received: seq<Payload>) {
    var expected := Echoed(c.codec, received);
    if s.sender.SenderStopped? then PayloadsOf(s.sent) <= expected
    else if s.echo.EchoStopped? then Departed(s) + Outgoing(c.codec, s.audioOut) <= expected
    else Departed(s) + Outgoing(c.codec, Frames(s)) == expected
  }

  lemma EchoedAppend(c: Codec, received: seq<Payload>, payload: Payload)
    ensures Echoed(c, received + [payload]) == Echoed(c, received) + NonEmpty(Canonical(c, payload))
  {
    assert (received + [payload])[..|received|] == received;
  }

  lemma PayloadsAppend(packets: seq<Packet>, packet: Packet)
    ensures PayloadsOf(packets + [packet]) == PayloadsOf(packets) + [packet.payload]
  {
  }

  lemma Regroup(a: seq<Payload>, b: seq<Payload>, c: seq<Payload>)
    ensures (a + b) + c == a + (b + c)
    ensures a <= a + b
  {
  }

  lemma EchoHandleStep(c: Config, s: Session, received: seq<Payload>)
    requires s.receiver.Handling? && EchoInv(c, s, received)
    ensures EchoInv(c, Handle(c, s), received + Intake(s, ReceiverHandle))
  {
    hide Outgoing;
    hide Echoed;
    hide PayloadsOf;
    hide NonEmpty;
    hide Wire.Encode;
    hide Wire.Decode;
    hide Canonical;
    var s', received' := Handle(c, s), received + Intake(s, ReceiverHandle);
    assert Departed(s') == Departed(s) && s'.audioOut == s.audioOut;
    if s.receiver.datagram.Rtp? {
      var payload := s.receiver.datagram.payload;
      var frame := Wire.Decode(c.codec, payload);
      EchoedAppend(c.codec, received, payload);
      Wire.EncodeInvertsDecode(c.codec, payload);
      if s.echo.EchoStopped? || s.sender.SenderStopped? {
        assert Echoed(c.codec, received) <= Echoed(c.codec, received');
      } else {
        assert Frames(s') == Frames(s) + [frame];
        OutgoingAppend(c.codec, Frames(s), frame);
        Regroup(Departed(s), Outgoing(c.codec, Frames(s)), NonEmpty(Canonical(c.codec, payload)));
      }
    } else {
      assert Frames(s') == Frames(s) && received' == received;
    }
  }

  lemma OutgoingHead(c: Codec, frames: seq<Samples>)
    requires frames != []
    ensures Outgoing(c, frames) == NonEmpty(Wire.Encode(c, frames[0])) + Outgoing(c, frames[1..])
  {
  }

  lemma FramesAfterTake(c: Config, s: Session)
    requires s.audioOut != []
    ensures Frames(s) == [s.audioOut[0]] + Frames(Take(c, s))
    ensures Frames(s)[1..] == Frames(Take(c, s))
  {
    hide Wire.Encode;
    var held := if s.echo.Holding? then [s.echo.frame] else [];
    assert s.audioOut == [s.audioOut[0]] + s.audioOut[1..];
    assert Frames(s) == [s.audioOut[0]] + (s.audioOut[1..] + held + s.audioIn);
  }

  lemma EchoTakeStep(c: Config, s: Session, received: seq<Payload>)
    requires Enabled(c, s, SenderTake) && EchoInv(c, s, received)
    ensures EchoInv(c, Take(c, s), received)
  {
    hide Outgoing;
    hide Echoed;
    hide PayloadsOf;
    hide Wire.Encode;
    var s' := Take(c, s);
    var left := NonEmpty(Wire.Encode(c.codec, s.audioOut[0]));
    assert Departed(s') == Departed(s) + left;
    OutgoingHead(c.codec, s.audioOut);
    OutgoingHead(c.codec, Frames(s));
    FramesAfterTake(c, s);
    hide Frames;
    Regroup(Departed(s), left, Outgoing(c.codec, s'.audioOut));
    Regroup(Departed(s), left, Outgoing(c.codec, Frames(s')));
  }

  /** A prefix of the frames on their way gives a prefix of the payloads on their way. */
  lemma {:induction false} OutgoingPrefix(c: Codec, some: seq<Samples>, rest: seq<Samples>)
    ensures Outgoing(c, some) <= Outgoing(c, some + rest)
  {
    hide Wire.Encode;
    if some != [] {
      assert (some + rest)[1..] == some[1..] + rest;
      OutgoingPrefix(c, some[1..], rest);
    }
  }

  lemma EchoStep(c: Config, s: Session, l: Label, received: seq<Payload>)
    requires Enabled(c, s, l) && EchoInv(c, s, received)
    ensures EchoInv(c, Apply(c, s, l), received + Intake(s, l))
  {
    assert l != ReceiverHandle ==> received + Intake(s, l) == received;
    if l == ReceiverHandle {
      EchoHandleStep(c, s, received);
    } else if l == SenderTake {
      EchoTakeStep(c, s, received);
    } else if l == EchoCancelled || l == EchoClosed {
      EchoStopStep(c, s, l, received);
    } else {
      EchoMoveStep(c, s, l, received);
    }
  }

  lemma EchoStopStep(c: Config, s: Session, l: Label, received: seq<Payload>)
    requires Enabled(c, s, l) && EchoInv(c, s, received) && (l == EchoCancelled || l == EchoClosed)
    ensures EchoInv(c, Apply(c, s, l), received)
  {
    hide Outgoing;
    hide Echoed;
    OutgoingPrefix(c.codec, s.audioOut, s.audioIn);
    assert Frames(s) == s.audioOut + s.audioIn;
  }

  /** The other steps move frames along, or nothing at all. */
  lemma EchoMoveStep(c: Config, s: Session, l: Label, received: seq<Payload>)
    requires Enabled(c, s, l) && EchoInv(c, s, received)
    requires l != ReceiverHandle && l != SenderTake && l != EchoCancelled && l != EchoClosed
    ensures EchoInv(c, Apply(c, s, l), received)
  {
    hide Outgoing;
    hide Echoed;
    hide Wire.Encode;
    hide Wire.Decode;
    hide Advance;
    var s' := Apply(c, s, l);
    match l
    case EchoTake => assert Frames(s') == Frames(s);
    case EchoPut =>
      if !s.sender.SenderStopped? {
        assert Frames(s') == Frames(s);
      }
    case SenderDone(ok) =>
      if ok {
        PayloadsAppend(s.sent, s.sender.packet);
        assert Departed(s') == Departed(s);
      }
    case _ =>
  }

  lemma {:induction false} RunEcho(c: Config, states: seq<Session>, labels: seq<Label>, i: nat)
    requires Run(c, states, labels) && i < |states|
    ensures NumberingInv(c, states[i]) && EchoInv(c, states[i], Received(states, labels, i))
  {
    hide Enabled;
    hide Apply;
    if i == 0 {
      AfterNone(c.stream);
    } else {
      RunEcho(c, states, labels, i - 1);
      assert Enabled(c, states[i - 1], labels[i - 1]);
      NumberingStep(c, states[i - 1], labels[i - 1]);
      EchoStep(c, states[i - 1], labels[i - 1], Received(states, labels, i - 1));
    }
  }

  /** In every state of every run, the packets sent are the payloads that arrived, as far as they have
      been handled, canonicalised, with empty ones left out, in order from the first, and numbered
      consecutively from the start of the stream; at most one number is used up without a packet
      having left. */
  lemma EchoStream(c: Config, states: seq<Session>, labels: seq<Label>, i: nat)
    requires Run(c, states, labels) && i < |states|
    ensures |Waiting(states[i])| <= |Arrived(states, labels, i)|
    ensures var expected := Echoed(c.codec, Parsable(Handled(states, labels, i)));
            |states[i].sent| <= |expected| && states[i].sent == Numbered(c.stream, expected[..|states[i].sent|])
    ensures states[i].stream == After(c.stream, |states[i].sent|)
            || states[i].stream == After(c.stream, |states[i].sent| + 1)
  {
    hide Echoed;
    hide Outgoing;
    hide After;
    hide Waiting;
    RunEcho(c, states, labels, i);
    ArrivalsInOrder(c, states, labels, i);
    NumberedPayloads(c, states[i], Echoed(c.codec, Received(states, labels, i)));
  }

  /** Payloads in order and numbers in order make numbered packets. */
  lemma NumberedPayloads(c: Config, s: Session, expected: seq<Payload>)
    requires NumberingInv(c, s) && PayloadsOf(s.sent) <= expected
    ensures |s.sent| <= |expected| && s.sent == Numbered(c.stream, expected[..|s.sent|])
  {
    hide After;
    forall k | 0 <= k < |s.sent|
      ensures s.sent[k] == Packet(After(c.stream, k), expected[k])
    {
      assert s.sent[k].payload == PayloadsOf(s.sent)[k];
    }
  }

  /** Nothing in flight, nothing missing: with all tasks running and both channels drained, everything
      handled has been echoed, and everything that arrived if nothing waits. */
  lemma EchoComplete(c: Config, states: seq<Session>, labels: seq<Label>, i: nat)
    requires Run(c, states, labels) && i < |states|
    requires states[i].sender.Idle? && states[i].echo.Listening?
    requires states[i].audioIn == [] && states[i].audioOut == []
    ensures |Waiting(states[i])| <= |Arrived(states, labels, i)|
    ensures states[i].sent == Numbered(c.stream, Echoed(c.codec, Parsable(Handled(states, labels, i))))
    ensures Waiting(states[i]) == [] ==>
              states[i].sent == Numbered(c.stream, Echoed(c.codec, Parsable(Arrived(states, labels, i))))
  {
    hide Echoed;
    hide After;
    hide Waiting;
    hide Parsable;
    RunEcho(c, states, labels, i);
    ArrivalsInOrder(c, states, labels, i);
    var s, expected := states[i], Echoed(c.codec, Received(states, labels, i));
    assert Frames(s) == [];
    assert PayloadsOf(s.sent) == expected;
    NumberedPayloads(c, s, expected);
    assert expected[..|s.sent|] == expected;
    assert Waiting(s) == [] ==> Handled(states, labels, i) == Arrived(states, labels, i);
  }

  /** The sent packets of a session whose stream advances as its codec says never repeat a timestamp
      before they repeat a sequence number. */
  lemma SentTimestamps(c: Config, states: seq<Session>, labels: seq<Label>, i: nat, j: nat, k: nat)
    requires Run(c, states, labels) && i < |states|
    requires c.stream.increment == Negotiation.TimestampIncrement(Kind(c.codec))
    requires j < |states[i].sent| && k < |states[i].sent|
    requires states[i].sent[j].header.timestamp == states[i].sent[k].header.timestamp
    ensures states[i].sent[j].header.sequence == states[i].sent[k].header.sequence
  {
    hide After;
    RunEcho(c, states, labels, i);
    TimestampDeterminesSequence(c.stream, j, k);
  }

  // ----- How sessions end -----

  /** No send of the first `n` steps failed. */
  ghost predicate AllSendsOk(labels: seq<Label>, n: nat)
    requires n <= |labels|
  {
    forall k :: 0 <= k < n ==> labels[k] != SenderDone(false)
  }

  /** Without cancellation the tasks stop downstream only: the echo handler after the receive task, with
      nothing left to take, and the send task after the echo handler. All that was received is on its
      way or has left. */
  ghost predicate Orderly(c: Config, s: Session, received: seq<Payload>) {
    && !s.dialogCancelled
    && (s.echo.EchoStopped? ==> s.receiver.ReceiverStopped? && s.audioIn == [])
    && (s.sender.SenderStopped? ==> s.echo.EchoStopped? && s.audioOut == [])
    && Departed(s) + Outgoing(c.codec, Frames(s)) == Echoed(c.codec, received)
  }

  lemma OrderlyTake(c: Config, s: Session, received: seq<Payload>)
    requires Enabled(c, s, SenderTake) && Orderly(c, s, received)
    ensures Orderly(c, Take(c, s), received)
  {
    hide Outgoing;
    hide Echoed;
    hide PayloadsOf;
    hide Wire.Encode;
    var s' := Take(c, s);
    var left := NonEmpty(Wire.Encode(c.codec, s.audioOut[0]));
    assert Departed(s') == Departed(s) + left;
    OutgoingHead(c.codec, Frames(s));
    FramesAfterTake(c, s);
    hide Frames;
    Regroup(Departed(s), left, Outgoing(c.codec, Frames(s')));
  }

  lemma OrderlyHandle(c: Config, s: Session, received: seq<Payload>)
    requires s.receiver.Handling? && Orderly(c, s, received)
    ensures Orderly(c, Handle(c, s), received + Intake(s, ReceiverHandle))
  {
    hide Outgoing;
    hide Echoed;
    hide Wire.Encode;
    hide Wire.Decode;
    assert EchoInv(c, s, received);
    EchoHandleStep(c, s, received);
  }

  lemma OrderlyStep(c: Config, s: Session, l: Label, received: seq<Payload>)
    requires Enabled(c, s, l) && Orderly(c, s, received)
    requires !Apply(c, s, l).mediaCancelled && !s.mediaCancelled && l != SenderDone(false)
    ensures Orderly(c, Apply(c, s, l), received + Intake(s, l))
  {
    hide Outgoing;
    hide Echoed;
    hide Wire.Encode;
    hide Wire.Decode;
    hide Advance;
    var s' := Apply(c, s, l);
    assert l != ReceiverHandle ==> received + Intake(s, l) == received;
    match l
    case ReceiverHandle => OrderlyHandle(c, s, received);
    case SenderTake => OrderlyTake(c, s, received);
    case EchoTake => assert Frames(s') == Frames(s);
    case EchoPut => assert Frames(s') == Frames(s);
    case EchoClosed => assert Frames(s') == Frames(s);
    case SenderDone(_) =>
      PayloadsAppend(s.sent, s.sender.packet);
      assert Departed(s') == Departed(s);
    case _ =>
  }

  lemma TokenStays(c: Config, states: seq<Session>, labels: seq<Label>, i: nat, j: nat)
    requires Run(c, states, labels) && i <= j < |states| && !states[j].mediaCancelled
    ensures !states[i].mediaCancelled
  {
    if states[i].mediaCancelled {
      NoIntakeAfterCancellation(c, states, labels, i, j);
    }
  }

  /** Without cancellation the receive task stops on a socket error, or because the handler is gone. */
  lemma ReceiverEnd(c: Config, s: Session, l: Label)
    requires Enabled(c, s, l) && !s.mediaCancelled && (s.echo.EchoStopped? ==> s.receiver.ReceiverStopped?)
    ensures Apply(c, s, l).receiver.ReceiverStopped? <==> s.receiver.ReceiverStopped? || l == ReceiverError
  {
    hide Wire.Encode;
    hide Wire.Decode;
    hide Advance;
  }

  lemma {:induction false} RunOrderly(c: Config, states: seq<Session>, labels: seq<Label>, i: nat)
    requires Run(c, states, labels) && i < |states| && !states[i].mediaCancelled && AllSendsOk(labels, i)
    ensures Orderly(c, states[i], Received(states, labels, i))
    ensures states[i].receiver.ReceiverStopped? <==> exists k :: 0 <= k < i && labels[k] == ReceiverError
  {
    hide Apply;
    hide Enabled;
    if i == 0 {
      assert Orderly(c, states[0], []);
    } else {
      TokenStays(c, states, labels, i - 1, i);
      RunOrderly(c, states, labels, i - 1);
      assert Enabled(c, states[i - 1], labels[i - 1]);
      OrderlyStep(c, states[i - 1], labels[i - 1], Received(states, labels, i - 1));
      ReceiverEnd(c, states[i - 1], labels[i - 1]);
    }
  }

  /** How a session ends by itself, in every run without cancellation and without a failed send: only a
      socket error stops the receive task; the echo handler stops only after it and the send task only
      after the echo handler; and once the send task has stopped, all that was received has been
      echoed. */
  lemma OrderlyEnd(c: Config, states: seq<Session>, labels: seq<Label>, i: nat)
    requires Run(c, states, labels) && i < |states| && !states[i].mediaCancelled && AllSendsOk(labels, i)
    ensures states[i].receiver.ReceiverStopped? <==> exists k :: 0 <= k < i && labels[k] == ReceiverError
    ensures states[i].echo.EchoStopped? ==> states[i].receiver.ReceiverStopped?
    ensures states[i].sender.SenderStopped? ==> states[i].echo.EchoStopped?
    ensures |Waiting(states[i])| <= |Arrived(states, labels, i)|
    ensures states[i].sender.SenderStopped? ==>
              states[i].sent == Numbered(c.stream, Echoed(c.codec, Parsable(Handled(states, labels, i))))
  {
    hide Echoed;
    hide After;
    hide Waiting;
    hide Parsable;
    RunOrderly(c, states, labels, i);
    RunEcho(c, states, labels, i);
    ArrivalsInOrder(c, states, labels, i);
    var s, expected := states[i], Echoed(c.codec, Received(states, labels, i));
    if s.sender.SenderStopped? {
      assert Frames(s) == [];
      assert PayloadsOf(s.sent) == expected;
      NumberedPayloads(c, s, expected);
      assert expected[..|s.sent|] == expected;
    }
  }

  /** What the media timeout does not do: as long as the dialog is not cancelled, the echo handler goes
      on until the receive task is gone and every frame has been taken, unless nobody takes its own
      frames any more. */
  lemma {:induction false} EchoOutlivesTimeout(c: Config, states: seq<Session>, labels: seq<Label>, i: nat)
    requires Run(c, states, labels) && i < |states| && !states[i].dialogCancelled && states[i].echo.EchoStopped?
    ensures states[i].sender.SenderStopped? || (states[i].receiver.ReceiverStopped? && states[i].audioIn == [])
  {
    hide Apply;
    hide Enabled;
    if i > 0 {
      var s, l := states[i - 1], labels[i - 1];
      assert Enabled(c, s, l) && states[i] == Apply(c, s, l);
      if s.echo.EchoStopped? && !s.dialogCancelled {
        EchoOutlivesTimeout(c, states, labels, i - 1);
      }
      EchoEndStep(c, s, l);
    }
  }

  lemma EchoEndStep(c: Config, s: Session, l: Label)
    requires Enabled(c, s, l) && !Apply(c, s, l).dialogCancelled && Apply(c, s, l).echo.EchoStopped?
    requires s.echo.EchoStopped? && !s.dialogCancelled ==>
               s.sender.SenderStopped? || (s.receiver.ReceiverStopped? && s.audioIn == [])
    ensures !s.dialogCancelled
    ensures Apply(c, s, l).sender.SenderStopped?
            || (Apply(c, s, l).receiver.ReceiverStopped? && Apply(c, s, l).audioIn == [])
  {
    hide Wire.Encode;
    hide Wire.Decode;
    hide Advance;
  }

  lemma StoppedStep(c: Config, s: Session, l: Label)
    requires Enabled(c, s, l)
    ensures s.receiver.ReceiverStopped? ==> Apply(c, s, l).receiver.ReceiverStopped?
    ensures s.echo.EchoStopped? ==> Apply(c, s, l).echo.EchoStopped?
    ensures s.sender.SenderStopped? ==> Apply(c, s, l).sender.SenderStopped? && Apply(c, s, l).sent == s.sent
    ensures s.sender.SenderStopped? && l == EchoPut ==> Apply(c, s, l).echo.EchoStopped?
    ensures s.echo.EchoStopped? && Intake(s, l) != [] ==> Apply(c, s, l).receiver.ReceiverStopped?
  {
    hide Wire.Encode;
    hide Wire.Decode;
    hide Advance;
  }

  lemma {:induction false} StoppedForGood(c: Config, states: seq<Session>, labels: seq<Label>, i: nat, j: nat)
    requires Run(c, states, labels) && i <= j < |states|
    ensures states[i].receiver.ReceiverStopped? ==> states[j].receiver.ReceiverStopped?
    ensures states[i].echo.EchoStopped? ==> states[j].echo.EchoStopped?
    ensures states[i].sender.SenderStopped? ==> states[j].sender.SenderStopped? && states[j].sent == states[i].sent
  {
    hide Apply;
    hide Enabled;
    if i < j {
      StoppedForGood(c, states, labels, i, j - 1);
      assert Enabled(c, states[j - 1], labels[j - 1]);
      StoppedStep(c, states[j - 1], labels[j - 1]);
    }
  }

  /** A task that has stopped takes those that feed it with it, in every run: after the send task nothing
      more is sent and the next frame the echo handler puts is its last step; after the echo handler the
      next packet the receive task parses is its last. */
  lemma StopsPropagate(c: Config, states: seq<Session>, labels: seq<Label>, i: nat, j: nat, k: nat)
    requires Run(c, states, labels) && i <= j < k < |states|
    ensures states[i].sender.SenderStopped? ==> states[k].sent == states[i].sent
    ensures states[i].sender.SenderStopped? && labels[j] == EchoPut ==> states[k].echo.EchoStopped?
    ensures states[i].echo.EchoStopped? && Intake(states[j], labels[j]) != [] ==> states[k].receiver.ReceiverStopped?
  {
    StoppedForGood(c, states, labels, i, j);
    StoppedForGood(c, states, labels, i, k);
    StoppedForGood(c, states, labels, j + 1, k);
    assert Enabled(c, states[j], labels[j]) && states[j + 1] == Apply(c, states[j], labels[j]);
    hide Apply;
    hide Enabled;
    hide Intake;
    StoppedStep(c, states[j], labels[j]);
  }

  predicate OfReceiver(l: Label) {
    l.ReceiverPoll? || l.ReceiverError? || l.ReceiverHandle?
  }

  predicate OfEcho(l: Label) {
    l.EchoTake? || l.EchoPut? || l.EchoCancelled? || l.EchoClosed?
  }

  lemma ReceiverNeverSticks(c: Config, s: Session)
    requires !s.receiver.ReceiverStopped?
    ensures exists l :: OfReceiver(l) && Enabled(c, s, l)
  {
    assert OfReceiver(ReceiverPoll) && OfReceiver(ReceiverHandle);
    assert Enabled(c, s, ReceiverPoll) || Enabled(c, s, ReceiverHandle);
  }

  lemma NetworkMayFail(c: Config, s: Session)
    ensures s.receiver.Selecting? && !s.mediaCancelled && s.now < s.expiry ==> Enabled(c, s, ReceiverError)
    ensures s.sender.Sending? ==> Enabled(c, s, SenderDone(true)) && Enabled(c, s, SenderDone(false))
  {
  }

  lemma EchoNeverSticks(c: Config, s: Session)
    requires !s.echo.EchoStopped? && (s.audioIn != [] || s.receiver.ReceiverStopped? || s.dialogCancelled)
    ensures exists l :: OfEcho(l) && Enabled(c, s, l)
  {
    var l :=
      if s.echo.Holding? then EchoPut
      else if s.audioIn != [] then EchoTake
      else if s.dialogCancelled then EchoCancelled
      else EchoClosed;
    assert OfEcho(l) && Enabled(c, s, l);
  }

  lemma SenderNeverSticks(c: Config, s: Session)
    requires !s.sender.SenderStopped? && (s.audioOut != [] || s.echo.EchoStopped? || s.mediaCancelled)
    ensures exists l :: OfSender(l) && Enabled(c, s, l)
  {
    var l :=
      if s.sender.Sending? then SenderDone(true)
      else if s.audioOut != [] then SenderTake
      else if s.mediaCancelled then SenderCancelled
      else SenderClosed;
    assert OfSender(l) && Enabled(c, s, l);
  }

  /** In every run no task is ever stuck: the receive task can always go on until it has stopped; the
      echo handler and the send task can go on whenever there is a frame for them or the task before
      them has stopped, and once the dialog is cancelled in any case. The network may fail a waiting
      receive and any send. */
  lemma TasksNeverStick(c: Config, states: seq<Session>, labels: seq<Label>, i: nat)
    requires Run(c, states, labels) && i < |states|
    ensures var s := states[i];
            && (!s.receiver.ReceiverStopped? ==> exists l :: OfReceiver(l) && Enabled(c, s, l))
            && (!s.echo.EchoStopped? && (s.audioIn != [] || s.receiver.ReceiverStopped? || s.dialogCancelled) ==>
                  exists l :: OfEcho(l) && Enabled(c, s, l))
            && (!s.sender.SenderStopped?
                && (s.audioOut != [] || s.echo.EchoStopped? || s.mediaCancelled || s.dialogCancelled) ==>
                  exists l :: OfSender(l) && Enabled(c, s, l))
            && (s.receiver.Selecting? && !s.mediaCancelled && s.now < s.expiry ==> Enabled(c, s, ReceiverError))
            && (s.sender.Sending? ==> Enabled(c, s, SenderDone(true)) && Enabled(c, s, SenderDone(false)))
  {
    NetworkMayFail(c, states[i]);
    hide Enabled;
    hide OfReceiver;
    hide OfEcho;
    hide OfSender;
    var s := states[i];
    CancellationHasCause(c, states, labels, i);
    assert s.dialogCancelled ==> s.mediaCancelled;
    if !s.receiver.ReceiverStopped? {
      ReceiverNeverSticks(c, s);
    }
    if !s.echo.EchoStopped? && (s.audioIn != [] || s.receiver.ReceiverStopped? || s.dialogCancelled) {
      EchoNeverSticks(c, s);
    }
    if !s.sender.SenderStopped? && (s.audioOut != [] || s.echo.EchoStopped? || s.mediaCancelled || s.dialogCancelled) {
      SenderNeverSticks(c, s);
    }
  }

  predicate StepsTo(c: Config, s: Session, l: Label, s': Session) {
    Enabled(c, s, l) && s' == Apply(c, s, l)
  }

  /** All tasks at work, none with anything to do, no token set, and the deadline not reached. */
  predicate Quiet(s: Session) {
    && s.receiver.Selecting? && s.echo.Listening? && s.sender.Idle?
    && s.socket == [] && s.audioIn == [] && s.audioOut == []
    && !s.mediaCancelled && s.now < s.expiry
  }

  lemma TakesIn(c: Config, s: Session, payload: Payload) returns (s1: Session, s2: Session, s3: Session)
    requires Quiet(s)
    ensures StepsTo(c, s, Arrive(Rtp(payload)), s1) && StepsTo(c, s1, ReceiverPoll, s2)
    ensures StepsTo(c, s2, ReceiverHandle, s3)
    ensures s3 == s.(expiry := s.now + c.timeout, audioIn := [Wire.Decode(c.codec, payload)])
  {
    hide Wire.Encode;
    hide Wire.Decode;
    hide Advance;
    s1 := s.(socket := [Rtp(payload)]);
    s2 := s.(receiver := Handling(Rtp(payload)));
    s3 := s.(expiry := s.now + c.timeout, audioIn := [Wire.Decode(c.codec, payload)]);
  }

  lemma HandsBack(c: Config, s: Session, frame: Samples) returns (s1: Session, s2: Session)
    requires s.echo.Listening? && !s.sender.SenderStopped? && s.audioIn == [frame] && s.audioOut == []
    ensures StepsTo(c, s, EchoTake, s1) && StepsTo(c, s1, EchoPut, s2)
    ensures s2 == s.(audioIn := [], audioOut := [frame])
  {
    s1 := s.(echo := Holding(frame), audioIn := []);
    s2 := s.(audioIn := [], audioOut := [frame]);
  }

  lemma SendsOut(c: Config, s: Session, frame: Samples) returns (s1: Session, s2: Session)
    requires s.sender.Idle? && s.audioOut == [frame] && Wire.Encode(c.codec, frame) != []
    ensures StepsTo(c, s, SenderTake, s1) && StepsTo(c, s1, SenderDone(true), s2)
    ensures s2 == s.(audioOut := [], stream := Advance(s.stream),
                     sent := s.sent + [Packet(s.stream, Wire.Encode(c.codec, frame))])
  {
    hide Wire.Encode;
    hide Wire.Decode;
    hide Advance;
    var packet := Packet(s.stream, Wire.Encode(c.codec, frame));
    s1 := s.(audioOut := [], sender := Sending(packet), stream := Advance(s.stream));
    s2 := s.(audioOut := [], stream := Advance(s.stream), sent := s.sent + [packet]);
  }

  /** One packet through the whole session: from any quiet state, a packet that arrives is received,
      decoded, handed over, echoed, encoded and sent under the next number, and the session is quiet
      again, its deadline a full timeout away. */
  lemma PacketComesBack(c: Config, s: Session, payload: Payload) returns (states: seq<Session>)
    requires Quiet(s) && Canonical(c.codec, payload) != [] && c.timeout > 0
    ensures |states| == 8 && states[0] == s
    ensures StepsTo(c, states[0], Arrive(Rtp(payload)), states[1]) && StepsTo(c, states[1], ReceiverPoll, states[2])
    ensures StepsTo(c, states[2], ReceiverHandle, states[3]) && StepsTo(c, states[3], EchoTake, states[4])
    ensures StepsTo(c, states[4], EchoPut, states[5]) && StepsTo(c, states[5], SenderTake, states[6])
    ensures StepsTo(c, states[6], SenderDone(true), states[7])
    ensures Quiet(states[7]) && states[7].expiry == s.now + c.timeout
    ensures states[7].sent == s.sent + [Packet(s.stream, Canonical(c.codec, payload))]
    ensures states[7].stream == Advance(s.stream)
  {
    hide StepsTo;
    hide Wire.Encode;
    hide Wire.Decode;
    hide Canonical;
    hide Advance;
    Wire.EncodeInvertsDecode(c.codec, payload);
    var frame := Wire.Decode(c.codec, payload);
    var s1, s2, s3 := TakesIn(c, s, payload);
    var s4, s5 := HandsBack(c, s3, frame);
    var s6, s7 := SendsOut(c, s5, frame);
    states := [s, s1, s2, s3, s4, s5, s6, s7];
  }
}
