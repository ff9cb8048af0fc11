/** The receive loop with its resettable deadline, as the source writes it (src/media/deadline.rs,
    `rtp_receive_task` in src/media/session.rs). */
module ReceiveTask {
  import opened Bits

  /** A resettable deadline; the clock is passed in. */
  class Deadline {
    var expiry: nat
    const duration: nat

    constructor (now: nat, duration: nat)
      ensures expiry == now + duration && this.duration == duration
    {
      expiry := now + duration;
      this.duration := duration;
    }

    method Reset(now: nat)
      modifies this
      ensures expiry == now + duration
    {
      expiry := now + duration;
    }

    predicate Fired(now: nat)
      reads this
    {
      now >= expiry
    }
  }

  /** What one turn of the loop finds: the time at which it looks, whether the token has fired, and what
      the socket has; `handled` is when a packet has been parsed, and `open` says whether the audio
      channel still takes frames. */
  datatype Arrival = Nothing | Error | Unparsable | Rtp(payload: seq<u8>)
  datatype Turn = Turn(now: nat, cancelled: bool, arrival: Arrival, handled: nat, open: bool)

  /** Time does not run backwards. */
  predicate Chronological(start: nat, turns: seq<Turn>) {
    && (forall i :: 0 <= i < |turns| ==> start <= turns[i].now <= turns[i].handled)
    && (forall i, j :: 0 <= i < j < |turns| ==> turns[i].handled <= turns[j].now)
  }

  /** Time of the last parsed packet among the first `n` turns, or the start. */
  function LastParsed(start: nat, turns: seq<Turn>, n: nat): nat
    requires n <= |turns|
  {
    if n == 0 then start
    else if turns[n - 1].arrival.Rtp? then turns[n - 1].handled
    else LastParsed(start, turns, n - 1)
  }

  lemma {:induction false} LastParsedIsLatest(start: nat, turns: seq<Turn>, n: nat)
    requires n <= |turns| && Chronological(start, turns)
    ensures start <= LastParsed(start, turns, n)
    ensures forall i :: 0 <= i < n && turns[i].arrival.Rtp? ==> turns[i].handled <= LastParsed(start, turns, n)
  {
    if n > 0 {
      LastParsedIsLatest(start, turns, n - 1);
    }
  }

  /** The loop does not get past this turn: the token has fired or the deadline has. */
  predicate Overdue(start: nat, timeout: nat, turns: seq<Turn>, i: nat)
    requires i < |turns|
  {
    turns[i].cancelled || turns[i].now >= LastParsed(start, turns, i) + timeout
  }

  /** The loop ends in turn `i`: overdue, on a socket error, or with nobody to take the frame. */
  predicate EndsAt(start: nat, timeout: nat, turns: seq<Turn>, i: nat)
    requires i < |turns|
  {
    || Overdue(start, timeout, turns, i)
    || turns[i].arrival.Error?
    || (turns[i].arrival.Rtp? && !turns[i].open)
  }

  /** `stop` is the first turn in which the loop ends, or there is none. */
  ghost predicate StopsAt(start: nat, timeout: nat, turns: seq<Turn>, stop: nat) {
    && stop <= |turns|
    && (forall i :: 0 <= i < stop ==> !EndsAt(start, timeout, turns, i))
    && (stop < |turns| ==> EndsAt(start, timeout, turns, stop))
  }

  /** The loop ends in turn `stop` by its own timeout. */
  predicate TimesOut(start: nat, timeout: nat, turns: seq<Turn>, stop: nat) {
    stop < |turns| && !turns[stop].cancelled && Overdue(start, timeout, turns, stop)
  }

  /** The payloads of the first `n` turns that parsed. */
  function Parsed(turns: seq<Turn>, n: nat): seq<seq<u8>>
    requires n <= |turns|
  {
    if n == 0 then []
    else Parsed(turns, n - 1) + if turns[n - 1].arrival.Rtp? then [turns[n - 1].arrival.payload] else []
  }

  /** The receive loop over any turns. It runs up to the first turn that is overdue, has a socket error
      or finds the channel closed, and forwards the payloads parsed until then in order. It fires its
      timeout exactly when that turn is not cancelled and a full timeout has passed since the start and
      since every packet that parsed, even if the turn has a packet waiting. */
  method ReceiveLoop(start: nat, timeout: nat, turns: seq<Turn>)
      returns (forwarded: seq<seq<u8>>, timedOut: bool, stop: nat)
    requires Chronological(start, turns)
    ensures StopsAt(start, timeout, turns, stop)
    ensures timedOut <==> TimesOut(start, timeout, turns, stop)
    ensures timedOut ==>
              && turns[stop].now >= start + timeout
              && (forall i :: 0 <= i < stop && turns[i].arrival.Rtp? ==> turns[stop].now >= turns[i].handled + timeout)
    ensures forwarded == Parsed(turns, stop)
  {
    forwarded, timedOut, stop := [], false, 0;
    var deadline := new Deadline(start, timeout);
    while stop < |turns|
      invariant 0 <= stop <= |turns| && !timedOut
      invariant deadline.duration == timeout && deadline.expiry == LastParsed(start, turns, stop) + timeout
      invariant forwarded == Parsed(turns, stop)
      invariant forall i :: 0 <= i < stop ==> !EndsAt(start, timeout, turns, i)
    {
      var turn := turns[stop];
      if turn.cancelled {
        return;
      }
      if deadline.Fired(turn.now) {
        LastParsedIsLatest(start, turns, stop);
        timedOut := true;
        return;
      }
      match turn.arrival {
        case Nothing =>
        case Error => return;
        case Unparsable =>
        case Rtp(payload) =>
          deadline.Reset(turn.handled);
          if !turn.open {
            return;
          }
          forwarded := forwarded + [payload];
      }
      stop := stop + 1;
    }
  }
}
