/**
 * The per-shade controller of covers.py: class `Shade`, a sequential model
 * of its three activities (command dispatch, relay feedback, position tick).
 *
 * Every relay write and every bus publication is appended to `log`. A
 * handler that waits for relay feedback (`_state_opening`, `_state_closing`,
 * `_state_stopped`) leaves its continuation in `pending`; `AwaitFeedback`
 * is one pass of that wait loop and commits only on corroborating feedback.
 */
module Covers {
  import opened Protocol
  import opened Topics

  const DirectionOpening: int := 1
  const DirectionClosing: int := -1
  const DirectionStopped: int := 0

  /** What `set_open` / `set_close` still do once a reversal's stop is confirmed. */
  datatype Resume = Finish | ThenOpen | ThenClose

  /** The feedback wait the shade is parked in, if any. */
  datatype Pending = Idle | AwaitOpening | AwaitClosing | AwaitStopped(resume: Resume)

  /** The relay writes a command makes and the feedback wait it then enters. */
  datatype Effect = Effect(writes: seq<Publication>, await: Pending)

  /** The wait predicates of `_state_opening`, `_state_closing` and `_state_stopped`. */
  predicate Corroborated(p: Pending, openOn: bool, closeOn: bool) {
    match p
    case Idle => false
    case AwaitOpening => openOn && !closeOn
    case AwaitClosing => !openOn && closeOn
    case AwaitStopped(_) => !openOn && !closeOn
  }

  /** The writes of `set_stop`: both relays OFF. */
  const StopWrites: seq<Publication> := [RelayCommand(CloseRelay, false), RelayCommand(OpenRelay, false)]

  /** The transition table of `set_open`, `set_stop` and `set_close`, up to the first wait. */
  function Transition(state: State, cmd: Command): (e: Effect)
    ensures e.await == Idle <==> e.writes == []
    ensures e.await == Idle <==> ((state.Opening? && cmd.OpenCommand?) || (state.Closing? && cmd.CloseCommand?))
    ensures forall p :: p in e.writes ==> p.RelayCommand?
    ensures e.await == AwaitOpening ==> state == Stopped && Commanded(e.writes, OpenRelay) && !Commanded(e.writes, CloseRelay)
    ensures e.await == AwaitClosing ==> state == Stopped && Commanded(e.writes, CloseRelay) && !Commanded(e.writes, OpenRelay)
    ensures e.await.AwaitStopped? ==> forall p :: p in e.writes ==> !p.on
    ensures e.await.AwaitStopped? ==>
      && RelayCommand(OpenRelay, false) in e.writes && RelayCommand(CloseRelay, false) in e.writes
      && !Commanded(e.writes, OpenRelay) && !Commanded(e.writes, CloseRelay)
    ensures state.Stopped? && cmd.OpenCommand? ==> e.await == AwaitOpening
    ensures state.Stopped? && cmd.CloseCommand? ==> e.await == AwaitClosing
    ensures cmd.StopCommand? ==> e.await == AwaitStopped(Finish)
    ensures state.Closing? && cmd.OpenCommand? ==> e.await == AwaitStopped(ThenOpen)
    ensures state.Opening? && cmd.CloseCommand? ==> e.await == AwaitStopped(ThenClose)
  {
    match cmd
    case OpenCommand =>
      if state == Stopped then Effect([RelayCommand(CloseRelay, false), RelayCommand(OpenRelay, true)], AwaitOpening)
      else if state == Closing then Effect(StopWrites, AwaitStopped(ThenOpen))
      else Effect([], Idle)
    case StopCommand => Effect(StopWrites, AwaitStopped(Finish))
    case CloseCommand =>
      if state == Stopped then Effect([RelayCommand(CloseRelay, true), RelayCommand(OpenRelay, false)], AwaitClosing)
      else if state == Opening then Effect(StopWrites, AwaitStopped(ThenClose))
      else Effect([], Idle)
  }

  /**
   * What a command writes, as the set of writes one `asyncio.gather` sends:
   * a start from Stopped switches its own relay ON and the other OFF, and
   * every stop wait switches both OFF.
   */
  lemma TransitionWrites(state: State, cmd: Command)
    ensures var e := Transition(state, cmd);
      && (state.Stopped? && cmd.OpenCommand? ==>
            multiset(e.writes) == multiset{RelayCommand(CloseRelay, false), RelayCommand(OpenRelay, true)})
      && (state.Stopped? && cmd.CloseCommand? ==>
            multiset(e.writes) == multiset{RelayCommand(CloseRelay, true), RelayCommand(OpenRelay, false)})
      && (e.await.AwaitStopped? ==> multiset(e.writes) == multiset(StopWrites))
  {
  }

  /**
   * The relay writes of a command keep the history safe in any order, so
   * the order `asyncio.gather` happens to run them in does not matter.
   */
  lemma TransitionWritesAnyOrder(log: seq<Publication>, state: State, cmd: Command, ws: seq<Publication>)
    requires NeverBothOn(log)
    requires Commanded(log, OpenRelay) == state.Opening? && Commanded(log, CloseRelay) == state.Closing?
    requires multiset(ws) == multiset(Transition(state, cmd).writes)
    ensures NeverBothOn(log + ws)
  {
    var r := if state.Closing? then CloseRelay else OpenRelay;
    if state.Stopped? && cmd.CloseCommand? {
      r := CloseRelay;
    }
    forall p | p in ws && p.RelayCommand? && p.on
      ensures p.relay == r
    {
      assert p in multiset(Transition(state, cmd).writes);
    }
    GatherKeepsNeverBothOn(log, ws, r);
  }

  function Distance(a: int, b: int): (d: nat) {
    if a >= b then a - b else b - a
  }

  /**
   * One position step of `_track_position`: the new position and direction.
   * The position is the point of 0..maxPosition nearest to the unclamped
   * step, and the direction survives only a step that stays in range.
   */
  function TickPosition(position: int, direction: int, increment: nat, maxPosition: nat): (r: (int, int))
    requires 0 <= position <= maxPosition
    ensures 0 <= r.0 <= maxPosition
    ensures Nearest(r.0, position + direction * increment, maxPosition)
    ensures r.1 == if 0 <= position + direction * increment <= maxPosition then direction else DirectionStopped
  {
    var newPosition := position + direction * increment;
    if !(0 <= newPosition <= maxPosition) then
      (Max(Min(maxPosition, newPosition), 0), DirectionStopped)
    else
      (newPosition, direction)
  }

  /** `x` is a point of 0..hi nearest to `target`. */
  predicate Nearest(x: int, target: int, hi: nat) {
    0 <= x <= hi && forall q :: 0 <= q <= hi ==> Distance(x, target) <= Distance(q, target)
  }

  function Min(a: int, b: int): (m: int) { if a <= b then a else b }
  function Max(a: int, b: int): (m: int) { if a >= b then a else b }

  /**
   * What one tick sends after the position step: the position while moving
   * strictly inside the range, and at an edge reached while not stopped, the
   * writes of `set_stop` with the position and "closed" or "open".
   */
  function TickOutput(position: nat, direction: int, state: State, maxPosition: nat): (out: seq<Publication>)
    ensures forall p :: p in out ==> p != RelayCommand(OpenRelay, true) && p != RelayCommand(CloseRelay, true)
    ensures PositionUpdate(position) in out <==>
              ((0 < position < maxPosition && direction != DirectionStopped)
               || ((position == 0 || position == maxPosition) && state != Stopped))
    ensures forall p :: p in out && p.PositionUpdate? ==> p.position == position
    ensures EdgeReached(FullyClosed) in out <==> position == 0 && state != Stopped
    ensures EdgeReached(FullyOpen) in out <==> position == maxPosition && position != 0 && state != Stopped
    ensures state == Stopped ==> forall p :: p in out ==> p.PositionUpdate?
  {
    var moving := if 0 < position < maxPosition && direction != DirectionStopped then [PositionUpdate(position)] else [];
    var edge :=
      if position == 0 && state != Stopped then StopWrites + [PositionUpdate(position), EdgeReached(FullyClosed)]
      else if position == maxPosition && state != Stopped then StopWrites + [PositionUpdate(position), EdgeReached(FullyOpen)]
      else [];
    moving + edge
  }

  /** The motion the relays are currently commanded for. */
  function Driving(state: State, pending: Pending): (motion: State) {
    match pending
    case Idle => state
    case AwaitOpening => Opening
    case AwaitClosing => Closing
    case AwaitStopped(_) => Stopped
  }

  /** In a history of committed states, Opening and Closing are each entered from Stopped. */
  ghost predicate StopsBetween(h: seq<State>) {
    |h| <= 1 || ((h[|h| - 1] != Stopped ==> h[|h| - 2] == Stopped) && StopsBetween(h[..|h| - 1]))
  }

  lemma StopsBetweenSnoc(h: seq<State>, s: State)
    requires StopsBetween(h) && |h| > 0
    requires s != Stopped ==> h[|h| - 1] == Stopped
    ensures StopsBetween(h + [s])
  {
    assert (h + [s])[..|h|] == h;
  }

  class Shade {
    const cover: string
    const openRelay: string
    const closeRelay: string
    const mqttHost: string
    const maxPosition: nat
    const increment: nat
    const topics: ShadeTopics

    var state: State
    var position: int
    var direction: int
    var openRelayState: bool
    var closeRelayState: bool
    var pending: Pending
    var log: seq<Publication>
    /** The logical states committed so far, oldest first. */
    ghost var history: seq<State>

    ghost predicate Valid()
      reads this
    {
      && 0 <= position <= maxPosition
      && (direction == DirectionOpening || direction == DirectionClosing || direction == DirectionStopped)
      && (direction == DirectionOpening ==> state == Opening)
      && (direction == DirectionClosing ==> state == Closing)
      && (state == Stopped ==> direction == DirectionStopped)
      && (pending == AwaitOpening || pending == AwaitClosing ==> state == Stopped)
      && Commanded(log, OpenRelay) == (Driving(state, pending) == Opening)
      && Commanded(log, CloseRelay) == (Driving(state, pending) == Closing)
      && NeverBothOn(log)
      && |history| > 0 && history[|history| - 1] == state
      && StopsBetween(history)
    }

    /** `Shade.__init__`: stopped, fully open, both relays believed OFF. */
    constructor (cover: string, openRelay: string, closeRelay: string, mqttHost: string,
                 coverBase: string, relayBase: string, maxPosition: nat, increment: nat)
      ensures Valid()
      ensures this.cover == cover && this.openRelay == openRelay && this.closeRelay == closeRelay
      ensures this.mqttHost == mqttHost
      ensures this.maxPosition == maxPosition && this.increment == increment
      ensures topics == MakeTopics(cover, openRelay, closeRelay, coverBase, relayBase)
      ensures state == Stopped && position == maxPosition && direction == DirectionStopped
      ensures !openRelayState && !closeRelayState
      ensures pending == Idle && log == [] && history == [Stopped]
    {
      this.cover := cover;
      this.openRelay := openRelay;
      this.closeRelay := closeRelay;
      this.mqttHost := mqttHost;
      this.maxPosition := maxPosition;
      this.increment := increment;
      this.topics := MakeTopics(cover, openRelay, closeRelay, coverBase, relayBase);
      state := Stopped;
      position := maxPosition;
      direction := DirectionStopped;
      openRelayState := false;
      closeRelayState := false;
      pending := Idle;
      log := [];
      history := [Stopped];
    }

    /** Sends one message; switching a relay ON is allowed only while its partner is commanded OFF. */
    method Publish(p: Publication)
      requires NeverBothOn(log)
      requires p.RelayCommand? && p.on ==> !Commanded(log, p.relay.Partner())
      modifies this`log
      ensures log == old(log) + [p]
      ensures NeverBothOn(log)
      ensures forall r :: Commanded(log, r) == if p.RelayCommand? && p.relay == r then p.on else Commanded(old(log), r)
    {
      NeverBothOnSnoc(log, p);
      CommandedSnoc(log, p, OpenRelay);
      CommandedSnoc(log, p, CloseRelay);
      log := log + [p];
    }

    /** One relay feedback message (`_subscribe_relays`). */
    method OnRelayMessage(topic: string, payload: string)
      requires Valid()
      modifies this`openRelayState, this`closeRelayState
      ensures Valid()
      ensures topic == topics.openRelayState ==>
        openRelayState == FeedbackValue(payload, old(openRelayState)) && closeRelayState == old(closeRelayState)
      ensures topic != topics.openRelayState && topic == topics.closeRelayState ==>
        closeRelayState == FeedbackValue(payload, old(closeRelayState)) && openRelayState == old(openRelayState)
      ensures topic != topics.openRelayState && topic != topics.closeRelayState ==>
        openRelayState == old(openRelayState) && closeRelayState == old(closeRelayState)
    {
      if topic != topics.openRelayState && topic != topics.closeRelayState {
        return;
      }
      if topic == topics.openRelayState {
        openRelayState := FeedbackValue(payload, openRelayState);
      } else if topic == topics.closeRelayState {
        closeRelayState := FeedbackValue(payload, closeRelayState);
      }
    }

    /** One cover command message (`_subscribe_cover`). */
    method OnCoverMessage(topic: string, payload: string)
      requires Valid() && pending == Idle
      modifies this`log, this`pending
      ensures Valid()
      ensures var e := if topic == topics.coverCommand && ParseCommand(payload).Some?
                       then Transition(state, ParseCommand(payload).value)
                       else Effect([], Idle);
              log == old(log) + e.writes && pending == e.await
    {
      if topic != topics.coverCommand {
        return;
      }
      if payload == OPEN {
        SetOpen();
      } else if payload == STOP {
        SetStop();
      } else if payload == CLOSE {
        SetClose();
      }
    }

    /** `set_open`: up to the first feedback wait. */
    method SetOpen()
      requires Valid() && pending == Idle
      modifies this`log, this`pending
      ensures Valid()
      ensures log == old(log) + Transition(state, OpenCommand).writes
      ensures pending == Transition(state, OpenCommand).await
    {
      if state == Stopped {
        Publish(RelayCommand(CloseRelay, false));
        Publish(RelayCommand(OpenRelay, true));
        pending := AwaitOpening;
      } else if state == Closing {
        Publish(RelayCommand(CloseRelay, false));
        Publish(RelayCommand(OpenRelay, false));
        pending := AwaitStopped(ThenOpen);
      }
    }

    /** `set_stop`: both relays OFF, then wait for both to report OFF. */
    method SetStop()
      requires Valid() && pending == Idle
      modifies this`log, this`pending
      ensures Valid()
      ensures log == old(log) + Transition(state, StopCommand).writes
      ensures pending == Transition(state, StopCommand).await
    {
      Publish(RelayCommand(CloseRelay, false));
      Publish(RelayCommand(OpenRelay, false));
      pending := AwaitStopped(Finish);
    }

    /** `set_close`: up to the first feedback wait. */
    method SetClose()
      requires Valid() && pending == Idle
      modifies this`log, this`pending
      ensures Valid()
      ensures log == old(log) + Transition(state, CloseCommand).writes
      ensures pending == Transition(state, CloseCommand).await
    {
      if state == Stopped {
        Publish(RelayCommand(CloseRelay, true));
        Publish(RelayCommand(OpenRelay, false));
        pending := AwaitClosing;
      } else if state == Opening {
        Publish(RelayCommand(CloseRelay, false));
        Publish(RelayCommand(OpenRelay, false));
        pending := AwaitStopped(ThenClose);
      }
    }

    /**
     * One pass of the feedback wait loop. When the relay flags corroborate
     * the awaited combination the state is committed (`_state_opening`,
     * `_state_closing`, `_state_stopped`) and a reversal goes on with its
     * second half; otherwise nothing changes.
     */
    method AwaitFeedback() returns (committed: bool)
      requires Valid() && pending != Idle
      modifies this`state, this`direction, this`pending, this`log, this`history
      ensures Valid()
      ensures committed == Corroborated(old(pending), openRelayState, closeRelayState)
      ensures !committed ==>
        state == old(state) && direction == old(direction) && pending == old(pending)
        && log == old(log) && history == old(history)
      ensures committed ==> history == old(history) + [Driving(old(state), old(pending))]
      ensures committed && old(pending) == AwaitOpening ==>
        state == Opening && direction == DirectionOpening && pending == Idle
        && log == old(log) + [StateChange(Opening)]
      ensures committed && old(pending) == AwaitClosing ==>
        state == Closing && direction == DirectionClosing && pending == Idle
        && log == old(log) + [StateChange(Closing)]
      ensures committed && old(pending) == AwaitStopped(Finish) ==>
        state == Stopped && direction == DirectionStopped && pending == Idle && log == old(log)
      ensures committed && old(pending) == AwaitStopped(ThenOpen) ==>
        state == Stopped && direction == DirectionStopped
        && log == old(log) + Transition(Stopped, OpenCommand).writes
        && pending == Transition(Stopped, OpenCommand).await
      ensures committed && old(pending) == AwaitStopped(ThenClose) ==>
        state == Stopped && direction == DirectionStopped
        && log == old(log) + Transition(Stopped, CloseCommand).writes
        && pending == Transition(Stopped, CloseCommand).await
    {
      committed := Corroborated(pending, openRelayState, closeRelayState);
      if !committed {
        return;
      }
      match pending
      case AwaitOpening =>
        StopsBetweenSnoc(history, Opening);
        state, direction, pending := Opening, DirectionOpening, Idle;
        history := history + [Opening];
        Publish(StateChange(Opening));
      case AwaitClosing =>
        StopsBetweenSnoc(history, Closing);
        state, direction, pending := Closing, DirectionClosing, Idle;
        history := history + [Closing];
        Publish(StateChange(Closing));
      case AwaitStopped(resume) =>
        StopsBetweenSnoc(history, Stopped);
        state, direction, pending := Stopped, DirectionStopped, Idle;
        history := history + [Stopped];
        match resume
        case Finish =>
        case ThenOpen => SetOpen();
        case ThenClose => SetClose();
    }

    /**
     * One iteration of `_track_position`: advance and clamp the position,
     * publish it, and at an edge reached while not stopped run `set_stop`
     * and report the edge.
     */
    method TrackPositionStep()
      requires Valid() && pending == Idle
      modifies this`position, this`direction, this`log, this`pending
      ensures Valid()
      ensures (position, direction) == TickPosition(old(position), old(direction), increment, maxPosition)
      ensures log == old(log) + TickOutput(position, direction, state, maxPosition)
      ensures pending == if (position == 0 || position == maxPosition) && state != Stopped
                         then AwaitStopped(Finish) else Idle
    {
      var newPosition := position + direction * increment;
      if !(0 <= newPosition <= maxPosition) {
        direction := DirectionStopped;
        newPosition := Max(Min(maxPosition, newPosition), 0);
      }
      position := newPosition;
      if 0 < position < maxPosition && direction != DirectionStopped {
        Publish(PositionUpdate(position));
      }
      if position == 0 && state != Stopped {
        ReportEdge(FullyClosed);
      } else if position == maxPosition && state != Stopped {
        ReportEdge(FullyOpen);
      }
    }

    /** The boundary branch of `_track_position`: `set_stop` gathered with the position and edge reports. */
    method ReportEdge(edge: Edge)
      requires Valid() && pending == Idle && state != Stopped
      modifies this`log, this`pending
      ensures Valid()
      ensures log == old(log) + StopWrites + [PositionUpdate(position), EdgeReached(edge)]
      ensures pending == AwaitStopped(Finish)
    {
      SetStop();
      Publish(PositionUpdate(position));
      Publish(EdgeReached(edge));
    }
  }
}
