/**
 * What a shade exchanges over the bus (covers.py): the payload constants of
 * `Payload`, the logical states of `Shade`, and the publications a shade
 * makes, with their encoding as (subject, payload) pairs.
 */
module Protocol {
  import opened Wrappers
  import opened Decimal
  import opened Topics

  const ON: string := "ON"
  const OFF: string := "OFF"
  const OPEN: string := "OPEN"
  const CLOSE: string := "CLOSE"
  const STOP: string := "STOP"

  /** The logical state of a shade (`Shade.STOPPED`, `OPENING`, `CLOSING`). */
  datatype State = Stopped | Opening | Closing {
    function Value(): (payload: string) {
      match this
      case Stopped => "stopped"
      case Opening => "opening"
      case Closing => "closing"
    }
  }

  /** An end of travel reported on the cover state subject (`Shade.OPEN`, `Shade.CLOSED`). */
  datatype Edge = FullyOpen | FullyClosed {
    function Value(): (payload: string) {
      match this
      case FullyOpen => "open"
      case FullyClosed => "closed"
    }
  }

  datatype Relay = OpenRelay | CloseRelay {
    function Partner(): (other: Relay) {
      match this
      case OpenRelay => CloseRelay
      case CloseRelay => OpenRelay
    }
  }

  /** The commands a cover accepts on its command subject. */
  datatype Command = OpenCommand | StopCommand | CloseCommand

  /** One message a shade sends: a relay write or a publication on a cover subject. */
  datatype Publication =
    | RelayCommand(relay: Relay, on: bool)
    | StateChange(state: State)
    | EdgeReached(edge: Edge)
    | PositionUpdate(position: nat)

  function CommandPayload(c: Command): (payload: string) {
    match c
    case OpenCommand => OPEN
    case StopCommand => STOP
    case CloseCommand => CLOSE
  }

  /** The command a cover payload asks for; any other payload is ignored. */
  function ParseCommand(payload: string): (c: Option<Command>)
    ensures c.Some? ==> CommandPayload(c.value) == payload
  {
    if payload == OPEN then Some(OpenCommand)
    else if payload == STOP then Some(StopCommand)
    else if payload == CLOSE then Some(CloseCommand)
    else None
  }

  lemma ParseCommandPayload(c: Command)
    ensures ParseCommand(CommandPayload(c)) == Some(c)
  {
  }

  /**
   * The relay flag after a feedback payload: `ON` sets it, `OFF` clears it,
   * anything else leaves it as it was.
   */
  function FeedbackValue(payload: string, current: bool): (r: bool)
    ensures payload == ON ==> r
    ensures payload == OFF ==> !r
    ensures payload != ON && payload != OFF ==> r == current
  {
    if payload == ON then true
    else if payload == OFF then false
    else current
  }

  /** The (subject, payload) pair a publication is sent as. */
  function Wire(p: Publication, t: ShadeTopics): (message: (string, string)) {
    match p
    case RelayCommand(r, on) =>
      (if r == OpenRelay then t.openRelayCommand else t.closeRelayCommand, if on then ON else OFF)
    case StateChange(s) => (t.coverState, s.Value())
    case EdgeReached(e) => (t.coverState, e.Value())
    case PositionUpdate(n) => (t.coverPosition, DecimalString(n))
  }

  function ParseStatePayload(payload: string): (p: Option<Publication>) {
    if payload == Stopped.Value() then Some(StateChange(Stopped))
    else if payload == Opening.Value() then Some(StateChange(Opening))
    else if payload == Closing.Value() then Some(StateChange(Closing))
    else if payload == FullyOpen.Value() then Some(EdgeReached(FullyOpen))
    else if payload == FullyClosed.Value() then Some(EdgeReached(FullyClosed))
    else None
  }

  function ParseSwitch(payload: string): (on: Option<bool>) {
    if payload == ON then Some(true) else if payload == OFF then Some(false) else None
  }

  /** Reads a sent (subject, payload) pair back as the publication it came from. */
  function Unwire(topic: string, payload: string, t: ShadeTopics): (p: Option<Publication>) {
    if topic == t.openRelayCommand then
      (match ParseSwitch(payload) case Some(on) => Some(RelayCommand(OpenRelay, on)) case None => None)
    else if topic == t.closeRelayCommand then
      (match ParseSwitch(payload) case Some(on) => Some(RelayCommand(CloseRelay, on)) case None => None)
    else if topic == t.coverState then ParseStatePayload(payload)
    else if topic == t.coverPosition && |payload| > 0 && AllDigits(payload) then
      Some(PositionUpdate(ParseDecimal(payload)))
    else None
  }

  /** When the published subjects are distinct, the encoding loses nothing. */
  lemma UnwireWire(p: Publication, t: ShadeTopics)
    requires PublishedTopicsDistinct(t)
    ensures Unwire(Wire(p, t).0, Wire(p, t).1, t) == Some(p)
  {
    match p
    case PositionUpdate(n) => ParseDecimalString(n);
    case _ =>
  }

  /**
   * Whether relay `r` was last commanded ON in `log` (a relay never written
   * to counts as OFF, the state it starts in).
   */
  function Commanded(log: seq<Publication>, r: Relay): (on: bool) {
    if log == [] then false
    else
      var last := log[|log| - 1];
      if last.RelayCommand? && last.relay == r then last.on else Commanded(log[..|log| - 1], r)
  }

  predicate BothOn(log: seq<Publication>) {
    Commanded(log, OpenRelay) && Commanded(log, CloseRelay)
  }

  /** At no point of the message history were both relays commanded ON. */
  predicate NeverBothOn(log: seq<Publication>) {
    forall k :: 0 <= k <= |log| ==> !BothOn(log[..k])
  }

  lemma CommandedSnoc(log: seq<Publication>, p: Publication, r: Relay)
    ensures Commanded(log + [p], r)
         == if p.RelayCommand? && p.relay == r then p.on else Commanded(log, r)
  {
    assert (log + [p])[..|log|] == log;
  }

  /**
   * Appending a message keeps the history safe unless it switches a relay ON
   * while its partner is commanded ON.
   */
  lemma NeverBothOnSnoc(log: seq<Publication>, p: Publication)
    requires NeverBothOn(log)
    requires p.RelayCommand? && p.on ==> !Commanded(log, p.relay.Partner())
    ensures NeverBothOn(log + [p])
  {
    var log' := log + [p];
    CommandedSnoc(log, p, OpenRelay);
    CommandedSnoc(log, p, CloseRelay);
    forall k | 0 <= k <= |log'|
      ensures !BothOn(log'[..k])
    {
      if k <= |log| {
        assert log'[..k] == log[..k];
      } else {
        assert log'[..k] == log';
        assert log[..|log|] == log;
      }
    }
  }

  /**
   * The writes of one `asyncio.gather` keep the history safe in whatever
   * order they are sent, as long as they switch at most one relay `r` ON
   * and `r`'s partner is not commanded ON before them.
   */
  lemma {:induction false} GatherKeepsNeverBothOn(log: seq<Publication>, ws: seq<Publication>, r: Relay)
    requires NeverBothOn(log) && !Commanded(log, r.Partner())
    requires forall p :: p in ws && p.RelayCommand? && p.on ==> p.relay == r
    ensures NeverBothOn(log + ws)
    ensures !Commanded(log + ws, r.Partner())
  {
    if ws != [] {
      var init, p := ws[..|ws| - 1], ws[|ws| - 1];
      assert ws == init + [p];
      GatherKeepsNeverBothOn(log, init, r);
      assert log + ws == (log + init) + [p];
      CommandedSnoc(log + init, p, r.Partner());
      NeverBothOnSnoc(log + init, p);
    } else {
      assert log + ws == log;
    }
  }
}
