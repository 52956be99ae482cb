/**
 * A client of `Shade`: the shade "kitchen" (scale 100, increment 2) is told
 * to close, its relays confirm, 50 ticks bring it from 100 to 0, and the
 * boundary stop is confirmed.
 */
module Scenario {
  import opened Wrappers
  import opened Protocol
  import opened Topics
  import opened Covers

  const KitchenStart: seq<Publication> := [RelayCommand(CloseRelay, true), RelayCommand(OpenRelay, false), StateChange(Closing)]

  /** The close command and its confirmation: the shade is closing from 100. */
  method StartClosing() returns (shade: Shade)
    ensures fresh(shade) && shade.Valid() && shade.pending == Idle
    ensures shade.state == Closing && shade.direction == DirectionClosing
    ensures shade.position == 100 && shade.maxPosition == 100 && shade.increment == 2
    ensures shade.log == KitchenStart
    ensures !shade.openRelayState && shade.closeRelayState
    ensures shade.topics.openRelayState != shade.topics.closeRelayState
  {
    shade := new Shade("kitchen", "1", "2", "broker", "homeassistant", "shady", 100, 2);
    assert SlashFree("kitchen") && SlashFree("1") && SlashFree("2");
    assert SlashFree("homeassistant") && SlashFree("shady");
    ShadeTopicsDistinct("kitchen", "1", "2", "homeassistant", "shady");
    var t := shade.topics;
    assert ParseCommand(CLOSE) == Some(CloseCommand);
    shade.OnCoverMessage(t.coverCommand, CLOSE);
    assert shade.pending == AwaitClosing;
    shade.OnRelayMessage(t.openRelayState, OFF);
    shade.OnRelayMessage(t.closeRelayState, ON);
    var committed := shade.AwaitFeedback();
  }

  method KitchenCloses() returns (published: seq<Publication>, finalPosition: int, finalState: State)
    ensures |published| == 3 + 49 + 4
    ensures published[..3] == KitchenStart
    ensures forall i :: 0 <= i < 49 ==> published[3 + i] == PositionUpdate(98 - 2 * i)
    ensures published[52..] == [RelayCommand(CloseRelay, false), RelayCommand(OpenRelay, false),
                                PositionUpdate(0), EdgeReached(FullyClosed)]
    ensures finalPosition == 0 && finalState == Stopped
  {
    var shade := StartClosing();
    var i := 0;
    while i < 49
      invariant 0 <= i <= 49
      invariant shade.Valid() && shade.pending == Idle
      invariant shade.state == Closing && shade.direction == DirectionClosing
      invariant shade.position == 100 - 2 * i
      invariant !shade.openRelayState
      invariant |shade.log| == 3 + i
      invariant shade.log[..3] == KitchenStart
      invariant forall j :: 0 <= j < i ==> shade.log[3 + j] == PositionUpdate(98 - 2 * j)
    {
      shade.TrackPositionStep();
      i := i + 1;
    }
    shade.TrackPositionStep();
    assert shade.position == 0;
    shade.OnRelayMessage(shade.topics.closeRelayState, OFF);
    var committed := shade.AwaitFeedback();
    published, finalPosition, finalState := shade.log, shade.position, shade.state;
  }
}
