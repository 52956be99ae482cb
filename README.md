# Covers: a verified model of the per-shade controller

This project models the controller in `covers.py`. The controller drives a
motorised window shade through two relays, one for opening and one for
closing. Each shade (`Shade`) takes `OPEN` / `STOP` / `CLOSE` commands from the
message bus. It writes `ON` / `OFF` to its relays, and it commits a logical state
(stopped, opening, closing) only after relay feedback confirms the expected
relay combination. On a fixed tick it estimates the position by integrating the
direction of travel. The position is clamped to `0..max_position`, and when the
shade reaches an edge while not stopped it forces a stop and reports "open" or
"closed".

The model also covers the configuration validator `_is_config_valid`,
`_shades_from_config`, the topic formatting of `Shade._topics`, and the
dashboard generator `genconfig.py`, which turns a cover-to-inputs mapping into
MQTT switches and automations.

Files and modules:

- `wrappers.dfy` (`Wrappers`): `Option`.
- `decimal.dfy` (`Decimal`): `str()` of a non-negative position, and reading it back.
- `topics.dfy` (`Topics`): `TOPIC_FORMAT`, the `Entity` and `Action` enumerations, and the eight subjects of a shade.
- `protocol.dfy` (`Protocol`): payload constants, the logical states, and the messages a shade sends, with their encoding on the bus.
- `covers.dfy` (`Covers`): the class `Shade`, its transition table and its tick.
- `config.dfy` (`Config`): `_is_config_valid` and `_shades_from_config`.
- `genconfig.py` is modelled in `genconfig.dfy` (`GenConfig`).
- `scenario.dfy` (`Scenario`): a client of `Shade`. The shade "kitchen" closes from 100 to 0 with increment 2.

How the model is built:

- **Side effects.** Relay writes and bus publications are appended to the field
  `log` of `Shade` as typed `Publication` values. `Protocol.Wire` gives the
  (subject, payload) pair each one is sent as.
- **Feedback waits.** A handler that waits for feedback (`_state_opening`,
  `_state_closing`, `_state_stopped`) leaves what remains of it in the field
  `pending`. `Shade.AwaitFeedback` is one pass of the wait loop. It commits if
  and only if the relay flags match the awaited combination. Otherwise it
  changes nothing.
- **Serialisation.** Commands and ticks start only when no handler is waiting.
  Relay feedback can arrive at any time.
- **Invariant.** `Shade.Valid` holds in every reachable state. It says:
  - the position is within `0..maxPosition`;
  - the direction agrees with the logical state;
  - each relay was last commanded ON exactly when the motion being driven needs it, so the message history never has both relays commanded ON at once;
  - in the history of committed states, Opening and Closing are always entered from Stopped. A reversal therefore passes through Stopped.

  Inside one `asyncio.gather` the source does not fix the order in which
  the gathered writes and publications go out. The model logs them in the
  order the source lists them, and the exact logs stated by `ReportEdge`,
  `TrackPositionStep` and `Scenario.KitchenCloses` follow that convention.
  The safety invariant does not depend on it: `Protocol.GatherKeepsNeverBothOn`
  and `Covers.TransitionWritesAnyOrder` prove that "never both relays ON"
  holds for every order of a gather's writes.

## Model

| member | source | states |
|---|---|---|
| `Decimal.DecimalString` | covers.py:254-257 | the published position text is non-empty and all digits, with no leading zero |
| `Decimal.ParseDecimalString` | covers.py:254-257 | reading the published position text back gives the position |
| `Decimal.DecimalStringInjective` | covers.py:254-257 | two positions are published as the same text exactly when they are equal |
| `Topics.TopicInjective` | covers.py:33 | when base, entity and name contain no '/', a formatted subject determines all four of its parts |
| `Topics.MakeTopics` | covers.py:114-174 | the eight subjects of `_topics`, each `TOPIC_FORMAT` of a base, an entity, a name and an action; `Topics.ShadeTopicsDistinct` proves the published ones distinct |
| `Topics.ShadeTopicsDistinct` | covers.py:118-174 | when the names contain no '/' and the two relays differ, the shade's state, position and two relay command subjects are pairwise distinct, and so are its two relay state subjects |
| `Protocol.ParseCommand` | covers.py:233-238 | a recognised cover payload is exactly the payload of the command it dispatches to; anything else dispatches nothing |
| `Protocol.ParseCommandPayload` | covers.py:233-238 | `OPEN`, `STOP` and `CLOSE` dispatch to set_open, set_stop and set_close |
| `Protocol.FeedbackValue` | covers.py:211-220 | relay feedback `ON` sets the flag, `OFF` clears it, and any other payload leaves it unchanged |
| `Protocol.Wire` | covers.py:254-257 | the subject and payload each publish call sends (also lines 264-283, 376-379, 408-411 and 418-445); `Protocol.UnwireWire` proves it loses nothing |
| `Protocol.UnwireWire` | covers.py:254-283 | when the published subjects are distinct, every relay write, state, edge and position message can be decoded back from its subject and payload |
| `Protocol.NeverBothOnSnoc` | covers.py:415-445 | appending a relay write keeps "never both commanded ON" unless it switches a relay ON while its partner is commanded ON |
| `Protocol.GatherKeepsNeverBothOn` | covers.py:262-284 | the messages of one gather keep "never both commanded ON" in every order, when they switch at most one relay ON and its partner is OFF before them |
| `Covers.Corroborated` | covers.py:363-412 | the three wait conditions: open ON and close OFF, close ON and open OFF, both OFF; `Covers.Shade.AwaitFeedback` commits exactly when it holds |
| `Covers.Transition` | covers.py:304-358 | the table itself: Open from Stopped awaits opening, Close from Stopped awaits closing, Stop always awaits stopped and then finishes, Open while Closing awaits stopped and then opens, Close while Opening awaits stopped and then closes, and Open while Opening or Close while Closing does nothing. A command writes relays exactly when it starts a wait. Awaiting opening leaves open ON and close OFF, awaiting closing the reverse, and every stop wait writes both relays OFF |
| `Covers.TransitionWrites` | covers.py:304-358 | the writes of a command, as the unordered set one gather sends: Open from Stopped writes close OFF and open ON, Close from Stopped writes close ON and open OFF, and every stop wait writes exactly close OFF and open OFF |
| `Covers.TransitionWritesAnyOrder` | covers.py:304-358 | the relay writes of any command, sent in any order, keep "never both relays ON" when the relays were commanded for the current state |
| `Covers.TickPosition` | covers.py:243-248 | the new position is the point of 0..max_position nearest to position + direction*increment. The direction is kept when that sum is in range and becomes stopped otherwise |
| `Covers.TickOutput` | covers.py:250-284 | a tick never switches a relay ON. It publishes the position exactly when strictly inside the range while moving, or at an edge while not stopped. It publishes "closed" exactly at 0 and "open" exactly at max_position when not stopped, and nothing but a position when stopped |
| `Covers.StopsBetweenSnoc` | covers.py:363-412 | committing Opening or Closing right after Stopped keeps every non-stopped commit preceded by Stopped |
| `Covers.Shade.constructor` | covers.py:71-112 | a new shade is stopped at max_position, with direction stopped, both relay flags off, no messages sent, and its subjects formatted from its names |
| `Covers.Shade.Publish` | covers.py:415-445 | a message is appended to the history, which keeps never having both relays commanded ON |
| `Covers.Shade.OnRelayMessage` | covers.py:201-220 | feedback on the open (close) relay state subject updates only the open (close) flag, as FeedbackValue; messages on other subjects change nothing |
| `Covers.Shade.OnCoverMessage` | covers.py:229-238 | a recognised payload on the cover command subject performs that command's transition; anything else changes nothing |
| `Covers.Shade.SetOpen` | covers.py:304-326 | from Stopped: close OFF, open ON, then wait for opening. From Closing: both OFF, then wait for stopped before opening. From Opening: nothing. The invariant is kept |
| `Covers.Shade.SetStop` | covers.py:328-334 | both relays OFF, then wait for both to report OFF |
| `Covers.Shade.SetClose` | covers.py:336-358 | from Stopped: close ON, open OFF, then wait for closing. From Opening: both OFF, then wait for stopped before closing. From Closing: nothing |
| `Covers.Shade.AwaitFeedback` | covers.py:288-412 | commits exactly when the feedback corroborates the wait: Opening (direction +1, publishes "opening"), Closing (direction -1, publishes "closing") or Stopped (direction 0, publishes nothing). A reversal commits Stopped before its second half switches the new relay ON. Without corroboration nothing changes |
| `Covers.Shade.TrackPositionStep` | covers.py:242-286 | position and direction become TickPosition of the old ones, the messages sent are TickOutput, and at an edge reached while not stopped the shade waits for the stop |
| `Covers.Shade.ReportEdge` | covers.py:259-284 | the edge branch runs set_stop and publishes the position and the edge reached |
| `Config.IsConfigValid` | covers.py:461-478 | raises `KeyError` exactly when the scan reaches a cover whose keys are all allowed but which lacks one of them. The key is "open" when the first such cover lacks "open", since line 469 indexes it first, and "close" otherwise. Otherwise it answers true exactly when every key is "open" or "close" and no relay id occurs twice in the whole configuration |
| `Config.RaisesAtUnique` | covers.py:465-471 | only one cover can be the first to raise, so the raised key is determined |
| `Config.CheckKeys` | covers.py:465-468 | the key loop accepts a cover exactly when each of its keys is "open" or "close" |
| `Config.AddRelays` | covers.py:472-477 | the value loop appends the cover's relay ids in order when none was seen before, and otherwise stops at a relay id already collected |
| `Config.NoMissingKey` | covers.py:465-477 | a scan that answers False at a cover, with all earlier covers complete, raises no `KeyError` and the configuration is invalid |
| `Config.SharedRelayInvalid` | covers.py:469-471 | a cover whose open and close relay are the same (two different entries with one relay id) makes the configuration invalid |
| `Config.RepeatedRelayInvalid` | covers.py:472-475 | a relay id met again during the scan makes the configuration invalid |
| `Config.AcceptedIsWellFormed` | covers.py:456-478 | a configuration accepted without `KeyError` has both keys in every cover, so `_shades_from_config` can index them |
| `Config.ShadesFromConfig` | covers.py:448-458 | one shade per cover, in configuration order, with that cover's name and its "open" and "close" relays |
| `Config.NewShade` | covers.py:456 | each shade is built from its cover's name, relays, host and the two bases, which fix all its subjects, with the constructor defaults scale 100 and increment 2. It starts stopped at 100 with both relays OFF and nothing sent |
| `Config.BuildShades` | covers.py:448-458 | one new, distinct `Shade` object per cover, in configuration order. Each has the cover's name and relays, the host, the subjects formatted from the two bases and the defaults. Each starts in the initial state and satisfies the invariant |
| `Config.ValidConfigShadesDisjoint` | covers.py:461-478 | from a valid configuration, every shade has two different relays and no two shades share a relay |
| `GenConfig.Replace` | genconfig.py:9 | `replace` of one character: the same length, every occurrence of the old character replaced by the new one, every other character kept |
| `GenConfig.CleanName` | genconfig.py:9 | `name.replace("_", " ")` as an instance of `GenConfig.Replace`; `GenConfig.CleanNameHasNoUnderscore` and `GenConfig.ReplaceBack` constrain it |
| `GenConfig.CleanNameHasNoUnderscore` | genconfig.py:9 | a cleaned name contains no '_' |
| `GenConfig.OpenSwitch` | genconfig.py:11-19 | the open switch record: "{cleaned} open" with the open input's command and state subjects; `GenConfig.Generate` places it at index 2c and `GenConfig.TriggersOnOwnSwitches` ties it to the open automations |
| `GenConfig.CloseSwitch` | genconfig.py:21-29 | the close switch record: "{cleaned} close" with the close input's subjects; `GenConfig.Generate` places it at index 2c + 1 |
| `GenConfig.OpenStart` | genconfig.py:31-45 | the open-start automation; `GenConfig.TriggerTransitions`, `TriggerEntities` and `AutomationActions` state its trigger and action |
| `GenConfig.OpenStop` | genconfig.py:47-61 | the open-stop automation, constrained by the same three lemmas |
| `GenConfig.CloseStart` | genconfig.py:63-77 | the close-start automation, with the alias as written; `GenConfig.StartAliasesCoincide` states the alias |
| `GenConfig.CloseStop` | genconfig.py:79-93 | the close-stop automation, constrained by the same lemmas |
| `GenConfig.Generate` | genconfig.py:6-93 | for n covers, exactly 2n switches (open before close) and 4n automations (open-start, open-stop, close-start, close-stop), in input order |
| `GenConfig.TriggerTransitions` | genconfig.py:30-93 | start automations trigger on off to on, stop automations on on to off |
| `GenConfig.TriggerEntities` | genconfig.py:36-84 | the open automations trigger on "switch.{name}_open" and the close automations on "switch.{name}_close", with the uncleaned name |
| `GenConfig.AutomationActions` | genconfig.py:40-91 | the four actions are open_cover, stop_cover, close_cover and stop_cover, each on "cover.{name}" |
| `GenConfig.ReplaceBack` | genconfig.py:9 | replacing back undoes a replacement whose new character did not occur in the text, so a cleaned name without spaces gives its name back |
| `GenConfig.ToggleTriggersOnSwitch` | genconfig.py:9-39 | a toggle automation for a role triggers on the entity id derived from the display name of that role's switch, when name and role have no spaces |
| `GenConfig.TriggersOnOwnSwitches` | genconfig.py:9-84 | the four automations of a cover without spaces in its name trigger on the entity ids of the open and close switches generated for that same cover |
| `GenConfig.StartAliasesCoincide` | genconfig.py:63-65 | the close-start automation carries the open-start alias; the two stop aliases differ |
| `Scenario.StartClosing` | covers.py:336-344 | Close on a fresh shade, confirmed by feedback, leaves it closing from 100 after "closing" is published |
| `Scenario.KitchenCloses` | covers.py:240-286 | 49 ticks publish 98, 96, ..., 2. The 50th reaches 0: it writes both relays OFF and publishes 0 and "closed". Confirming the stop leaves the shade stopped at 0 |

## Left out

- MQTT client plumbing (`run`, `subscribe`, `filtered_messages`, the client connection): messages sent are appended to the log and messages received are method calls. The relay-state wildcard subject is computed but the subscription itself is not modelled.
- asyncio concurrency (`gather`, the four locks, `sleep`, `main`). Each handler runs as sequential steps. The messages of one gather are logged in listing order, which the source does not fix. `Covers.Shade.ReportEdge`, `Covers.Shade.TrackPositionStep` and `Scenario.KitchenCloses` state that order as a convention. Only "never both relays ON" is proved for every order.
- Ticks while a command waits for feedback. The source keeps ticking during a command's wait. The model starts a tick only when no handler is waiting, so it does not capture position updates during the stop wait of a reversal or of a stop command, nor a boundary stop that overlaps a command's wait.
- Termination of the feedback wait loops: they have no timeout. A wait is a step that commits only on matching feedback and may be repeated forever.
- The float computation `int(round(max_position * sleep_time / max_time))`: the increment is a natural-number parameter. The shades built from a configuration use 2, the value for the defaults 100, 0.5 s and 30 s.
- Command-line parsing, YAML loading, `sys.exit`, logging setup and log lines.
- `TOPIC_REGEX`: it is never used by the controller, so no topic parser is modelled. `Protocol.Unwire` only reads back the shade's own messages.
- `Config.ShadesFromConfig` and `Config.BuildShades` require both keys in every cover. The source raises `KeyError` there, and it is only ever called after `_is_config_valid` accepted the configuration (`Config.AcceptedIsWellFormed`). Distinct keys per cover are a precondition everywhere, because a YAML mapping is a dictionary.
- genconfig.py's file read, YAML dump and the YAML types of the input ids: input ids are taken as the text the f-strings insert.
- How Home Assistant derives a switch's entity id from its display name is outside the generator. `GenConfig.Underscored` models it only for lower-case names: spaces become underscores. Lower-casing and other slug rules are not modelled.
- The close-start automation repeats the "open start" alias (genconfig.py:65). The model keeps this alias as the source writes it and does not correct it.
