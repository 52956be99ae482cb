/**
 * The dashboard configuration generator (genconfig.py): for every cover of
 * a cover -> inputs mapping, two MQTT switches and four automations.
 */
module GenConfig {

  /** One cover of the generator's input: its name and its open and close input ids, as text. */
  datatype InputEntry = InputEntry(name: string, openInput: string, closeInput: string)

  datatype Switch = Switch(platform: string, name: string, commandTopic: string, stateTopic: string)

  datatype Trigger = Trigger(platform: string, entityId: string, from: string, to: string)

  datatype ServiceCall = ServiceCall(service: string, entityId: string)

  datatype Automation = Automation(alias: string, trigger: Trigger, action: ServiceCall)

  /** `s.replace(from, to)` for single characters. */
  function Replace(s: string, from: char, to: char): (r: string)
    ensures |r| == |s|
    ensures forall k :: 0 <= k < |s| ==> r[k] == if s[k] == from then to else s[k]
  {
    if s == [] then []
    else [if s[0] == from then to else s[0]] + Replace(s[1..], from, to)
  }

  /** Replacing in a concatenation replaces in each part. */
  lemma ReplaceAppend(s: string, t: string, from: char, to: char)
    ensures Replace(s + t, from, to) == Replace(s, from, to) + Replace(t, from, to)
  {
    var l, r := Replace(s + t, from, to), Replace(s, from, to) + Replace(t, from, to);
    assert |l| == |r|;
    forall k | 0 <= k < |l| ensures l[k] == r[k] {
      if k < |s| { assert (s + t)[k] == s[k]; } else { assert (s + t)[k] == t[k - |s|]; }
    }
  }

  /** Replacing back undoes a replacement whose target did not occur before. */
  lemma ReplaceBack(s: string, from: char, to: char)
    requires to !in s
    ensures Replace(Replace(s, from, to), to, from) == s
  {
    var r := Replace(Replace(s, from, to), to, from);
    assert |r| == |s|;
    forall k | 0 <= k < |s| ensures r[k] == s[k] {
      assert s[k] != to;
    }
  }

  /** `name.replace("_", " ")`. */
  function CleanName(name: string): (cleaned: string) {
    Replace(name, '_', ' ')
  }

  lemma CleanNameHasNoUnderscore(name: string)
    ensures '_' !in CleanName(name)
  {
    var r := CleanName(name);
    forall k | 0 <= k < |r| ensures r[k] != '_' { }
  }

  /** The switch for one input: the cleaned cover name with " open" or " close", and the input's subjects. */
  function InputSwitch(cleaned: string, role: string, input: string): (sw: Switch) {
    Switch("mqtt", cleaned + " " + role,
           "shady/input/" + input + "/command",
           "shady/input/" + input + "/state")
  }

  function OpenSwitch(e: InputEntry): (sw: Switch) {
    InputSwitch(CleanName(e.name), "open", e.openInput)
  }

  function CloseSwitch(e: InputEntry): (sw: Switch) {
    InputSwitch(CleanName(e.name), "close", e.closeInput)
  }

  /** A toggle automation: a state trigger on a switch, calling a cover service on the cover. */
  function Toggle(alias: string, name: string, role: string, from: string, to: string, service: string): (a: Automation) {
    Automation(alias,
               Trigger("state", "switch." + name + "_" + role, from, to),
               ServiceCall("cover." + service, "cover." + name))
  }

  function OpenStart(e: InputEntry): (a: Automation) {
    Toggle("toggle cover " + CleanName(e.name) + " open start", e.name, "open", "off", "on", "open_cover")
  }

  function OpenStop(e: InputEntry): (a: Automation) {
    Toggle("toggle cover " + CleanName(e.name) + " open stop", e.name, "open", "on", "off", "stop_cover")
  }

  /** The close-start automation; its alias repeats the open-start alias, as the generator writes it. */
  function CloseStart(e: InputEntry): (a: Automation) {
    Toggle("toggle cover " + CleanName(e.name) + " open start", e.name, "close", "off", "on", "close_cover")
  }

  function CloseStop(e: InputEntry): (a: Automation) {
    Toggle("toggle cover " + CleanName(e.name) + " close stop", e.name, "close", "on", "off", "stop_cover")
  }

  /**
   * The generator's loop: appends, per cover and in input order, the open
   * and close switches and the open-start, open-stop, close-start and
   * close-stop automations.
   */
  method Generate(config: seq<InputEntry>) returns (switches: seq<Switch>, automations: seq<Automation>)
    ensures |switches| == 2 * |config| && |automations| == 4 * |config|
    ensures forall c :: 0 <= c < |config| ==>
      switches[2 * c] == OpenSwitch(config[c]) && switches[2 * c + 1] == CloseSwitch(config[c])
    ensures forall c :: 0 <= c < |config| ==>
      && automations[4 * c] == OpenStart(config[c])
      && automations[4 * c + 1] == OpenStop(config[c])
      && automations[4 * c + 2] == CloseStart(config[c])
      && automations[4 * c + 3] == CloseStop(config[c])
  {
    switches, automations := [], [];
    for c := 0 to |config|
      invariant |switches| == 2 * c && |automations| == 4 * c
      invariant forall d :: 0 <= d < c ==>
        switches[2 * d] == OpenSwitch(config[d]) && switches[2 * d + 1] == CloseSwitch(config[d])
      invariant forall d :: 0 <= d < c ==>
        && automations[4 * d] == OpenStart(config[d])
        && automations[4 * d + 1] == OpenStop(config[d])
        && automations[4 * d + 2] == CloseStart(config[d])
        && automations[4 * d + 3] == CloseStop(config[d])
    {
      var e := config[c];
      var cleanedName := CleanName(e.name);
      switches := switches + [InputSwitch(cleanedName, "open", e.openInput)];
      switches := switches + [InputSwitch(cleanedName, "close", e.closeInput)];
      automations := automations + [OpenStart(e)];
      automations := automations + [OpenStop(e)];
      automations := automations + [CloseStart(e)];
      automations := automations + [CloseStop(e)];
    }
  }

  /** Start automations fire when a switch turns on, stop automations when it turns off. */
  lemma TriggerTransitions(e: InputEntry)
    ensures OpenStart(e).trigger.from == "off" && OpenStart(e).trigger.to == "on"
    ensures CloseStart(e).trigger.from == "off" && CloseStart(e).trigger.to == "on"
    ensures OpenStop(e).trigger.from == "on" && OpenStop(e).trigger.to == "off"
    ensures CloseStop(e).trigger.from == "on" && CloseStop(e).trigger.to == "off"
  {
  }

  /** Triggers listen to the switch named after the uncleaned cover name. */
  lemma TriggerEntities(e: InputEntry)
    ensures OpenStart(e).trigger.entityId == "switch." + e.name + "_open"
    ensures OpenStop(e).trigger.entityId == "switch." + e.name + "_open"
    ensures CloseStart(e).trigger.entityId == "switch." + e.name + "_close"
    ensures CloseStop(e).trigger.entityId == "switch." + e.name + "_close"
  {
  }

  /** The four actions open, stop, close and stop the cover itself. */
  lemma AutomationActions(e: InputEntry)
    ensures OpenStart(e).action == ServiceCall("cover.open_cover", "cover." + e.name)
    ensures OpenStop(e).action == ServiceCall("cover.stop_cover", "cover." + e.name)
    ensures CloseStart(e).action == ServiceCall("cover.close_cover", "cover." + e.name)
    ensures CloseStop(e).action == ServiceCall("cover.stop_cover", "cover." + e.name)
  {
    assert "cover." + "open_cover" == "cover.open_cover";
    assert "cover." + "stop_cover" == "cover.stop_cover";
    assert "cover." + "close_cover" == "cover.close_cover";
  }

  /** Spaces turned into underscores: how an entity id is derived from a lower-case display name. */
  function Underscored(displayName: string): (entity: string) {
    Replace(displayName, ' ', '_')
  }

  /**
   * A toggle for `role` of cover `name` triggers on the entity id of the
   * switch named `name role`, when neither has a space.
   */
  lemma ToggleTriggersOnSwitch(alias: string, name: string, role: string, from: string, to: string, service: string)
    requires ' ' !in name && ' ' !in role
    ensures Toggle(alias, name, role, from, to, service).trigger.entityId
         == "switch." + Underscored(InputSwitch(CleanName(name), role, "").name)
  {
    var cleaned := CleanName(name);
    ReplaceBack(name, '_', ' ');
    ReplaceAppend(cleaned, " ", ' ', '_');
    ReplaceAppend(cleaned + " ", role, ' ', '_');
    assert Underscored(" ") == "_";
    assert Underscored(role) == role;
    assert "switch." + name + "_" + role == "switch." + (name + "_" + role);
  }

  /**
   * The automations of a cover whose name has no spaces trigger on the
   * entity ids of the two switches generated for that cover.
   */
  lemma TriggersOnOwnSwitches(e: InputEntry)
    requires ' ' !in e.name
    ensures OpenStart(e).trigger.entityId == "switch." + Underscored(OpenSwitch(e).name)
    ensures OpenStop(e).trigger.entityId == "switch." + Underscored(OpenSwitch(e).name)
    ensures CloseStart(e).trigger.entityId == "switch." + Underscored(CloseSwitch(e).name)
    ensures CloseStop(e).trigger.entityId == "switch." + Underscored(CloseSwitch(e).name)
  {
    var n := e.name;
    var c := CleanName(n);
    ToggleTriggersOnSwitch("toggle cover " + c + " open start", n, "open", "off", "on", "open_cover");
    ToggleTriggersOnSwitch("toggle cover " + c + " open stop", n, "open", "on", "off", "stop_cover");
    ToggleTriggersOnSwitch("toggle cover " + c + " open start", n, "close", "off", "on", "close_cover");
    ToggleTriggersOnSwitch("toggle cover " + c + " close stop", n, "close", "on", "off", "stop_cover");
  }

  /** The open-start and close-start automations of a cover carry the same alias. */
  lemma StartAliasesCoincide(e: InputEntry)
    ensures OpenStart(e).alias == CloseStart(e).alias
    ensures OpenStop(e).alias != CloseStop(e).alias
  {
    var prefix := "toggle cover " + CleanName(e.name);
    assert OpenStop(e).alias == prefix + " open stop";
    assert CloseStop(e).alias == prefix + " close stop";
    assert |OpenStop(e).alias| != |CloseStop(e).alias|;
  }
}
