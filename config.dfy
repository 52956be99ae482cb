/**
 * Configuration of covers.py: the mapping from cover name to its relay map
 * `{open: relay id, close: relay id}`, its validation (`_is_config_valid`)
 * and the shades built from it (`_shades_from_config`).
 *
 * A YAML mapping is an ordered dictionary, so it is modelled as a sequence
 * of (key, value) entries whose keys are distinct.
 */
module Config {
  import opened Protocol
  import opened Topics
  import opened Covers

  type RelayMap = seq<(string, string)>

  datatype CoverEntry = CoverEntry(name: string, relays: RelayMap)

  type CoverConfig = seq<CoverEntry>

  predicate KeysDistinct(m: RelayMap) {
    forall i, j :: 0 <= i < j < |m| ==> m[i].0 != m[j].0
  }

  predicate HasKey(m: RelayMap, key: string) {
    exists i :: 0 <= i < |m| && m[i].0 == key
  }

  /**
   * What the source assumes of every cover: a dictionary (distinct keys)
   * that holds both an "open" and a "close" key.
   */
  predicate WellFormed(config: CoverConfig) {
    forall c :: 0 <= c < |config| ==>
      KeysDistinct(config[c].relays) && HasKey(config[c].relays, "open") && HasKey(config[c].relays, "close")
  }

  /** The index of `key` in `m`. */
  function KeyIndex(m: RelayMap, key: string): (i: nat)
    requires HasKey(m, key)
    ensures i < |m| && m[i].0 == key
    ensures forall j :: 0 <= j < i ==> m[j].0 != key
  {
    if m[0].0 == key then 0
    else
      assert HasKey(m[1..], key) by {
        var i :| 0 <= i < |m| && m[i].0 == key;
        assert m[1..][i - 1].0 == key;
      }
      1 + KeyIndex(m[1..], key)
  }

  function Lookup(m: RelayMap, key: string): (relay: string)
    requires HasKey(m, key)
  {
    m[KeyIndex(m, key)].1
  }

  /** The relay ids of one cover, in the order `relay_map.values()` yields them. */
  function Values(m: RelayMap): (vs: seq<string>)
    ensures |vs| == |m| && forall i :: 0 <= i < |m| ==> vs[i] == m[i].1
  {
    seq(|m|, i requires 0 <= i < |m| => m[i].1)
  }

  /** Every relay id of the configuration, cover after cover. */
  function AllRelays(config: CoverConfig): (relays: seq<string>) {
    if config == [] then [] else AllRelays(config[..|config| - 1]) + Values(config[|config| - 1].relays)
  }

  predicate KeysAllowed(m: RelayMap) {
    forall i :: 0 <= i < |m| ==> m[i].0 == "open" || m[i].0 == "close"
  }

  predicate Distinct(s: seq<string>) {
    forall i, j :: 0 <= i < j < |s| ==> s[i] != s[j]
  }

  /**
   * A valid configuration: every key is "open" or "close", and no relay id
   * occurs twice anywhere (which covers open == close within one cover).
   */
  predicate ConfigValid(config: CoverConfig) {
    (forall c :: 0 <= c < |config| ==> KeysAllowed(config[c].relays)) && Distinct(AllRelays(config))
  }

  lemma AllRelaysSnoc(config: CoverConfig, c: nat)
    requires c < |config|
    ensures AllRelays(config[..c + 1]) == AllRelays(config[..c]) + Values(config[c].relays)
  {
    assert config[..c + 1][..c] == config[..c];
  }

  /** The relay ids of the first `c` covers are a prefix of all relay ids. */
  lemma {:induction false} AllRelaysPrefix(config: CoverConfig, c: nat)
    requires c <= |config|
    ensures AllRelays(config[..c]) <= AllRelays(config)
  {
    if c < |config| {
      var n := |config| - 1;
      assert config[..n] == config[..|config| - 1];
      AllRelaysPrefix(config[..n], c);
      assert config[..n][..c] == config[..c];
      assert AllRelays(config) == AllRelays(config[..n]) + Values(config[n].relays);
    } else {
      assert config[..c] == config;
    }
  }

  /** Where the `k`-th relay id of cover `c` sits among all relay ids. */
  lemma RelayAt(config: CoverConfig, c: nat, k: nat)
    requires c < |config| && k < |config[c].relays|
    ensures |AllRelays(config[..c])| + k < |AllRelays(config[..c + 1])| <= |AllRelays(config)|
    ensures AllRelays(config)[|AllRelays(config[..c])| + k] == config[c].relays[k].1
  {
    AllRelaysSnoc(config, c);
    AllRelaysPrefix(config, c + 1);
  }

  /** Relay ids of earlier covers come before those of later covers. */
  lemma RelaysOrdered(config: CoverConfig, c: nat, d: nat)
    requires c < d <= |config|
    ensures |AllRelays(config[..c + 1])| <= |AllRelays(config[..d])|
  {
    AllRelaysPrefix(config[..d], c + 1);
    assert config[..d][..c + 1] == config[..c + 1];
  }

  /** Two equal entries at different positions break distinctness. */
  lemma NotDistinct(s: seq<string>, i: nat, j: nat)
    requires i < |s| && j < |s| && i != j && s[i] == s[j]
    ensures !Distinct(s)
  {
    var lo, hi := if i < j then i else j, if i < j then j else i;
    assert s[lo] == s[hi];
  }

  /** A cover with two different entries naming the same relay makes the configuration invalid. */
  lemma SharedRelayInvalid(config: CoverConfig, c: nat, o: nat, cl: nat)
    requires c < |config| && o < |config[c].relays| && cl < |config[c].relays| && o != cl
    requires config[c].relays[o].1 == config[c].relays[cl].1
    ensures !Distinct(AllRelays(config))
  {
    RelayAt(config, c, o);
    RelayAt(config, c, cl);
    var all, base := AllRelays(config), |AllRelays(config[..c])|;
    NotDistinct(all, base + o, base + cl);
  }

  /** A relay id met again while scanning cover `c` makes the configuration invalid. */
  lemma RepeatedRelayInvalid(config: CoverConfig, c: nat, v: nat, relays: seq<string>)
    requires c < |config| && v < |config[c].relays|
    requires relays == AllRelays(config[..c]) + Values(config[c].relays[..v])
    requires config[c].relays[v].1 in relays
    ensures !Distinct(AllRelays(config))
  {
    var m := config[c].relays;
    var i :| 0 <= i < |relays| && relays[i] == m[v].1;
    RelayAt(config, c, v);
    AllRelaysSnoc(config, c);
    AllRelaysPrefix(config, c + 1);
    assert Values(m[..v]) <= Values(m);
    assert relays <= AllRelays(config);
    NotDistinct(AllRelays(config), i, |AllRelays(config[..c])| + v);
  }

  /** Every cover's relay map is a dictionary: its keys are distinct. */
  predicate Dictionaries(config: CoverConfig) {
    forall c :: 0 <= c < |config| ==> KeysDistinct(config[c].relays)
  }

  predicate Complete(m: RelayMap) {
    HasKey(m, "open") && HasKey(m, "close")
  }

  /**
   * The scan reaches cover `c`, finds only allowed keys there, and then
   * indexes a key the cover lacks.
   */
  predicate MissingKeyAt(config: CoverConfig, c: nat)
    requires c < |config|
  {
    ConfigValid(config[..c]) && KeysAllowed(config[c].relays) && !Complete(config[c].relays)
  }

  /**
   * Cover `c` is the first that lacks a key, the scan reaches it, and
   * `relay_map["open"] == relay_map["close"]` raises for `key`: "open"
   * when it is missing, since it is indexed first, and "close" otherwise.
   */
  predicate RaisesAt(config: CoverConfig, c: nat, key: string)
    requires c < |config|
  {
    && MissingKeyAt(config, c)
    && (forall d :: 0 <= d < c ==> Complete(config[d].relays))
    && key == if HasKey(config[c].relays, "open") then "close" else "open"
  }

  /** At most one cover is the first to lack a key, so the raised key is determined. */
  lemma RaisesAtUnique(config: CoverConfig, c: nat, d: nat, key: string, key': string)
    requires c < |config| && d < |config|
    requires RaisesAt(config, c, key) && RaisesAt(config, d, key')
    ensures c == d && key == key'
  {
    if c < d {
      assert false;
    } else if d < c {
      assert false;
    }
  }

  /** Some cover makes the scan raise `KeyError`. */
  predicate RaisesKeyError(config: CoverConfig) {
    exists c :: 0 <= c < |config| && MissingKeyAt(config, c)
  }

  /** What `_is_config_valid` ends with: a verdict, or the `KeyError` of `relay_map[key]`. */
  datatype Verdict = Checked(valid: bool) | KeyError(key: string)

  /** A valid prefix of the covers stays valid when shortened. */
  lemma ConfigValidPrefix(config: CoverConfig, c: nat, d: nat)
    requires c <= d <= |config| && ConfigValid(config[..d])
    ensures ConfigValid(config[..c])
  {
    AllRelaysPrefix(config[..d], c);
    assert config[..d][..c] == config[..c];
  }

  /** Extending a valid prefix by a cover with allowed keys and new relay ids. */
  lemma ConfigValidSnoc(config: CoverConfig, c: nat)
    requires c < |config| && ConfigValid(config[..c]) && KeysAllowed(config[c].relays)
    requires AllRelays(config[..c + 1]) == AllRelays(config[..c]) + Values(config[c].relays)
    requires Distinct(AllRelays(config[..c]) + Values(config[c].relays))
    ensures ConfigValid(config[..c + 1])
  {
    var pre := config[..c + 1];
    forall d | 0 <= d < |pre|
      ensures KeysAllowed(pre[d].relays)
    {
      if d < c {
        assert pre[d] == config[..c][d];
      }
    }
  }

  /** Once the first `c + 1` covers are invalid, so is every longer prefix. */
  lemma InvalidFromHere(config: CoverConfig, c: nat)
    requires c < |config| && !ConfigValid(config[..c + 1])
    ensures forall d :: c < d <= |config| ==> !ConfigValid(config[..d])
  {
    forall d | c < d <= |config|
      ensures !ConfigValid(config[..d])
    {
      if ConfigValid(config[..d]) {
        ConfigValidPrefix(config, c + 1, d);
      }
    }
  }

  /** The loop over `relay_map.keys()`: false at the first key other than "open" and "close". */
  method CheckKeys(m: RelayMap) returns (allowed: bool)
    ensures allowed == KeysAllowed(m)
  {
    for k := 0 to |m|
      invariant forall i :: 0 <= i < k ==> m[i].0 == "open" || m[i].0 == "close"
    {
      if m[k].0 != "open" && m[k].0 != "close" {
        return false;
      }
    }
    return true;
  }

  /**
   * The loop over `relay_map.values()`: appends each relay id to `relays`,
   * and stops at the first one already there.
   */
  method AddRelays(relays: seq<string>, m: RelayMap) returns (unique: bool, v: nat, relays': seq<string>)
    requires Distinct(relays)
    ensures unique ==> relays' == relays + Values(m) && Distinct(relays')
    ensures !unique ==> v < |m| && m[v].1 in relays + Values(m[..v])
  {
    relays' := relays;
    for k := 0 to |m|
      invariant relays' == relays + Values(m[..k])
      invariant Distinct(relays')
    {
      var relay := m[k].1;
      if relay in relays' {
        return false, k, relays';
      }
      assert Values(m[..k + 1]) == Values(m[..k]) + [relay];
      relays' := relays' + [relay];
    }
    assert m[..|m|] == m;
    return true, 0, relays';
  }

  /**
   * A scan that stops at cover `c` with False (a bad key there, or a
   * repeated relay id among the first `c + 1` covers) raises no `KeyError`.
   */
  lemma NoMissingKey(config: CoverConfig, c: nat)
    requires c < |config|
    requires forall d :: 0 <= d < c ==> Complete(config[d].relays)
    requires !KeysAllowed(config[c].relays) || (Complete(config[c].relays) && !Distinct(AllRelays(config[..c + 1])))
    ensures !RaisesKeyError(config) && !ConfigValid(config)
  {
    assert config[..c + 1][c] == config[c];
    InvalidFromHere(config, c);
    assert config[..|config|] == config;
  }

  /**
   * `_is_config_valid`: scans the covers in order, collecting relay ids in
   * `relays`, and answers False at the first bad key, the first cover whose
   * open and close relays coincide, or the first relay id seen before. A
   * cover reached with allowed keys but without "open" (or "close") raises
   * `KeyError` when its relays are looked up.
   */
  method IsConfigValid(config: CoverConfig) returns (verdict: Verdict)
    requires Dictionaries(config)
    ensures verdict.KeyError? <==> RaisesKeyError(config)
    ensures verdict.KeyError? ==> exists c :: 0 <= c < |config| && RaisesAt(config, c, verdict.key)
    ensures verdict.Checked? ==> verdict.valid == ConfigValid(config)
  {
    var relays: seq<string> := [];
    var c := 0;
    while c < |config|
      invariant 0 <= c <= |config|
      invariant relays == AllRelays(config[..c])
      invariant Distinct(relays)
      invariant ConfigValid(config[..c])
      invariant forall d :: 0 <= d < c ==> Complete(config[d].relays)
    {
      var relayMap := config[c].relays;
      var allowed := CheckKeys(relayMap);
      if !allowed {
        NoMissingKey(config, c);
        return Checked(false);
      }
      if !HasKey(relayMap, "open") {
        assert RaisesAt(config, c, "open");
        return KeyError("open");
      }
      if !HasKey(relayMap, "close") {
        assert RaisesAt(config, c, "close");
        return KeyError("close");
      }
      assert Complete(config[c].relays);
      var o, cl := KeyIndex(relayMap, "open"), KeyIndex(relayMap, "close");
      if relayMap[o].1 == relayMap[cl].1 {
        SharedRelayInvalid(config[..c + 1], c, o, cl);
        NoMissingKey(config, c);
        return Checked(false);
      }
      var unique, v, relays' := AddRelays(relays, relayMap);
      if !unique {
        assert config[..c + 1][..c] == config[..c];
        RepeatedRelayInvalid(config[..c + 1], c, v, relays + Values(relayMap[..v]));
        NoMissingKey(config, c);
        return Checked(false);
      }
      relays := relays';
      AllRelaysSnoc(config, c);
      ConfigValidSnoc(config, c);
      c := c + 1;
    }
    assert config[..c] == config;
    return Checked(true);
  }

  /**
   * A configuration that `_is_config_valid` accepts without raising gives
   * `_shades_from_config` both keys of every cover.
   */
  lemma AcceptedIsWellFormed(config: CoverConfig)
    requires Dictionaries(config) && ConfigValid(config) && !RaisesKeyError(config)
    ensures WellFormed(config)
  {
    assert config[..|config|] == config;
    forall c | 0 <= c < |config|
      ensures Complete(config[c].relays)
    {
      ConfigValidPrefix(config, c, |config|);
      assert !MissingKeyAt(config, c);
    }
  }

  /** The arguments `_shades_from_config` passes to each `Shade` it builds. */
  datatype ShadeArgs = ShadeArgs(cover: string, openRelay: string, closeRelay: string,
                                 host: string, coverBase: string, relayBase: string)

  /** The defaults of `Shade.__init__` (sleep 0.5 s, travel 30 s, scale 100): increment round(100 * 0.5 / 30). */
  const DefaultMaxPosition: nat := 100
  const DefaultIncrement: nat := 2

  /** `_shades_from_config`: one shade per cover, in configuration order. */
  function ShadesFromConfig(config: CoverConfig, host: string, coverBase: string, relayBase: string): (shades: seq<ShadeArgs>)
    requires WellFormed(config)
    ensures |shades| == |config|
    ensures forall c :: 0 <= c < |config| ==>
      && shades[c].cover == config[c].name
      && shades[c].openRelay == Lookup(config[c].relays, "open")
      && shades[c].closeRelay == Lookup(config[c].relays, "close")
      && shades[c].host == host && shades[c].coverBase == coverBase && shades[c].relayBase == relayBase
  {
    seq(|config|, c requires 0 <= c < |config| =>
      ShadeArgs(config[c].name, Lookup(config[c].relays, "open"), Lookup(config[c].relays, "close"),
                host, coverBase, relayBase))
  }

  /** A shade as `__init__` leaves it: stopped at the top of its scale, relays OFF, nothing sent. */
  ghost predicate Fresh(s: Shade)
    reads s
  {
    && s.state == Stopped && s.position == s.maxPosition && s.direction == DirectionStopped
    && !s.openRelayState && !s.closeRelayState && s.pending == Idle && s.log == []
  }

  /** The shade built from one set of arguments, as the list comprehension calls the constructor. */
  method NewShade(a: ShadeArgs) returns (s: Shade)
    ensures fresh(s) && s.Valid()
    ensures s.cover == a.cover && s.openRelay == a.openRelay && s.closeRelay == a.closeRelay
    ensures s.maxPosition == DefaultMaxPosition && s.increment == DefaultIncrement
    ensures s.mqttHost == a.host && s.topics == MakeTopics(a.cover, a.openRelay, a.closeRelay, a.coverBase, a.relayBase)
    ensures Fresh(s)
  {
    s := new Shade(a.cover, a.openRelay, a.closeRelay, a.host, a.coverBase, a.relayBase,
                   DefaultMaxPosition, DefaultIncrement);
  }

  /** `s` is the shade `Shade(...)` builds from `a`: its names, subjects, defaults and initial state. */
  ghost predicate BuiltFrom(s: Shade, a: ShadeArgs)
    reads s
  {
    && s.cover == a.cover && s.openRelay == a.openRelay && s.closeRelay == a.closeRelay
    && s.mqttHost == a.host && s.topics == MakeTopics(a.cover, a.openRelay, a.closeRelay, a.coverBase, a.relayBase)
    && s.maxPosition == DefaultMaxPosition && s.increment == DefaultIncrement
    && Fresh(s) && s.Valid()
  }

  /** `_shades_from_config`: the list of `Shade` objects, one per cover, in configuration order. */
  method BuildShades(config: CoverConfig, host: string, coverBase: string, relayBase: string) returns (shades: seq<Shade>)
    requires WellFormed(config)
    ensures |shades| == |config|
    ensures forall c :: 0 <= c < |shades| ==> fresh(shades[c])
    ensures forall c :: 0 <= c < |shades| ==> BuiltFrom(shades[c], ShadesFromConfig(config, host, coverBase, relayBase)[c])
    ensures forall c, d :: 0 <= c < d < |shades| ==> shades[c] != shades[d]
  {
    var args := ShadesFromConfig(config, host, coverBase, relayBase);
    shades := [];
    for c := 0 to |args|
      invariant |shades| == c
      invariant forall d :: 0 <= d < c ==> fresh(shades[d])
      invariant forall d :: 0 <= d < c ==> BuiltFrom(shades[d], args[d])
      invariant forall d, e :: 0 <= d < e < c ==> shades[d] != shades[e]
    {
      var s := NewShade(args[c]);
      shades := shades + [s];
    }
  }

  /**
   * From a valid configuration every shade gets two different relays, and
   * no relay is shared by two shades.
   */
  lemma ValidConfigShadesDisjoint(config: CoverConfig, host: string, coverBase: string, relayBase: string)
    requires WellFormed(config) && ConfigValid(config)
    ensures var shades := ShadesFromConfig(config, host, coverBase, relayBase);
      && (forall c :: 0 <= c < |shades| ==> shades[c].openRelay != shades[c].closeRelay)
      && (forall c, d :: 0 <= c < d < |shades| ==>
            && shades[c].openRelay != shades[d].openRelay && shades[c].openRelay != shades[d].closeRelay
            && shades[c].closeRelay != shades[d].openRelay && shades[c].closeRelay != shades[d].closeRelay)
  {
    var shades := ShadesFromConfig(config, host, coverBase, relayBase);
    var all := AllRelays(config);
    forall c | 0 <= c < |shades|
      ensures shades[c].openRelay != shades[c].closeRelay
    {
      var m := config[c].relays;
      var o, cl := KeyIndex(m, "open"), KeyIndex(m, "close");
      RelayAt(config, c, o);
      RelayAt(config, c, cl);
      var base := |AllRelays(config[..c])|;
      assert o != cl;
      if o < cl {
        assert all[base + o] != all[base + cl];
      } else {
        assert all[base + cl] != all[base + o];
      }
    }
    forall c, d | 0 <= c < d < |shades|
      ensures && shades[c].openRelay != shades[d].openRelay && shades[c].openRelay != shades[d].closeRelay
              && shades[c].closeRelay != shades[d].openRelay && shades[c].closeRelay != shades[d].closeRelay
    {
      var m, n := config[c].relays, config[d].relays;
      var co, cc := KeyIndex(m, "open"), KeyIndex(m, "close");
      var dO, dc := KeyIndex(n, "open"), KeyIndex(n, "close");
      RelayAt(config, c, co);
      RelayAt(config, c, cc);
      RelayAt(config, d, dO);
      RelayAt(config, d, dc);
      RelaysOrdered(config, c, d);
      var bc, bd := |AllRelays(config[..c])|, |AllRelays(config[..d])|;
      assert bc + co < bd + dO && all[bc + co] != all[bd + dO];
      assert bc + co < bd + dc && all[bc + co] != all[bd + dc];
      assert bc + cc < bd + dO && all[bc + cc] != all[bd + dO];
      assert bc + cc < bd + dc && all[bc + cc] != all[bd + dc];
    }
  }
}
