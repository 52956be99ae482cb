/**
 * Bus subjects of one shade: `TOPIC_FORMAT` and `Shade._topics` in covers.py.
 * A subject is `{base}/{entity}/{name}/{action}`.
 */
module Topics {

  /** The entity part of a subject (the source's `Entity` enumeration). */
  datatype Entity = Cover | Relay {
    function Value(): (segment: string) {
      match this
      case Cover => "cover"
      case Relay => "relay"
    }
  }

  /** The action part of a subject (the source's `Action` enumeration). */
  datatype Action = Command | State | Position {
    function Value(): (segment: string) {
      match this
      case Command => "set"
      case State => "state"
      case Position => "position"
    }
  }

  function TopicFormat(base: string, entity: string, name: string, action: string): (topic: string) {
    base + "/" + entity + "/" + name + "/" + action
  }

  /** The single-level wildcard used for the relay state subscription. */
  const Wildcard: string := "+"

  /** The eight subjects a shade computes once, at construction. */
  datatype ShadeTopics = ShadeTopics(
    coverCommand: string,
    coverState: string,
    coverPosition: string,
    openRelayState: string,
    closeRelayState: string,
    relayStateFilter: string,
    openRelayCommand: string,
    closeRelayCommand: string)

  function MakeTopics(cover: string, openRelay: string, closeRelay: string,
                      coverBase: string, relayBase: string): (t: ShadeTopics)
  {
    ShadeTopics(
      TopicFormat(coverBase, Cover.Value(), cover, Command.Value()),
      TopicFormat(coverBase, Cover.Value(), cover, State.Value()),
      TopicFormat(coverBase, Cover.Value(), cover, Position.Value()),
      TopicFormat(relayBase, Relay.Value(), openRelay, State.Value()),
      TopicFormat(relayBase, Relay.Value(), closeRelay, State.Value()),
      TopicFormat(relayBase, Relay.Value(), Wildcard, State.Value()),
      TopicFormat(relayBase, Relay.Value(), openRelay, Command.Value()),
      TopicFormat(relayBase, Relay.Value(), closeRelay, Command.Value()))
  }

  predicate SlashFree(s: string) {
    forall i :: 0 <= i < |s| ==> s[i] != '/'
  }

  /** The position of the first '/' in `s`, or |s| when there is none. */
  function FirstSlash(s: string): (k: nat)
    ensures k <= |s|
  {
    if s == [] || s[0] == '/' then 0 else 1 + FirstSlash(s[1..])
  }

  lemma {:induction false} FirstSlashAfter(a: string, x: string)
    requires SlashFree(a)
    ensures FirstSlash(a + "/" + x) == |a|
  {
    if a != [] {
      assert (a + "/" + x)[1..] == a[1..] + "/" + x;
      FirstSlashAfter(a[1..], x);
    }
  }

  /** A string is split unambiguously at its first '/'. */
  lemma SplitAtSlash(a: string, x: string, b: string, y: string)
    requires SlashFree(a) && SlashFree(b)
    requires a + "/" + x == b + "/" + y
    ensures a == b && x == y
  {
    var s := a + "/" + x;
    FirstSlashAfter(a, x);
    FirstSlashAfter(b, y);
    assert a == s[..|a|];
    assert b == s[..|b|];
    assert x == s[|a| + 1..];
    assert y == s[|b| + 1..];
  }

  /**
   * When base, entity and name contain no '/', a subject determines all
   * four of its parts.
   */
  lemma TopicInjective(b1: string, e1: string, n1: string, a1: string,
                       b2: string, e2: string, n2: string, a2: string)
    requires SlashFree(b1) && SlashFree(e1) && SlashFree(n1)
    requires SlashFree(b2) && SlashFree(e2) && SlashFree(n2)
    ensures TopicFormat(b1, e1, n1, a1) == TopicFormat(b2, e2, n2, a2)
            <==> b1 == b2 && e1 == e2 && n1 == n2 && a1 == a2
  {
    if TopicFormat(b1, e1, n1, a1) == TopicFormat(b2, e2, n2, a2) {
      var q1, q2 := n1 + "/" + a1, n2 + "/" + a2;
      var r1, r2 := e1 + "/" + q1, e2 + "/" + q2;
      assert TopicFormat(b1, e1, n1, a1) == b1 + "/" + r1;
      assert TopicFormat(b2, e2, n2, a2) == b2 + "/" + r2;
      SplitAtSlash(b1, r1, b2, r2);
      SplitAtSlash(e1, q1, e2, q2);
      SplitAtSlash(n1, a1, n2, a2);
    }
  }

  /** The subjects a shade publishes to are pairwise distinct. */
  predicate PublishedTopicsDistinct(t: ShadeTopics) {
    && t.coverState != t.coverPosition
    && t.coverState != t.openRelayCommand
    && t.coverState != t.closeRelayCommand
    && t.coverPosition != t.openRelayCommand
    && t.coverPosition != t.closeRelayCommand
    && t.openRelayCommand != t.closeRelayCommand
  }

  /**
   * With '/'-free names and two different relays, every subject the shade
   * publishes to is distinct, and so are the two relay state subjects it
   * listens to: each feedback message reaches exactly one relay flag.
   */
  lemma ShadeTopicsDistinct(cover: string, openRelay: string, closeRelay: string,
                            coverBase: string, relayBase: string)
    requires SlashFree(cover) && SlashFree(openRelay) && SlashFree(closeRelay)
    requires SlashFree(coverBase) && SlashFree(relayBase)
    requires openRelay != closeRelay
    ensures PublishedTopicsDistinct(MakeTopics(cover, openRelay, closeRelay, coverBase, relayBase))
    ensures MakeTopics(cover, openRelay, closeRelay, coverBase, relayBase).openRelayState
         != MakeTopics(cover, openRelay, closeRelay, coverBase, relayBase).closeRelayState
  {
    var c, r := Cover.Value(), Relay.Value();
    assert SlashFree(c) && SlashFree(r);
    assert c != r;
    assert State.Value() != Position.Value();
    TopicInjective(coverBase, c, cover, State.Value(), coverBase, c, cover, Position.Value());
    TopicInjective(coverBase, c, cover, State.Value(), relayBase, r, openRelay, Command.Value());
    TopicInjective(coverBase, c, cover, State.Value(), relayBase, r, closeRelay, Command.Value());
    TopicInjective(coverBase, c, cover, Position.Value(), relayBase, r, openRelay, Command.Value());
    TopicInjective(coverBase, c, cover, Position.Value(), relayBase, r, closeRelay, Command.Value());
    TopicInjective(relayBase, r, openRelay, Command.Value(), relayBase, r, closeRelay, Command.Value());
    TopicInjective(relayBase, r, openRelay, State.Value(), relayBase, r, closeRelay, State.Value());
  }
}
