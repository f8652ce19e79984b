/** Matching a topic name against a subscription filter, level by level. */
module Topics {
  import opened Separators

  function Levels(s: string): seq<string> {
    Split(s, '/')
  }

  /** The levels are what stands between the slashes, before the first and after the last one
      included: a leading slash makes an empty first level. */
  lemma LevelsBetweenSlashes(level: string, rest: string)
    requires Free(level, '/')
    ensures Levels(level) == [level] && Levels(level + "/" + rest) == [level] + Levels(rest)
  {
    SplitJoin(rest, '/');
    var levels := Levels(rest);
    JoinSplit([level], '/');
    JoinSplit([level] + levels, '/');
    assert ([level] + levels)[1..] == levels;
    assert Join([level] + levels, '/') == level + ['/'] + rest;
  }

  // ---- Meaning of a filter -----------------------------------------------

  /** Section 4.7.1 of MQTT 3.1.1: '#' stands alone in the last level, '+' alone in its level. */
  predicate ValidFilter(filter: seq<string>) {
    forall i | 0 <= i < |filter| ::
      ('#' in filter[i] ==> filter[i] == "#" && i == |filter| - 1) && ('+' in filter[i] ==> filter[i] == "+")
  }

  predicate LevelMatches(level: string, f: string) {
    f == "+" || f == level
  }

  /** A single-level wildcard stands for any one level; a multi-level wildcard for the parent level
      and any number of levels below it. */
  predicate Denotes(filter: seq<string>, topic: seq<string>) {
    var n := |filter| - 1;
    if n >= 0 && filter[n] == "#" then
      |topic| >= n && forall i | 0 <= i < n :: filter[i] == "+" || filter[i] == topic[i]
    else |topic| == |filter| && forall i | 0 <= i < |filter| :: filter[i] == "+" || filter[i] == topic[i]
  }

  // ---- The loop ----------------------------------------------------------

  /** What the loop decides from level i on. */
  predicate Accepts(topic: seq<string>, filter: seq<string>, i: nat)
    requires i <= |filter|
    decreases |filter| - i
  {
    if i == |filter| then |topic| == |filter|
    else if filter[i] == "#" then true
    else i < |topic| && LevelMatches(topic[i], filter[i]) && Accepts(topic, filter, i + 1)
  }

  method TopicMatchesFilter(topic: string, filter: string) returns (ok: bool)
    ensures ok <==> Accepts(Levels(topic), Levels(filter), 0)
  {
    if filter == "#" {
      assert Levels(filter) == ["#"] by { JoinSplit(["#"], '/'); }
      return true;
    }
    var topicLevels, filterLevels := Levels(topic), Levels(filter);
    for i := 0 to |filterLevels|
      invariant Accepts(topicLevels, filterLevels, 0) <==> Accepts(topicLevels, filterLevels, i)
    {
      if filterLevels[i] == "#" {
        return true;
      }
      if i >= |topicLevels| {
        return false;
      }
      if filterLevels[i] != "+" && filterLevels[i] != topicLevels[i] {
        return false;
      }
    }
    ok := |topicLevels| == |filterLevels|;
  }

  lemma {:induction false} AcceptsFrom(topic: seq<string>, filter: seq<string>, i: nat)
    requires ValidFilter(filter) && i <= |filter| && (forall k | 0 <= k < i :: filter[k] != "#")
    requires i <= |topic| && forall k | 0 <= k < i :: LevelMatches(topic[k], filter[k])
    ensures Accepts(topic, filter, i) <==> Denotes(filter, topic)
    decreases |filter| - i
  {
    if i < |filter| {
      if filter[i] == "#" {
        assert '#' in filter[i];
      } else if i < |topic| && LevelMatches(topic[i], filter[i]) {
        AcceptsFrom(topic, filter, i + 1);
      }
    }
  }

  /** On every topic and every valid filter the loop decides the wildcard meaning. */
  lemma MatchesMeaning(topic: string, filter: string)
    requires ValidFilter(Levels(filter))
    ensures Accepts(Levels(topic), Levels(filter), 0) <==> Denotes(Levels(filter), Levels(topic))
  {
    AcceptsFrom(Levels(topic), Levels(filter), 0);
  }

  /** On any filter, valid or not, what follows the first level '#' has no effect. */
  lemma {:induction false} RestIgnored(topic: seq<string>, filter: seq<string>, k: nat, i: nat)
    requires i <= k < |filter| && filter[k] == "#"
    ensures Accepts(topic, filter, i) <==> Accepts(topic, filter[..k + 1], i)
    decreases k - i
  {
    if i < k {
      RestIgnored(topic, filter, k, i + 1);
    }
  }

  /** A filter that ends in '#' also matches its parent. */
  lemma ParentMatches(parent: string)
    requires ValidFilter(Levels(parent)) && "#" !in Levels(parent)
    ensures Accepts(Levels(parent), Levels(parent + "/#"), 0)
  {
    SplitJoin(parent, '/');
    var levels := Levels(parent);
    JoinAppend(levels, "#", '/');
    JoinSplit(levels + ["#"], '/');
    assert parent + "/#" == parent + ['/'] + "#";
    assert Levels(parent + "/#") == levels + ["#"];
    assert forall i | 0 <= i < |levels| :: levels[i] in levels && (levels + ["#"])[i] == levels[i];
    AcceptsFrom(levels, levels + ["#"], 0);
  }
}
