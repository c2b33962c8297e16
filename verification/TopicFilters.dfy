/** internal/broker/acl/match.go: matching a topic against a filter, and deciding
    whether one filter covers another. */
module TopicFilters {

  // ---- levels ----

  /** strings.Split(s, "/") on a non-empty string. */
  function Split(s: string): (levels: seq<string>)
    ensures |levels| >= 1
    ensures forall i :: 0 <= i < |levels| ==> '/' !in levels[i] && |levels[i]| <= |s|
    decreases |s|
  {
    if s == "" then [""]
    else
      var rest := Split(s[1..]);
      if s[0] == '/' then [""] + rest else [[s[0]] + rest[0]] + rest[1..]
  }

  function Join(levels: seq<string>): string
    requires levels != []
  {
    if |levels| == 1 then levels[0] else levels[0] + "/" + Join(levels[1..])
  }

  lemma {:induction false} JoinSplit(s: string)
    ensures Join(Split(s)) == s
    decreases |s|
  {
    if s != "" {
      JoinSplit(s[1..]);
      var rest := Split(s[1..]);
      if s[0] == '/' {
        assert ([""] + rest)[1..] == rest;
        assert "" + "/" + s[1..] == s;
      } else {
        assert ([[s[0]] + rest[0]] + rest[1..])[1..] == rest[1..];
        assert s == [s[0]] + s[1..];
        if |rest| > 1 {
          assert [s[0]] + rest[0] + "/" + Join(rest[1..]) == [s[0]] + (rest[0] + "/" + Join(rest[1..]));
        }
      }
    }
  }

  lemma {:induction false} SplitLevel(level: string)
    requires '/' !in level
    ensures Split(level) == [level]
    decreases |level|
  {
    if level != "" {
      SplitLevel(level[1..]);
      assert level == [level[0]] + level[1..];
    }
  }

  lemma {:induction false} SplitPrepend(level: string, tail: string)
    requires '/' !in level
    ensures Split(level + "/" + tail) == [level] + Split(tail)
    decreases |level|
  {
    var s := level + "/" + tail;
    if level == "" {
      assert s[1..] == tail;
    } else {
      SplitPrepend(level[1..], tail);
      assert s[1..] == level[1..] + "/" + tail;
      assert level == [level[0]] + level[1..];
    }
  }

  lemma {:induction false} SplitJoin(levels: seq<string>)
    requires levels != [] && forall i :: 0 <= i < |levels| ==> '/' !in levels[i]
    ensures Split(Join(levels)) == levels
    decreases |levels|
  {
    if |levels| == 1 {
      SplitLevel(levels[0]);
    } else {
      SplitJoin(levels[1..]);
      SplitPrepend(levels[0], Join(levels[1..]));
    }
  }

  predicate HasWildcard(s: string) {
    '+' in s || '#' in s
  }

  lemma {:induction false} JoinHasNoWildcard(levels: seq<string>)
    requires levels != [] && forall i :: 0 <= i < |levels| ==> !HasWildcard(levels[i])
    ensures !HasWildcard(Join(levels))
    decreases |levels|
  {
    if |levels| > 1 {
      JoinHasNoWildcard(levels[1..]);
    }
  }

  // ---- matching ----

  /** The position of the first "#", or the number of levels. */
  function HashAt(f: seq<string>): (h: nat)
    ensures h <= |f|
    ensures h < |f| ==> f[h] == "#"
    ensures forall i :: 0 <= i < h ==> f[i] != "#"
  {
    if f == [] || f[0] == "#" then 0 else 1 + HashAt(f[1..])
  }

  /** The levels before "#" match one by one, and "#" absorbs any rest. */
  predicate LevelsMatch(f: seq<string>, t: seq<string>) {
    var h := HashAt(f);
    && (if h < |f| then h <= |t| else h == |t|)
    && forall i :: 0 <= i < h ==> f[i] == "+" || f[i] == t[i]
  }

  method MatchLevels(f: seq<string>, t: seq<string>) returns (matches: bool)
    ensures matches == LevelsMatch(f, t)
  {
    var i := 0;
    while i < |f|
      invariant 0 <= i <= HashAt(f) && i <= |t|
      invariant forall k :: 0 <= k < i ==> f[k] == "+" || f[k] == t[k]
    {
      if f[i] == "#" {
        return true;
      }
      if i >= |t| {
        return false;
      }
      if f[i] != "+" && f[i] != t[i] {
        return false;
      }
      i := i + 1;
    }
    return |t| == |f|;
  }

  predicate MatchTopic(filter: string, topic: string) {
    filter != "" && topic != "" && !HasWildcard(topic) && LevelsMatch(Split(filter), Split(topic))
  }

  /** Matching as section 4.7.1 of MQTT Version 5.0 tells it, level by level. */
  predicate Matches(f: seq<string>, t: seq<string>) {
    if f == [] then t == []
    else if f[0] == "#" then true
    else t != [] && (f[0] == "+" || f[0] == t[0]) && Matches(f[1..], t[1..])
  }

  lemma {:induction false} LevelsMatchExact(f: seq<string>, t: seq<string>)
    ensures LevelsMatch(f, t) <==> Matches(f, t)
    decreases |f|
  {
    if f != [] && f[0] != "#" && t != [] {
      LevelsMatchExact(f[1..], t[1..]);
      assert HashAt(f) == 1 + HashAt(f[1..]);
      if LevelsMatch(f, t) {
        assert forall i :: 0 <= i < HashAt(f[1..]) ==> f[1..][i] == f[i + 1] && t[1..][i] == t[i + 1];
      } else if LevelsMatch(f[1..], t[1..]) && (f[0] == "+" || f[0] == t[0]) {
        assert forall i :: 0 < i < HashAt(f) ==> f[i] == f[1..][i - 1] && t[i] == t[1..][i - 1];
      }
    }
  }

  /** A topic matches by its levels; empty names and names with a wildcard never do. */
  lemma MatchTopicExact(filter: string, topic: string)
    ensures MatchTopic(filter, topic) <==>
              filter != "" && topic != "" && '+' !in topic && '#' !in topic && Matches(Split(filter), Split(topic))
  {
    LevelsMatchExact(Split(filter), Split(topic));
  }

  // ---- covering ----

  /** A single rule level accepts everything a single request level accepts. */
  predicate LevelCovers(r: string, q: string) {
    r == "+" || (q != "+" && r == q)
  }

  predicate LevelsCover(r: seq<string>, q: seq<string>) {
    var h := HashAt(r);
    && (if h < |r| then h <= HashAt(q) else h == |q| == HashAt(q))
    && forall i :: 0 <= i < h ==> LevelCovers(r[i], q[i])
  }

  method SupersetLevels(r: seq<string>, q: seq<string>) returns (covers: bool)
    ensures covers == LevelsCover(r, q)
  {
    var i, j := 0, 0;
    while true
      invariant i == j && 0 <= j <= HashAt(r) && i <= HashAt(q)
      invariant forall k :: 0 <= k < j ==> LevelCovers(r[k], q[k])
      decreases |r| - j
    {
      if j >= |r| {
        return i >= |q|;
      }
      if r[j] == "#" {
        return true;
      }
      if i >= |q| {
        return false;
      }
      if q[i] == "#" {
        return false;
      } else if q[i] == "+" {
        if r[j] != "+" {
          return false;
        }
      } else if r[j] != "+" && r[j] != q[i] {
        return false;
      }
      i, j := i + 1, j + 1;
    }
  }

  predicate FilterSuperset(rule: string, req: string) {
    if rule == "" || req == "" then false
    else if rule == "#" then true
    else if req == "#" then rule == "+/#"
    else LevelsCover(Split(rule), Split(req))
  }

  // ---- what covering means ----

  /** Every topic the request matches is matched by the rule. */
  ghost predicate Contains(rule: string, req: string) {
    forall t :: MatchTopic(req, t) ==> MatchTopic(rule, t)
  }

  lemma LevelsCoverSound(r: seq<string>, q: seq<string>, t: seq<string>)
    requires LevelsCover(r, q) && LevelsMatch(q, t)
    ensures LevelsMatch(r, t)
  {
    assert forall i :: 0 <= i < HashAt(r) ==> LevelCovers(r[i], q[i]);
  }

  lemma SupersetMatches(rule: string, req: string, t: string)
    requires FilterSuperset(rule, req) && MatchTopic(req, t)
    ensures MatchTopic(rule, t)
  {
    if rule == "#" {
      assert Split(rule) == ["#"] by { SplitLevel("#"); }
    } else if req == "#" {
      PlusHash();
    } else {
      LevelsCoverSound(Split(rule), Split(req), Split(t));
    }
  }

  /** A positive answer is right, for all strings. */
  lemma SupersetSound(rule: string, req: string)
    requires FilterSuperset(rule, req)
    ensures Contains(rule, req)
  {
    forall t | MatchTopic(req, t)
      ensures MatchTopic(rule, t)
    {
      SupersetMatches(rule, req, t);
    }
  }

  lemma {:induction false} SplitHasNoWildcard(s: string)
    requires !HasWildcard(s)
    ensures forall i :: 0 <= i < |Split(s)| ==> !HasWildcard(Split(s)[i])
    decreases |s|
  {
    if s != "" {
      SplitHasNoWildcard(s[1..]);
    }
  }

  /** A filter covers a topic, read as a filter, exactly when it matches it. */
  lemma TopicCoverExact(rule: string, topic: string)
    requires topic != "" && !HasWildcard(topic)
    ensures FilterSuperset(rule, topic) <==> MatchTopic(rule, topic)
  {
    var q := Split(topic);
    SplitHasNoWildcard(topic);
    assert '#' in "#" && '+' in "+";
    assert HashAt(q) == |q|;
    if rule == "#" {
      SplitLevel("#");
    }
  }

  lemma PlusHash()
    ensures Split("+/#") == ["+", "#"]
  {
    SplitPrepend("+", "#");
    SplitLevel("#");
    assert "+" + "/" + "#" == "+/#";
  }

  /** ValidateTopicFilterSyntax for an ordinary filter: "#" only as the whole last level,
      "+" only as a whole level. */
  predicate WellFormed(filter: string) {
    var f := Split(filter);
    && filter != ""
    && forall i :: 0 <= i < |f| ==> LevelWellFormed(f[i], i == |f| - 1)
  }

  predicate LevelWellFormed(level: string, last: bool) {
    level == "+" || (last && level == "#") || !HasWildcard(level)
  }

  /** The two rules that cover "/#" although the level walk says no: "/#" cannot match the
      one-level topic with an empty level, because topics are non-empty. */
  predicate EmptyTopicGap(rule: string, req: string) {
    req == "/#" && (rule == "/+/#" || rule == "+/+/#")
  }

  // ---- a topic that tells two filters apart ----

  /** A concrete level longer than anything in `s`. */
  function Fresh(s: string): (level: string)
    ensures |level| == |s| + 1 && forall c :: c in level ==> c == 'a'
  {
    if s == "" then "a" else "a" + Fresh(s[1..])
  }

  /** The levels of `q` before "#", with `filler` in place of "+". */
  function Sample(q: seq<string>, filler: string): (t: seq<string>)
    ensures |t| == HashAt(q)
    ensures forall i :: 0 <= i < |t| ==> t[i] == if q[i] == "+" then filler else q[i]
  {
    seq(HashAt(q), i requires 0 <= i < HashAt(q) => if q[i] == "+" then filler else q[i])
  }

  function Repeat(level: string, n: nat): (t: seq<string>)
    ensures |t| == n && forall i :: 0 <= i < n ==> t[i] == level
  {
    seq(n, _ => level)
  }

  lemma SampleLevels(rule: string, req: string, n: nat) returns (levels: seq<string>)
    requires WellFormed(req) && (n > 0 ==> HashAt(Split(req)) < |Split(req)|)
    ensures levels == Sample(Split(req), Fresh(rule)) + Repeat(Fresh(rule), n)
    ensures LevelsMatch(Split(req), levels)
    ensures forall i :: 0 <= i < |levels| ==> '/' !in levels[i] && !HasWildcard(levels[i])
  {
    var q, filler := Split(req), Fresh(rule);
    levels := Sample(q, filler) + Repeat(filler, n);
    forall i | 0 <= i < |levels|
      ensures '/' !in levels[i] && !HasWildcard(levels[i])
    {
      if i < HashAt(q) {
        assert LevelWellFormed(q[i], i == |q| - 1);
      }
    }
  }

  lemma JoinIsTopic(levels: seq<string>) returns (topic: string)
    requires levels != [] && forall i :: 0 <= i < |levels| ==> '/' !in levels[i] && !HasWildcard(levels[i])
    ensures Split(topic) == levels && !HasWildcard(topic)
    ensures topic == "" <==> levels == [""]
  {
    topic := Join(levels);
    SplitJoin(levels);
    JoinHasNoWildcard(levels);
    SplitLevel("");
  }

  /** The sample of `req` followed by n fresh levels, as a topic. */
  lemma SampleTopic(rule: string, req: string, n: nat) returns (levels: seq<string>, topic: string)
    requires WellFormed(req) && (n > 0 ==> HashAt(Split(req)) < |Split(req)|)
    requires n + HashAt(Split(req)) > 0
    ensures levels == Sample(Split(req), Fresh(rule)) + Repeat(Fresh(rule), n)
    ensures LevelsMatch(Split(req), levels)
    ensures Split(topic) == levels && !HasWildcard(topic)
    ensures topic == "" <==> levels == [""]
    ensures topic != "" ==> MatchTopic(req, topic)
    ensures rule != "" && topic != "" ==> MatchTopic(rule, topic) == LevelsMatch(Split(rule), levels)
  {
    levels := SampleLevels(rule, req, n);
    topic := JoinIsTopic(levels);
  }

  /** A rule that matches a sample covers the request level by level as far as the rule goes. */
  lemma SampleForcesCover(rule: string, q: seq<string>, n: nat)
    requires LevelsMatch(Split(rule), Sample(q, Fresh(rule)) + Repeat(Fresh(rule), n))
    ensures forall i :: 0 <= i < HashAt(Split(rule)) && i < HashAt(q) ==> LevelCovers(Split(rule)[i], q[i])
    ensures forall i :: HashAt(q) <= i < HashAt(Split(rule)) ==> Split(rule)[i] == "+"
  {
    var r, t := Split(rule), Sample(q, Fresh(rule)) + Repeat(Fresh(rule), n);
    forall i | 0 <= i < HashAt(r)
      ensures r[i] == "+" || (r[i] == t[i] && t[i] != Fresh(rule))
    {
      assert |r[i]| <= |rule|;
    }
  }

  /** A well-formed filter with "#" at level h is its first h levels and "#". */
  lemma HashEnds(filter: string)
    requires WellFormed(filter) && HashAt(Split(filter)) < |Split(filter)|
    ensures HashAt(Split(filter)) == |Split(filter)| - 1
    ensures filter == Join(Split(filter)[..HashAt(Split(filter))] + ["#"])
  {
    var f := Split(filter);
    JoinSplit(filter);
    assert LevelWellFormed(f[HashAt(f)], HashAt(f) == |f| - 1);
    assert f == f[..HashAt(f)] + ["#"];
  }

  lemma Spellings()
    ensures Join(["#"]) == "#" && Join(["+", "#"]) == "+/#" && Join(["", "#"]) == "/#"
    ensures Join(["", "+", "#"]) == "/+/#" && Join(["+", "+", "#"]) == "+/+/#"
  {
    assert ["+", "#"][1..] == ["#"] && ["", "#"][1..] == ["#"];
    assert ["", "+", "#"][1..] == ["+", "#"] && ["+", "+", "#"][1..] == ["+", "#"];
  }

  lemma CompleteWithoutHash(rule: string, req: string)
    requires WellFormed(rule) && WellFormed(req) && Contains(rule, req)
    requires HashAt(Split(req)) == |Split(req)|
    ensures FilterSuperset(rule, req)
  {
    var q := Split(req);
    var t0, s0 := SampleTopic(rule, req, 0);
    assert t0 != [""] by { JoinSplit(req); }
    SampleForcesCover(rule, q, 0);
    assert req != "#" by { SplitLevel("#"); }
  }

  /** A rule that contains "<levels>/#" ends in "#" no later than one level after it, and
      that extra level is "+" and only there when the sample topic would be empty. */
  lemma HashBounds(rule: string, req: string)
    requires WellFormed(rule) && WellFormed(req) && Contains(rule, req)
    requires HashAt(Split(req)) < |Split(req)|
    ensures var r, q, h := Split(rule), Split(req), HashAt(Split(req));
            && HashAt(r) < |r| && HashAt(r) <= h + 1
            && (forall i :: 0 <= i < HashAt(r) && i < h ==> LevelCovers(r[i], q[i]))
            && (HashAt(r) == h + 1 ==> r[h] == "+" && (h == 0 || (h == 1 && q[0] == "")))
  {
    var r, q := Split(rule), Split(req);
    var h := HashAt(q);
    var t1, s1 := SampleTopic(rule, req, 1);
    var t2, s2 := SampleTopic(rule, req, 2);
    assert t1[h] == Fresh(rule) && t2[h] == Fresh(rule);
    assert LevelsMatch(r, t1) && LevelsMatch(r, t2);
    SampleForcesCover(rule, q, 1);
    if HashAt(r) == h + 1 && h > 0 {
      var t0, s0 := SampleTopic(rule, req, 0);
      assert t0 == [""];
    }
  }

  lemma PlusHashCoversHash(rule: string, req: string)
    requires Split(rule) == ["+", "#"] && Split(req) == ["#"]
    ensures FilterSuperset(rule, req)
  {
    JoinSplit(rule);
    JoinSplit(req);
    Spellings();
  }

  lemma ExtraLevelIsGap(rule: string, req: string, first: string)
    requires Split(rule) == [first, "+", "#"] && Split(req) == ["", "#"] && (first == "+" || first == "")
    ensures EmptyTopicGap(rule, req)
  {
    JoinSplit(rule);
    JoinSplit(req);
    Spellings();
  }

  /** What the levels are when the rule's "#" comes one level later. */
  lemma LaterHash(r: seq<string>, q: seq<string>, h: nat)
    requires |r| == h + 2 && |q| == h + 1 && r[h] == "+" && r[h + 1] == "#" && q[h] == "#"
    requires h == 0 || (h == 1 && q[0] == "" && LevelCovers(r[0], q[0]))
    ensures h == 0 ==> r == ["+", "#"] && q == ["#"]
    ensures h == 1 ==> (r[0] == "+" || r[0] == "") && r == [r[0], "+", "#"] && q == ["", "#"]
  {
  }

  lemma CompleteWithLaterHash(rule: string, req: string)
    requires WellFormed(rule) && WellFormed(req)
    requires var r, q, h := Split(rule), Split(req), HashAt(Split(req));
             && h < |q| && HashAt(r) == h + 1 < |r| && r[h] == "+"
             && (h == 0 || (h == 1 && q[0] == "" && LevelCovers(r[0], q[0])))
    ensures FilterSuperset(rule, req) || EmptyTopicGap(rule, req)
  {
    HashEnds(rule);
    HashEnds(req);
    var r, q, h := Split(rule), Split(req), HashAt(Split(req));
    LaterHash(r, q, h);
    if h == 0 {
      PlusHashCoversHash(rule, req);
    } else {
      ExtraLevelIsGap(rule, req, r[0]);
    }
  }

  lemma CompleteWithHash(rule: string, req: string)
    requires WellFormed(rule) && WellFormed(req) && Contains(rule, req)
    requires HashAt(Split(req)) < |Split(req)|
    ensures FilterSuperset(rule, req) || EmptyTopicGap(rule, req)
  {
    HashBounds(rule, req);
    if HashAt(Split(rule)) <= HashAt(Split(req)) {
      CoveredByEarlierHash(rule, req);
    } else {
      CompleteWithLaterHash(rule, req);
    }
  }

  lemma CoveredByEarlierHash(rule: string, req: string)
    requires WellFormed(rule) && req != "" && HashAt(Split(rule)) < |Split(rule)|
    requires LevelsCover(Split(rule), Split(req))
    ensures FilterSuperset(rule, req)
  {
    if req == "#" {
      HashEnds(rule);
      SplitLevel("#");
      assert Split(rule)[..0] + ["#"] == ["#"];
    }
  }

  /** For well-formed filters the answer is containment, except for the two rules of the
      gap, where the rule contains the request and the answer is no. */
  lemma SupersetExact(rule: string, req: string)
    requires WellFormed(rule) && WellFormed(req)
    ensures (FilterSuperset(rule, req) <==> Contains(rule, req)) <==> !EmptyTopicGap(rule, req)
  {
    if FilterSuperset(rule, req) {
      SupersetSound(rule, req);
    }
    if EmptyTopicGap(rule, req) {
      GapIsContained(rule, req);
    } else if Contains(rule, req) {
      if HashAt(Split(req)) < |Split(req)| {
        CompleteWithHash(rule, req);
      } else {
        CompleteWithoutHash(rule, req);
      }
    }
  }

  lemma GapLevels()
    ensures Split("/#") == ["", "#"] && Split("/+/#") == ["", "+", "#"] && Split("+/+/#") == ["+", "+", "#"]
  {
    SplitLevel("#");
    SplitPrepend("", "#");
    SplitPrepend("+", "#");
    SplitPrepend("", "+/#");
    SplitPrepend("+", "+/#");
    assert "" + "/" + "#" == "/#" && "+" + "/" + "#" == "+/#";
    assert "" + "/" + "+/#" == "/+/#" && "+" + "/" + "+/#" == "+/+/#";
  }

  lemma GapMatches(r: seq<string>, t: seq<string>)
    requires |t| > 1 && LevelsMatch(["", "#"], t)
    requires r == ["", "+", "#"] || r == ["+", "+", "#"]
    ensures LevelsMatch(r, t)
  {
    assert HashAt(["", "#"]) == 1;
    assert HashAt(r) == 2;
  }

  lemma GapMatchesTopic(rule: string, req: string, t: string)
    requires EmptyTopicGap(rule, req) && MatchTopic(req, t)
    ensures MatchTopic(rule, t)
  {
    GapLevels();
    JoinSplit(t);
    assert HashAt(["", "#"]) == 1;
    assert ["", "#"][0] == "";
    assert |Split(t)| > 1;
    GapMatches(Split(rule), Split(t));
  }

  lemma GapIsRefused(rule: string, req: string)
    requires EmptyTopicGap(rule, req)
    ensures !FilterSuperset(rule, req)
  {
    GapLevels();
    assert HashAt(["", "#"]) == 1;
    assert HashAt(Split(rule)) == 2;
  }

  lemma GapIsContained(rule: string, req: string)
    requires EmptyTopicGap(rule, req)
    ensures Contains(rule, req) && !FilterSuperset(rule, req)
  {
    GapIsRefused(rule, req);
    forall t | MatchTopic(req, t)
      ensures MatchTopic(rule, t)
    {
      GapMatchesTopic(rule, req, t);
    }
  }

  // ---- filters with a topic in common ----

  /** Some level sequence matches both: lengths can be made equal, and no two concrete levels
      differ before either "#". */
  predicate LevelsOverlap(f: seq<string>, g: seq<string>) {
    var hf, hg := HashAt(f), HashAt(g);
    && (hf == |f| ==> hg <= hf) && (hg == |g| ==> hf <= hg)
    && forall i :: 0 <= i < hf && i < hg ==> f[i] == "+" || g[i] == "+" || f[i] == g[i]
  }

  /** "+" and "/#" have only the empty level in common, and topics are not empty. */
  predicate Overlaps(f: string, g: string) {
    LevelsOverlap(Split(f), Split(g)) && !(f == "+" && g == "/#") && !(f == "/#" && g == "+")
  }

  function Longer(m: nat, n: nat): nat {
    if m < n then n else m
  }

  /** The concrete level of the two at a position, "a" where neither has one. */
  function CommonLevel(f: seq<string>, g: seq<string>, i: nat): string {
    if i < HashAt(f) && f[i] != "+" then f[i]
    else if i < HashAt(g) && g[i] != "+" then g[i]
    else "a"
  }

  function Common(f: seq<string>, g: seq<string>, n: nat): (t: seq<string>)
    ensures |t| == n && forall i :: 0 <= i < n ==> t[i] == CommonLevel(f, g, i)
  {
    seq(n, i requires 0 <= i < n => CommonLevel(f, g, i))
  }

  lemma CommonMatches(f: seq<string>, g: seq<string>, n: nat)
    requires LevelsOverlap(f, g) && n >= Longer(HashAt(f), HashAt(g))
    requires n == Longer(HashAt(f), HashAt(g)) || (HashAt(f) < |f| && HashAt(g) < |g|)
    ensures LevelsMatch(f, Common(f, g, n)) && LevelsMatch(g, Common(f, g, n))
  {
  }

  lemma CommonIsPlain(f: string, g: string, i: nat)
    requires WellFormed(f) && WellFormed(g)
    ensures '/' !in CommonLevel(Split(f), Split(g), i) && !HasWildcard(CommonLevel(Split(f), Split(g), i))
  {
    var p, q := Split(f), Split(g);
    if i < HashAt(p) {
      assert LevelWellFormed(p[i], i == |p| - 1);
    }
    if i < HashAt(q) {
      assert LevelWellFormed(q[i], i == |q| - 1);
    }
  }

  lemma CommonTopic(f: string, g: string, n: nat) returns (t: string)
    requires WellFormed(f) && WellFormed(g) && LevelsOverlap(Split(f), Split(g))
    requires n >= Longer(HashAt(Split(f)), HashAt(Split(g))) && n > 0
    requires n == Longer(HashAt(Split(f)), HashAt(Split(g))) ||
             (HashAt(Split(f)) < |Split(f)| && HashAt(Split(g)) < |Split(g)|)
    requires Common(Split(f), Split(g), n) != [""]
    ensures MatchTopic(f, t) && MatchTopic(g, t)
  {
    var levels := Common(Split(f), Split(g), n);
    forall i | 0 <= i < n ensures '/' !in levels[i] && !HasWildcard(levels[i]) {
      CommonIsPlain(f, g, i);
    }
    t := JoinIsTopic(levels);
    CommonMatches(Split(f), Split(g), n);
  }

  /** Two well-formed filters have a topic in common exactly when they overlap. */
  lemma OverlapExact(f: string, g: string)
    requires WellFormed(f) && WellFormed(g)
    ensures (exists t :: MatchTopic(f, t) && MatchTopic(g, t)) <==> Overlaps(f, g)
  {
    if t :| MatchTopic(f, t) && MatchTopic(g, t) {
      BothMatchOverlap(f, g, t);
    }
    if Overlaps(f, g) {
      OverlapHasTopic(f, g);
    }
  }

  lemma BothMatchOverlap(f: string, g: string, t: string)
    requires MatchTopic(f, t) && MatchTopic(g, t)
    ensures Overlaps(f, g)
  {
    var p, q, l := Split(f), Split(g), Split(t);
    assert LevelsMatch(p, l) && LevelsMatch(q, l);
    SplitLevel("+");
    GapLevels();
    JoinSplit(t);
    assert HashAt(["", "#"]) == 1 && HashAt(["+"]) == 1;
  }

  lemma OverlapHasTopic(f: string, g: string)
    requires WellFormed(f) && WellFormed(g) && Overlaps(f, g)
    ensures exists t :: MatchTopic(f, t) && MatchTopic(g, t)
  {
    var p, q := Split(f), Split(g);
    var n := Longer(HashAt(p), HashAt(q));
    if HashAt(p) < |p| && HashAt(q) < |q| {
      assert Common(p, q, n + 2) != [""];
      var t := CommonTopic(f, g, n + 2);
    } else {
      NotOnlyEmpty(f, g);
      var t := CommonTopic(f, g, n);
    }
  }

  lemma NotOnlyEmpty(f: string, g: string)
    requires WellFormed(f) && WellFormed(g) && Overlaps(f, g)
    requires HashAt(Split(f)) == |Split(f)| || HashAt(Split(g)) == |Split(g)|
    ensures Common(Split(f), Split(g), Longer(HashAt(Split(f)), HashAt(Split(g)))) != [""]
    ensures Longer(HashAt(Split(f)), HashAt(Split(g))) > 0
  {
    JoinSplit(f);
    JoinSplit(g);
    SplitLevel("");
    Spellings();
  }
}
