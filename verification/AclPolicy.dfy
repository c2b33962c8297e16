/** Access control: evaluating a ruleset (internal/broker/acl/policy.go) and keeping the cached
    evaluator in line with the stored rules (internal/broker/acl/manager.go). */
module AclPolicy {
  import opened Options
  import opened TopicFilters

  datatype Identity = Identity(username: string, clientID: string)

  datatype Filters = Filters(pub: seq<string>, sub: seq<string>)

  datatype Rule = Rule(identity: Identity, allow: Filters, deny: Filters)

  datatype Ruleset = Ruleset(defaultDeny: bool, rules: seq<Rule>)

  datatype Action = Publish | Subscribe

  // ---- evaluation ----

  predicate Applies(id: Identity, username: string, clientID: string) {
    && (id.username != "" ==> id.username == username)
    && (id.clientID != "" ==> id.clientID == clientID)
    && (id.username != "" || id.clientID != "")
  }

  predicate HitBy(f: string, action: Action, subject: string) {
    if action.Publish? then MatchTopic(f, subject) else FilterSuperset(f, subject)
  }

  predicate Hits(filters: Filters, action: Action, subject: string) {
    exists f :: f in (if action.Publish? then filters.pub else filters.sub) && HitBy(f, action, subject)
  }

  ghost predicate Denies(r: Rule, username: string, clientID: string, action: Action, subject: string) {
    Applies(r.identity, username, clientID) && Hits(r.deny, action, subject)
  }

  ghost predicate Allows(r: Rule, username: string, clientID: string, action: Action, subject: string) {
    Applies(r.identity, username, clientID) && Hits(r.allow, action, subject)
  }

  /** anyMatchTopic and anySuperset. */
  method AnyHit(filters: Filters, action: Action, subject: string) returns (hit: bool)
    ensures hit == Hits(filters, action, subject)
  {
    var list := if action.Publish? then filters.pub else filters.sub;
    for n := 0 to |list|
      invariant forall i :: 0 <= i < n ==> !HitBy(list[i], action, subject)
    {
      if HitBy(list[n], action, subject) { return true; }
    }
    return false;
  }

  /** The first pass of eval. */
  method AnyDeny(rules: seq<Rule>, username: string, clientID: string, action: Action, subject: string)
    returns (denied: bool)
    ensures denied <==> exists r :: r in rules && Denies(r, username, clientID, action, subject)
  {
    for n := 0 to |rules|
      invariant forall i :: 0 <= i < n ==> !Denies(rules[i], username, clientID, action, subject)
    {
      if Applies(rules[n].identity, username, clientID) {
        var hit := AnyHit(rules[n].deny, action, subject);
        if hit {
          assert rules[n] in rules;
          return true;
        }
      }
    }
    return false;
  }

  /** The second pass. */
  method AnyAllow(rules: seq<Rule>, username: string, clientID: string, action: Action, subject: string)
    returns (allowed: bool)
    ensures allowed <==> exists r :: r in rules && Allows(r, username, clientID, action, subject)
  {
    for n := 0 to |rules|
      invariant forall i :: 0 <= i < n ==> !Allows(rules[i], username, clientID, action, subject)
    {
      if Applies(rules[n].identity, username, clientID) {
        var hit := AnyHit(rules[n].allow, action, subject);
        if hit {
          assert rules[n] in rules;
          return true;
        }
      }
    }
    return false;
  }

  /** StaticEvaluator.eval. A matching deny decides, wherever it stands; then a matching allow;
      then the default. */
  method Eval(rs: Ruleset, username: string, clientID: string, action: Action, subject: string)
    returns (allowed: bool)
    ensures allowed <==> Permitted(rs, username, clientID, action, subject)
    ensures action.Publish? ==>
              (allowed <==>
                 && (forall r, f :: r in rs.rules && Concerns(r.identity, username, clientID) && f in r.deny.pub ==>
                       !MatchTopic(f, subject))
                 && (!rs.defaultDeny || exists r, f :: r in rs.rules && Concerns(r.identity, username, clientID) &&
                                                       f in r.allow.pub && MatchTopic(f, subject)))
    ensures action.Subscribe? ==>
              (allowed <==>
                 && (forall r, f :: r in rs.rules && Concerns(r.identity, username, clientID) && f in r.deny.sub ==>
                       !FilterSuperset(f, subject))
                 && (!rs.defaultDeny || exists r, f :: r in rs.rules && Concerns(r.identity, username, clientID) &&
                                                       f in r.allow.sub && FilterSuperset(f, subject)))
  {
    PublishExact(rs, username, clientID, subject);
    SubscribeExact(rs, username, clientID, subject);
    var denied := AnyDeny(rs.rules, username, clientID, action, subject);
    if denied { return false; }
    var granted := AnyAllow(rs.rules, username, clientID, action, subject);
    if granted { return true; }
    return !rs.defaultDeny;
  }

  ghost predicate Permitted(rs: Ruleset, username: string, clientID: string, action: Action, subject: string) {
    && (forall r :: r in rs.rules ==> !Denies(r, username, clientID, action, subject))
    && (!rs.defaultDeny || exists r :: r in rs.rules && Allows(r, username, clientID, action, subject))
  }

  // ---- whom a rule is about ----

  /** The rule is about this client: it names somebody, and nobody else. */
  predicate Concerns(id: Identity, username: string, clientID: string) {
    id != Identity("", "") && id.username in {"", username} && id.clientID in {"", clientID}
  }

  lemma ConcernsIsApplies(id: Identity, username: string, clientID: string)
    ensures Concerns(id, username, clientID) <==> Applies(id, username, clientID)
  {
  }

  /** Publishing is decided by the publish filters of the rules about the client. */
  lemma PublishExact(rs: Ruleset, username: string, clientID: string, topic: string)
    ensures Permitted(rs, username, clientID, Publish, topic) <==>
              && (forall r, f :: r in rs.rules && Concerns(r.identity, username, clientID) && f in r.deny.pub ==>
                    !MatchTopic(f, topic))
              && (!rs.defaultDeny || exists r, f :: r in rs.rules && Concerns(r.identity, username, clientID) &&
                                                    f in r.allow.pub && MatchTopic(f, topic))
  {
    forall r | r in rs.rules
      ensures Denies(r, username, clientID, Publish, topic) <==>
                Concerns(r.identity, username, clientID) && exists f :: f in r.deny.pub && MatchTopic(f, topic)
      ensures Allows(r, username, clientID, Publish, topic) <==>
                Concerns(r.identity, username, clientID) && exists f :: f in r.allow.pub && MatchTopic(f, topic)
    {
      ConcernsIsApplies(r.identity, username, clientID);
      assert forall f :: HitBy(f, Publish, topic) <==> MatchTopic(f, topic);
    }
  }

  /** Subscribing is decided by their subscribe filters. */
  lemma SubscribeExact(rs: Ruleset, username: string, clientID: string, filter: string)
    ensures Permitted(rs, username, clientID, Subscribe, filter) <==>
              && (forall r, f :: r in rs.rules && Concerns(r.identity, username, clientID) && f in r.deny.sub ==>
                    !FilterSuperset(f, filter))
              && (!rs.defaultDeny || exists r, f :: r in rs.rules && Concerns(r.identity, username, clientID) &&
                                                    f in r.allow.sub && FilterSuperset(f, filter))
  {
    forall r | r in rs.rules
      ensures Denies(r, username, clientID, Subscribe, filter) <==>
                Concerns(r.identity, username, clientID) && exists f :: f in r.deny.sub && FilterSuperset(f, filter)
      ensures Allows(r, username, clientID, Subscribe, filter) <==>
                Concerns(r.identity, username, clientID) && exists f :: f in r.allow.sub && FilterSuperset(f, filter)
    {
      ConcernsIsApplies(r.identity, username, clientID);
      assert forall f :: HitBy(f, Subscribe, filter) <==> FilterSuperset(f, filter);
    }
  }

  /** A rule that names another user, another client or nobody can be taken away. */
  lemma ForeignRuleIsIgnored(rs: Ruleset, k: nat, username: string, clientID: string, action: Action, subject: string)
    requires k < |rs.rules|
    requires var id := rs.rules[k].identity;
             || (id.username != "" && id.username != username)
             || (id.clientID != "" && id.clientID != clientID)
             || (id.username == "" && id.clientID == "")
    ensures Permitted(rs, username, clientID, action, subject) <==>
              Permitted(rs.(rules := rs.rules[..k] + rs.rules[k + 1..]), username, clientID, action, subject)
  {
    var rest := rs.rules[..k] + rs.rules[k + 1..];
    assert rs.rules == rs.rules[..k] + [rs.rules[k]] + rs.rules[k + 1..];
    assert forall r :: r in rs.rules <==> r in rest || r == rs.rules[k];
    assert forall r :: r in rest ==> r in rs.rules;
  }

  /** A rule whose names agree with the client, at least one of them given, takes part: its deny
      decides against, and its allow in favour unless some rule denies. */
  lemma NamedRuleTakesPart(rs: Ruleset, r: Rule, f: string, username: string, clientID: string, subject: string)
    requires r in rs.rules && (r.identity.username != "" || r.identity.clientID != "")
    requires r.identity.username == "" || r.identity.username == username
    requires r.identity.clientID == "" || r.identity.clientID == clientID
    ensures f in r.deny.pub && MatchTopic(f, subject) ==> !Permitted(rs, username, clientID, Publish, subject)
    ensures f in r.deny.sub && FilterSuperset(f, subject) ==> !Permitted(rs, username, clientID, Subscribe, subject)
    ensures f in r.allow.pub && MatchTopic(f, subject) ==>
              (Permitted(rs, username, clientID, Publish, subject) <==>
                 !Denied(rs, username, clientID, Publish, subject))
    ensures f in r.allow.sub && FilterSuperset(f, subject) ==>
              (Permitted(rs, username, clientID, Subscribe, subject) <==>
                 !Denied(rs, username, clientID, Subscribe, subject))
  {
    ConcernsIsApplies(r.identity, username, clientID);
    DenyWins(rs, r, f, username, clientID, subject);
    if f in r.allow.pub && HitBy(f, Publish, subject) {
      assert Allows(r, username, clientID, Publish, subject);
    }
    if f in r.allow.sub && HitBy(f, Subscribe, subject) {
      assert Allows(r, username, clientID, Subscribe, subject);
    }
  }

  /** Neither the order of the rules nor repeated rules matter. */
  lemma OrderDoesNotMatter(a: Ruleset, b: Ruleset, username: string, clientID: string, action: Action, subject: string)
    requires a.defaultDeny == b.defaultDeny && forall r :: r in a.rules <==> r in b.rules
    ensures Permitted(a, username, clientID, action, subject) <==> Permitted(b, username, clientID, action, subject)
  {
  }

  /** Under default deny, a subscription is granted only if one filter of a rule that applies
      matches every topic the subscription can receive. */
  lemma GrantCoversSubscription(rs: Ruleset, username: string, clientID: string, filter: string)
    requires rs.defaultDeny && Permitted(rs, username, clientID, Subscribe, filter)
    ensures exists r, f ::
              r in rs.rules && Applies(r.identity, username, clientID) && f in r.allow.sub && Contains(f, filter)
  {
    var r :| r in rs.rules && Allows(r, username, clientID, Subscribe, filter);
    var f :| f in r.allow.sub && HitBy(f, Subscribe, filter);
    SupersetSound(f, filter);
  }

  /** A deny that covers the subscription decides, whatever else the rules say. */
  lemma DenyWins(rs: Ruleset, r: Rule, f: string, username: string, clientID: string, subject: string)
    requires r in rs.rules && Applies(r.identity, username, clientID)
    ensures f in r.deny.sub && FilterSuperset(f, subject) ==> !Permitted(rs, username, clientID, Subscribe, subject)
    ensures f in r.deny.pub && MatchTopic(f, subject) ==> !Permitted(rs, username, clientID, Publish, subject)
  {
    if f in r.deny.sub && FilterSuperset(f, subject) {
      assert HitBy(f, Subscribe, subject);
      assert Denies(r, username, clientID, Subscribe, subject);
    }
    if f in r.deny.pub && MatchTopic(f, subject) {
      assert HitBy(f, Publish, subject);
      assert Denies(r, username, clientID, Publish, subject);
    }
  }

  ghost predicate Denied(rs: Ruleset, username: string, clientID: string, action: Action, subject: string) {
    exists r :: r in rs.rules && Denies(r, username, clientID, action, subject)
  }

  /** A deny filter of a rule that applies overlaps the filter. */
  ghost predicate DenyOverlaps(rs: Ruleset, username: string, clientID: string, filter: string) {
    exists r, deny ::
      r in rs.rules && Applies(r.identity, username, clientID) && deny in r.deny.sub && Overlaps(filter, deny)
  }

  /** What the rules do not stop: a subscription receives a topic to which the same client may
      not subscribe by name exactly when a deny filter that applies overlaps it. Only a deny
      filter that covers the subscription refuses it. */
  lemma DeniedTopicReceivedExact(rs: Ruleset, username: string, clientID: string, filter: string)
    requires WellFormed(filter)
    requires forall r, deny :: r in rs.rules && deny in r.deny.sub ==> WellFormed(deny)
    ensures (exists t :: MatchTopic(filter, t) && Denied(rs, username, clientID, Subscribe, t)) <==>
              DenyOverlaps(rs, username, clientID, filter)
  {
    if t :| MatchTopic(filter, t) && Denied(rs, username, clientID, Subscribe, t) {
      var r :| r in rs.rules && Denies(r, username, clientID, Subscribe, t);
      var deny :| deny in r.deny.sub && HitBy(deny, Subscribe, t);
      TopicCoverExact(deny, t);
      OverlapExact(filter, deny);
      assert Overlaps(filter, deny);
    }
    if DenyOverlaps(rs, username, clientID, filter) {
      var r, deny :|
        r in rs.rules && Applies(r.identity, username, clientID) && deny in r.deny.sub && Overlaps(filter, deny);
      OverlapExact(filter, deny);
      var t :| MatchTopic(filter, t) && MatchTopic(deny, t);
      TopicCoverExact(deny, t);
      assert HitBy(deny, Subscribe, t);
      assert Denies(r, username, clientID, Subscribe, t);
    }
  }

  /** For example, denying one topic below a level leaves a subscription to all topics below
      that level granted, and it receives the denied one. */
  lemma WideSubscriptionPasses(level: string, name: string)
    requires level != "" && name != "" && '/' !in level && '/' !in name && !HasWildcard(level) && !HasWildcard(name)
    ensures var wide, narrow := level + "/" + "#", level + "/" + name;
            var rs := Ruleset(true, [Rule(Identity("u", ""), Filters([], [wide]), Filters([], [narrow]))]);
            && Permitted(rs, "u", "c", Subscribe, wide) && !Permitted(rs, "u", "c", Subscribe, narrow)
            && MatchTopic(wide, narrow)
  {
    var wide, narrow := level + "/" + "#", level + "/" + name;
    var rule := Rule(Identity("u", ""), Filters([], [wide]), Filters([], [narrow]));
    BelowLevel(level, name);
    assert HitBy(wide, Subscribe, wide) && HitBy(narrow, Subscribe, narrow) && !HitBy(narrow, Subscribe, wide);
    assert wide in rule.allow.sub && Allows(rule, "u", "c", Subscribe, wide);
    assert narrow in rule.deny.sub && Denies(rule, "u", "c", Subscribe, narrow);
    assert rule in [rule];
  }

  lemma BelowLevel(level: string, name: string)
    requires level != "" && name != "" && '/' !in level && '/' !in name && !HasWildcard(level) && !HasWildcard(name)
    ensures var wide, narrow := level + "/" + "#", level + "/" + name;
            && FilterSuperset(wide, wide) && FilterSuperset(narrow, narrow) && !FilterSuperset(narrow, wide)
            && MatchTopic(wide, narrow)
  {
    var wide, narrow := level + "/" + "#", level + "/" + name;
    SplitPrepend(level, "#");
    SplitLevel("#");
    SplitPrepend(level, name);
    SplitLevel(name);
    assert |wide| > 2 && |narrow| > 2;
    PairHashes(level, name);
    assert !HasWildcard(narrow);
  }

  lemma PairHashes(level: string, name: string)
    requires !HasWildcard(level) && !HasWildcard(name)
    ensures HashAt([level, "#"]) == 1 && HashAt([level, name]) == 2
  {
    assert '#' in "#" && level != "#" && name != "#";
    assert [level, "#"][1..] == ["#"] && [level, name][1..] == [name] && [name][1..] == [];
    assert HashAt(["#"]) == 0 && HashAt([name]) == 1;
  }

  // ---- rules by identity ----

  /** The first rule with an identity. */
  function Find(rules: seq<Rule>, id: Identity): Option<Rule> {
    if rules == [] then None
    else if rules[0].identity == id then Some(rules[0])
    else Find(rules[1..], id)
  }

  function Upserted(rules: seq<Rule>, rule: Rule): seq<Rule> {
    if rules == [] then [rule]
    else if rules[0].identity == rule.identity then [rule] + rules[1..]
    else [rules[0]] + Upserted(rules[1..], rule)
  }

  function Without(rules: seq<Rule>, id: Identity): seq<Rule> {
    if rules == [] then []
    else (if rules[0].identity == id then [] else [rules[0]]) + Without(rules[1..], id)
  }

  /** An upserted rule is found; every other identity finds what it found before. */
  lemma {:induction false} FindUpserted(rules: seq<Rule>, rule: Rule, id: Identity)
    ensures Find(Upserted(rules, rule), id) == if id == rule.identity then Some(rule) else Find(rules, id)
    decreases |rules|
  {
    if rules != [] {
      FindUpserted(rules[1..], rule, id);
      var u := Upserted(rules, rule);
      assert u[1..] == if rules[0].identity == rule.identity then rules[1..] else Upserted(rules[1..], rule);
    }
  }

  /** A deleted identity is gone, repeats included; every other one finds what it found before. */
  lemma {:induction false} FindWithout(rules: seq<Rule>, gone: Identity, id: Identity)
    ensures Find(Without(rules, gone), id) == if id == gone then None else Find(rules, id)
    decreases |rules|
  {
    if rules != [] {
      FindWithout(rules[1..], gone, id);
      var w := Without(rules, gone);
      assert if rules[0].identity == gone then w == Without(rules[1..], gone) else w[1..] == Without(rules[1..], gone);
    }
  }

  /** Deleting after upserting a new identity gives back the original rules. */
  lemma {:induction false} WithoutUpserted(rules: seq<Rule>, rule: Rule)
    requires Find(rules, rule.identity).None?
    ensures Without(Upserted(rules, rule), rule.identity) == rules
    decreases |rules|
  {
    if rules != [] {
      WithoutUpserted(rules[1..], rule);
      var u := Upserted(rules, rule);
      assert u[1..] == Upserted(rules[1..], rule);
      assert rules == [rules[0]] + rules[1..];
    }
  }

  lemma {:induction false} FindSkips(rules: seq<Rule>, n: nat, id: Identity)
    requires n <= |rules| && forall i :: 0 <= i < n ==> rules[i].identity != id
    ensures Find(rules, id) == Find(rules[n..], id)
    decreases n
  {
    if n > 0 {
      FindSkips(rules[1..], n - 1, id);
      assert rules[1..][n - 1..] == rules[n..];
    }
  }

  lemma {:induction false} FindExists(rules: seq<Rule>, id: Identity)
    ensures Find(rules, id).Some? <==> exists i :: 0 <= i < |rules| && rules[i].identity == id
    decreases |rules|
  {
    if rules != [] {
      FindExists(rules[1..], id);
      if i :| 0 <= i < |rules[1..]| && rules[1..][i].identity == id {
        assert rules[i + 1].identity == id;
      }
      if i :| 0 < i < |rules| && rules[i].identity == id {
        assert rules[1..][i - 1].identity == id;
      }
    }
  }

  lemma {:induction false} UpsertSkips(rules: seq<Rule>, n: nat, rule: Rule)
    requires n <= |rules| && forall i :: 0 <= i < n ==> rules[i].identity != rule.identity
    ensures Upserted(rules, rule) == rules[..n] + Upserted(rules[n..], rule)
    decreases n
  {
    if n > 0 {
      UpsertSkips(rules[1..], n - 1, rule);
      assert rules[1..][n - 1..] == rules[n..];
      assert rules[..n] == [rules[0]] + rules[1..][..n - 1];
    }
  }

  lemma {:induction false} WithoutAppend(rules: seq<Rule>, r: Rule, id: Identity)
    ensures Without(rules + [r], id) == Without(rules, id) + if r.identity == id then [] else [r]
    decreases |rules|
  {
    if rules != [] {
      WithoutAppend(rules[1..], r, id);
      assert (rules + [r])[1..] == rules[1..] + [r];
    }
  }

  // ---- the manager ----

  datatype Outcome = Ok | FileModeActive | NotFound | InvalidIdentity | StoreError

  // A write that reports an error may still have taken effect.
  datatype Write = Write(ok: bool, applied: bool)

  datatype Op =
    | Load
    | Put(ruleset: Ruleset, write: Write)
    | Clear(write: Write)
    | Upsert(rule: Rule, write: Write)
    | Drop(id: Identity, write: Write)

  // What an operation sets out to write.
  datatype Change = Nothing | Save(rules: Ruleset) | Erase

  predicate Named(id: Identity) {
    id.username != "" || id.clientID != ""
  }

  predicate AllNamed(rules: seq<Rule>) {
    forall i :: 0 <= i < |rules| ==> Named(rules[i].identity)
  }

  /** The stored rules and the cached evaluator's. File mode is active when the file exists. */
  datatype Cache = Cache(defaultDeny: bool, file: Option<Ruleset>, stored: Option<Ruleset>, current: Option<Ruleset>) {

    function Effective(rs: Ruleset): Ruleset {
      rs.(defaultDeny := rs.defaultDeny || defaultDeny)
    }

    /** loadRules: the file wins over the store. */
    function Source(): Option<Ruleset> {
      if file.Some? then file else stored
    }

    /** The cache is empty or holds exactly what a reload would give. */
    predicate Coherent() {
      current.Some? ==> Source().Some? && current.value == Effective(Source().value)
    }

    function StoredRules(): seq<Rule> {
      if stored.Some? then stored.value.rules else []
    }

    function Intends(op: Op): Change {
      if file.Some? then Nothing
      else
        match op
        case Load => Nothing
        case Put(rs, _) => if AllNamed(rs.rules) then Save(Effective(rs)) else Nothing
        case Clear(_) => Erase
        case Upsert(rule, _) =>
          if !Named(rule.identity) then Nothing
          else
            var base := if stored.Some? then stored.value else Ruleset(defaultDeny, []);
            Save(Effective(base.(rules := Upserted(base.rules, rule))))
        case Drop(id, _) =>
          if !Named(id) || Find(StoredRules(), id).None? || stored.None? then Nothing
          else Save(Effective(stored.value.(rules := Without(stored.value.rules, id))))
    }

    function Written(change: Change, write: Write): Cache {
      match change
      case Nothing => this
      case Save(rs) =>
        this.(stored := if write.applied then Some(rs) else stored, current := if write.ok then Some(rs) else current)
      case Erase =>
        this.(stored := if write.applied then None else stored, current := if write.ok then None else current)
    }

    function After(op: Op): Cache {
      if op.Load? then
        if Source().Some? then this.(current := Some(Effective(Source().value))) else this
      else Written(Intends(op), op.write)
    }

    /** The write is reported as failed but took effect, and the cached rules are not what it
        left in the store. */
    predicate Tears(op: Op) {
      && !op.Load? && op.write.applied && !op.write.ok && current.Some?
      && match Intends(op)
         case Nothing => false
         case Save(rs) => current.value != rs
         case Erase => true
    }
  }

  function AfterAll(c: Cache, ops: seq<Op>): Cache {
    if ops == [] then c else AfterAll(c, ops[..|ops| - 1]).After(ops[|ops| - 1])
  }

  ghost predicate Honest(op: Op) {
    op.Load? || (op.write.ok ==> op.write.applied)
  }

  /** Every operation keeps the cache coherent exactly when it does not tear it. */
  lemma CoherentExact(c: Cache, op: Op)
    requires c.Coherent() && Honest(op)
    ensures c.After(op).Coherent() <==> !c.Tears(op)
  {
  }

  predicate CoherentAfter(c: Cache, ops: seq<Op>, n: nat)
    requires n <= |ops|
  {
    AfterAll(c, ops[..n]).Coherent()
  }

  predicate TornBy(c: Cache, ops: seq<Op>, n: nat)
    requires n < |ops|
  {
    AfterAll(c, ops[..n]).Tears(ops[n])
  }

  lemma NextCoherent(c: Cache, ops: seq<Op>, n: nat)
    requires n < |ops| && Honest(ops[n]) && CoherentAfter(c, ops, n)
    ensures CoherentAfter(c, ops, n + 1) <==> !TornBy(c, ops, n)
  {
    assert ops[..n + 1][..n] == ops[..n];
    CoherentExact(AfterAll(c, ops[..n]), ops[n]);
  }

  lemma {:induction false} NeverTorn(c: Cache, ops: seq<Op>, m: nat)
    requires c.Coherent() && m <= |ops| && forall i :: 0 <= i < |ops| ==> Honest(ops[i])
    requires forall n :: 0 <= n < |ops| ==> !TornBy(c, ops, n)
    ensures CoherentAfter(c, ops, m)
    decreases m
  {
    if m > 0 {
      NeverTorn(c, ops, m - 1);
      NextCoherent(c, ops, m - 1);
    }
  }

  /** Over a whole sequence: the cache is coherent after every operation exactly when none of
      them tears it. */
  lemma SequenceCoherentExact(c: Cache, ops: seq<Op>)
    requires c.Coherent() && forall i :: 0 <= i < |ops| ==> Honest(ops[i])
    ensures (forall n :: 0 <= n <= |ops| ==> CoherentAfter(c, ops, n)) <==>
            (forall n :: 0 <= n < |ops| ==> !TornBy(c, ops, n))
  {
    if n :| 0 <= n < |ops| && TornBy(c, ops, n) {
      if CoherentAfter(c, ops, n) {
        NextCoherent(c, ops, n);
      }
    } else {
      forall n | 0 <= n <= |ops| ensures CoherentAfter(c, ops, n) {
        NeverTorn(c, ops, n);
      }
    }
  }

  /** A stale cache: rules that deny by default are stored by a write that reports an error,
      and the cached evaluator still permits. */
  lemma StaleCache(topic: string)
    ensures exists c: Cache, op: Op ::
              && c.Coherent() && Honest(op) && c.Tears(op) && !c.After(op).Coherent()
              && c.After(op).current.Some? && c.After(op).stored.Some?
              && Permitted(c.After(op).current.value, "u", "c", Publish, topic)
              && !Permitted(c.After(op).stored.value, "u", "c", Publish, topic)
  {
    var c := Cache(false, None, Some(Ruleset(false, [])), Some(Ruleset(false, [])));
    var op := Put(Ruleset(true, []), Write(false, true));
    assert c.Tears(op);
  }

  /** A reload brings a torn cache back exactly when there are rules to load; after a torn
      delete it leaves the old rules in force. */
  lemma ReloadHealsExact(c: Cache)
    ensures c.After(Load).Coherent() <==> c.Source().Some? || c.current.None?
  {
  }

  class Manager {
    const defaultDeny: bool
    const file: Option<Ruleset>
    var stored: Option<Ruleset>
    var current: Option<Ruleset>

    ghost function View(): Cache reads this {
      Cache(defaultDeny, file, stored, current)
    }

    constructor (defaultDeny: bool, file: Option<Ruleset>, stored: Option<Ruleset>)
      ensures View() == Cache(defaultDeny, file, stored, None) && View().Coherent()
    {
      this.defaultDeny, this.file, this.stored, current := defaultDeny, file, stored, None;
    }

    function Effective(rs: Ruleset): (r: Ruleset)
      ensures r.rules == rs.rules && (r.defaultDeny <==> rs.defaultDeny || defaultDeny)
    {
      rs.(defaultDeny := rs.defaultDeny || defaultDeny)
    }

    method Reload() returns (out: Outcome)
      modifies `current
      ensures View() == old(View()).After(Load)
      ensures out == if View().Source().Some? then Ok else NotFound
      ensures old(View()).Coherent() ==> View().Coherent()
      ensures file.Some? || stored.Some? ==>
                && current.Some? && current.value.rules == (if file.Some? then file.value else stored.value).rules
                && (current.value.defaultDeny <==>
                      defaultDeny || (if file.Some? then file.value else stored.value).defaultDeny)
      ensures file.None? && stored.None? ==> current == old(current)
    {
      var source := if file.Some? then file else stored;
      if source.None? { return NotFound; }
      current := Some(Effective(source.value));
      return Ok;
    }

    /** EnsureLoaded keeps what is cached, torn or not, and loads only into an empty cache. If the
        cache was coherent, the rules in force are afterwards those of the source, if any. */
    method EnsureLoaded() returns (out: Outcome)
      modifies `current
      ensures View() == if old(current).Some? then old(View()) else old(View()).After(Load)
      ensures out == if old(current).Some? || View().Source().Some? then Ok else NotFound
      ensures View().Coherent() <==> old(View()).Coherent()
      ensures View().Coherent() ==>
                current == if View().Source().Some? then Some(Effective(View().Source().value)) else None
    {
      if current.Some? { return Ok; }
      out := Reload();
    }

    /** Writes the rules, then replaces the cached evaluator. */
    method Save(rs: Ruleset, write: Write) returns (out: Outcome)
      requires file.None? && Effective(rs) == rs && (write.ok ==> write.applied)
      modifies `stored, `current
      ensures out == if write.ok then Ok else StoreError
      ensures View() == old(View()).Written(Change.Save(rs), write)
      ensures old(View()).Coherent() ==>
                (View().Coherent() <==>
                   write.ok || !write.applied || old(current).None? || old(current) == Some(rs))
    {
      if write.applied { stored := Some(rs); }
      if !write.ok { return StoreError; }
      current := Some(rs);
      return Ok;
    }

    method PutRuleset(rs: Ruleset, write: Write) returns (out: Outcome)
      requires write.ok ==> write.applied
      modifies `stored, `current
      ensures View() == old(View()).After(Put(rs, write))
      ensures old(View()).Coherent() ==> (View().Coherent() <==> !old(View()).Tears(Put(rs, write)))
      ensures out.Ok? <==> file.None? && AllNamed(rs.rules) && write.ok
      ensures out.Ok? ==> stored == current == Some(Effective(rs))
      ensures out.FileModeActive? || out.InvalidIdentity? ==> View() == old(View())
    {
      if file.Some? { return FileModeActive; }
      for n := 0 to |rs.rules|
        modifies {}
        invariant forall i :: 0 <= i < n ==> Named(rs.rules[i].identity)
      {
        if !Named(rs.rules[n].identity) { return InvalidIdentity; }
      }
      out := Save(Effective(rs), write);
    }

    method DeleteRuleset(write: Write) returns (out: Outcome)
      requires write.ok ==> write.applied
      modifies `stored, `current
      ensures View() == old(View()).After(Clear(write))
      ensures old(View()).Coherent() ==>
                (View().Coherent() <==> file.Some? || write.ok || !write.applied || old(current).None?)
      ensures out.Ok? <==> file.None? && write.ok
      ensures out.Ok? ==> stored == current == None
    {
      if file.Some? { return FileModeActive; }
      if write.applied { stored := None; }
      if !write.ok { return StoreError; }
      current := None;
      return Ok;
    }

    method GetRule(id: Identity) returns (out: Outcome, rule: Option<Rule>)
      ensures out.Ok? <==> Named(id)
      ensures out.Ok? ==> rule == if View().Source().Some? then Find(View().Source().value.rules, id) else None
    {
      if !Named(id) { return InvalidIdentity, None; }
      var source := if file.Some? then file else stored;
      if source.None? { return Ok, None; }
      var rules := source.value.rules;
      for n := 0 to |rules|
        invariant forall i :: 0 <= i < n ==> rules[i].identity != id
      {
        if rules[n].identity == id {
          FindSkips(rules, n, id);
          return Ok, Some(rules[n]);
        }
      }
      FindSkips(rules, |rules|, id);
      return Ok, None;
    }

    method UpsertRule(rule: Rule, write: Write) returns (out: Outcome)
      requires write.ok ==> write.applied
      modifies `stored, `current
      ensures View() == old(View()).After(Upsert(rule, write))
      ensures old(View()).Coherent() ==> (View().Coherent() <==> !old(View()).Tears(Upsert(rule, write)))
      ensures out.Ok? <==> file.None? && Named(rule.identity) && write.ok
      ensures out.Ok? ==> stored == current && stored.Some?
      ensures out.Ok? ==>
                (stored.value.defaultDeny <==> defaultDeny || (old(stored).Some? && old(stored).value.defaultDeny))
      ensures out.Ok? ==>
                forall id :: Find(stored.value.rules, id) ==
                             if id == rule.identity then Some(rule) else Find(old(View()).StoredRules(), id)
    {
      if file.Some? { return FileModeActive; }
      if !Named(rule.identity) { return InvalidIdentity; }
      var rs := Effective(if stored.Some? then stored.value else Ruleset(defaultDeny, []));
      var rules := rs.rules;
      var n := 0;
      while n < |rules| && rules[n].identity != rule.identity
        invariant 0 <= n <= |rules| && forall i :: 0 <= i < n ==> rules[i].identity != rule.identity
      {
        n := n + 1;
      }
      UpsertSkips(rules, n, rule);
      forall id { FindUpserted(rules, rule, id); }
      if n < |rules| {
        rules := rules[n := rule];
      } else {
        rules := rules + [rule];
      }
      assert rules == Upserted(rs.rules, rule);
      out := Save(rs.(rules := rules), write);
    }

    /** The loop of DeleteRule: filters the rules in place. */
    method KeepOthers(rules: seq<Rule>, id: Identity) returns (kept: seq<Rule>, removed: bool)
      ensures kept == Without(rules, id) && (removed <==> Find(rules, id).Some?)
      ensures !removed ==> kept == rules
    {
      kept, removed := [], false;
      for n := 0 to |rules|
        invariant kept == Without(rules[..n], id)
        invariant removed <==> exists i :: 0 <= i < n && rules[i].identity == id
        invariant !removed ==> kept == rules[..n]
      {
        WithoutAppend(rules[..n], rules[n], id);
        assert rules[..n + 1] == rules[..n] + [rules[n]];
        if rules[n].identity == id {
          removed := true;
        } else {
          kept := kept + [rules[n]];
        }
      }
      assert rules[..|rules|] == rules;
      FindExists(rules, id);
    }

    method DeleteRule(id: Identity, write: Write) returns (out: Outcome, removed: bool)
      requires write.ok ==> write.applied
      modifies `stored, `current
      ensures View() == old(View()).After(Drop(id, write))
      ensures old(View()).Coherent() ==> (View().Coherent() <==> !old(View()).Tears(Drop(id, write)))
      ensures removed ==> out.Ok? && stored == current && stored.Some?
      ensures removed ==>
                old(stored).Some? && (stored.value.defaultDeny <==> defaultDeny || old(stored).value.defaultDeny)
      ensures removed ==>
                forall other :: Find(stored.value.rules, other) ==
                                if other == id then None else Find(old(View()).StoredRules(), other)
      ensures out.Ok? && !removed ==> View() == old(View()) && Find(View().StoredRules(), id).None?
    {
      if file.Some? { return FileModeActive, false; }
      if !Named(id) { return InvalidIdentity, false; }
      if stored.None? { return Ok, false; }
      var rs := stored.value;
      var kept;
      kept, removed := KeepOthers(rs.rules, id);
      if !removed { return Ok, false; }
      forall other { FindWithout(rs.rules, id, other); }
      out := Save(Effective(rs.(rules := kept)), write);
      removed := out.Ok?;
    }

    method Do(op: Op)
      requires Honest(op)
      modifies `stored, `current
      ensures View() == old(View()).After(op)
    {
      match op
      case Load => var _ := Reload();
      case Put(rs, write) => var _ := PutRuleset(rs, write);
      case Clear(write) => var _ := DeleteRuleset(write);
      case Upsert(rule, write) => var _ := UpsertRule(rule, write);
      case Drop(id, write) => var _, _ := DeleteRule(id, write);
    }

    /** Any sequence of operations leaves the manager as AfterAll says; from a coherent cache, if
        none of them tears it, it ends coherent. */
    method Run(ops: seq<Op>)
      requires forall i :: 0 <= i < |ops| ==> Honest(ops[i])
      modifies `stored, `current
      ensures View() == AfterAll(old(View()), ops)
      ensures old(View()).Coherent() && (forall n :: 0 <= n < |ops| ==> !TornBy(old(View()), ops, n)) ==>
                View().Coherent()
    {
      for n := 0 to |ops|
        invariant View() == AfterAll(old(View()), ops[..n])
      {
        Do(ops[n]);
        assert ops[..n + 1][..n] == ops[..n];
      }
      assert ops[..|ops|] == ops;
      if old(View()).Coherent() && forall n :: 0 <= n < |ops| ==> !TornBy(old(View()), ops, n) {
        NeverTorn(old(View()), ops, |ops|);
      }
    }
  }
}
