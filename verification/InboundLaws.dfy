/** What becomes of a single message of QoS 2 over every run of InboundQoS2, from the PUBLISH
    that brought it to the router. */
module InboundLaws {
  import opened InboundQoS2

  /** Wherever the message with this origin is kept, it carries this reason code. */
  ghost predicate Carries(s: State, o: nat, code: nat) {
    && o < |s.home|
    && (forall p :: p in s.waiting && s.waiting[p].origin == o ==> s.waiting[p].reason == code)
    && (forall p :: p in s.durable && s.durable[p].origin == o ==> s.durable[p].reason == code)
  }

  /** The message with origin o is nowhere in m' where it was not in m. */
  ghost predicate From(m': map<nat, Message>, m: map<nat, Message>, o: nat) {
    forall p :: p in m' && m'[p].origin == o ==> p in m && m[p] == m'[p]
  }

  /** Messages may go; those that stay are as they were. */
  ghost predicate Known(s: State, s': State, o: nat) {
    |s.home| <= |s'.home| && From(s'.waiting, s.waiting, o) && From(s'.durable, s.durable, o)
  }

  lemma KnownTwice(s: State, t: State, u: State, o: nat)
    requires Known(s, t, o) && Known(t, u, o)
    ensures Known(s, u, o)
  {
  }

  lemma SweepKnown(s: State, now: int, o: nat)
    ensures Known(s, Sweep(s, now), o) && Sweep(s, now).home == s.home
  {
  }

  lemma ParkedKnown(s: State, pid: nat, m: Message, now: int, o: nat)
    requires m.origin != o
    ensures Known(s, Parked(s, pid, m, now), o)
  {
  }

  lemma RecordedKnown(s: State, pid: nat, m: Message, o: nat)
    requires m.origin != o
    ensures Known(s, Recorded(s, pid, m), o)
  {
  }

  lemma UnparkedKnown(s: State, pid: nat, o: nat)
    ensures Known(s, Unparked(s, pid), o)
  {
  }

  lemma StoreKnown(s: State, pid: nat, m: Message, now: int, upsert: Call, o: nat)
    requires m.origin != o
    ensures Known(s, StoreStep(s, pid, m, now, upsert), o)
  {
    var t := Parked(Sweep(s, now), pid, m, now);
    SweepKnown(s, now, o);
    ParkedKnown(Sweep(s, now), pid, m, now, o);
    KnownTwice(s, Sweep(s, now), t, o);
    RecordedKnown(t, pid, m, o);
    KnownTwice(s, t, Recorded(t, pid, m), o);
    UnparkedKnown(t, pid, o);
    KnownTwice(s, t, Unparked(t, pid), o);
    UnparkedKnown(Recorded(t, pid, m), pid, o);
    KnownTwice(s, Recorded(t, pid, m), Unparked(Recorded(t, pid, m), pid), o);
  }

  lemma AdmitKnown(s: State, a: Action, o: nat)
    requires a.Publish? && o < |s.home|
    ensures Known(s, AdmitStep(s, a.pid, a.retain, a.now, a.later, a.others, a.matched, a.upsert), o)
  {
    var t := Sweep(s, a.now);
    SweepKnown(s, a.now, o);
    var u := t.(home := t.home + [a.pid]);
    assert Known(s, u, o);
    var m := Message(|t.home|, if a.matched then SUCCESS else NO_MATCHING_SUBSCRIBERS, a.retain);
    StoreKnown(u, a.pid, m, a.later, a.upsert, o);
    KnownTwice(s, u, StoreStep(u, a.pid, m, a.later, a.upsert), o);
  }

  lemma FinishKnown(s: State, pid: nat, remove: Call, o: nat)
    ensures Known(s, Finish(s, pid, remove), o)
  {
    UnparkedKnown(s.(durable := if s.persistent then s.durable - {pid} else s.durable), pid, o);
  }

  lemma PubRelKnown(s: State, a: Action, o: nat)
    requires a.PubRel?
    ensures Known(s, PubRelStep(s, a.pid, a.negative, a.commit, a.route, a.remove), o)
  {
    if a.pid in s.waiting {
      var m := s.waiting[a.pid];
      if a.negative || IsError(m.reason) {
        FinishKnown(s.(h := s.h.(withdrawn := s.h.withdrawn + {m.origin})), a.pid, a.remove, o);
      } else if m.reason == NO_MATCHING_SUBSCRIBERS {
        FinishKnown(s.(h := s.h.(unmatched := s.h.unmatched + {m.origin})), a.pid, a.remove, o);
      } else if a.route.applied {
        FinishKnown(s.(h := s.h.(routed := s.h.routed + [m.origin])), a.pid, a.remove, o);
      } else {
        FinishKnown(s, a.pid, a.remove, o);
      }
    }
  }

  lemma PublishKnown(s: State, a: Action, s': State, o: nat)
    requires a.Publish? && Step(s, a, s') && o < |s.home|
    ensures Known(s, s', o)
  {
    AdmitKnown(s, a, o);
  }

  lemma KnownCarries(s: State, s': State, o: nat, code: nat)
    requires Known(s, s', o) && Carries(s, o, code)
    ensures Carries(s', o, code)
  {
  }

  /** What a new connection starts with: exactly the records of the session, or nothing if it
      asks for a clean start; and what the end of a connection leaves. */
  lemma SessionsExact(s: State, a: Action, s': State)
    requires Step(s, a, s') && (a.Connect? || a.Close? || a.Expire?)
    ensures a.Connect? ==>
              && s'.alive && s'.waiting == s'.durable && s'.durable == (if a.cleanStart then map[] else s.durable)
              && (forall p :: p in s'.waiting ==> p in s'.lastSeen && s'.lastSeen[p] == a.now)
              && s'.persistent == a.persistent && s'.maximum == a.maximum
    ensures a.Close? ==> !s'.alive && s'.durable == if a.saved && !a.lasting then map[] else s.durable
    ensures a.Expire? ==> s'.durable == map[] && !s'.alive
    ensures !a.Connect? ==> s'.waiting == s.waiting
    ensures s'.home == s.home && s'.h.routed == s.h.routed
  {
  }

  lemma SessionCarries(s: State, a: Action, s': State, o: nat, code: nat)
    requires Step(s, a, s') && Carries(s, o, code) && (a.Connect? || a.Close? || a.Expire?)
    ensures Carries(s', o, code)
  {
    SessionsExact(s, a, s');
  }

  lemma StepCarries(s: State, a: Action, s': State, o: nat, code: nat)
    requires Step(s, a, s') && Carries(s, o, code)
    ensures Carries(s', o, code)
  {
    if a.Publish? {
      PublishKnown(s, a, s', o);
      KnownCarries(s, s', o, code);
    } else if a.PubRel? {
      PubRelKnown(s, a, o);
      KnownCarries(s, s', o, code);
    } else {
      SessionCarries(s, a, s', o, code);
    }
  }

  lemma {:induction false} RunCarries(run: seq<State>, acts: seq<Action>, i: nat, j: nat, o: nat, code: nat)
    requires Run(run, acts) && i <= j < |run| && Carries(run[i], o, code)
    ensures Carries(run[j], o, code)
    decreases j
  {
    if i < j {
      RunCarries(run, acts, i, j - 1, o, code);
      assert Step(run[j - 1], acts[j - 1], run[j]);
      StepCarries(run[j - 1], acts[j - 1], run[j], o, code);
    }
  }

  /** Step i brings the message with origin o. */
  ghost predicate Brings(run: seq<State>, acts: seq<Action>, i: nat, o: nat)
    requires i < |acts| && |run| == |acts| + 1
  {
    acts[i].Publish? && o == |run[i].home| < |run[i + 1].home|
  }

  /** 0x00 if somebody subscribed, else 0x10. */
  function Code(matched: bool): nat {
    if matched then 0x00 else 0x10
  }

  /** No message has the origin, or only m has. */
  ghost predicate OnlyAs(m: Message, held: map<nat, Message>) {
    forall p :: p in held && held[p].origin == m.origin ==> held[p] == m
  }

  ghost predicate Alone(s: State, m: Message) {
    OnlyAs(m, s.waiting) && OnlyAs(m, s.durable)
  }

  lemma StoreQuiet(s: State, pid: nat, m: Message, now: int, upsert: Call)
    ensures StoreStep(s, pid, m, now, upsert).h.routed == s.h.routed
    ensures StoreStep(s, pid, m, now, upsert).home == s.home
  {
  }

  lemma StoreAlone(s: State, pid: nat, m: Message, now: int, upsert: Call)
    requires Alone(s, m)
    ensures Alone(StoreStep(s, pid, m, now, upsert), m)
  {
    var t := Parked(Sweep(s, now), pid, m, now);
    assert Alone(t, m);
    assert Alone(Recorded(t, pid, m), m);
  }

  lemma BroughtCarries(s: State, a: Action, s': State)
    requires Shaped(s) && a.Publish? && Step(s, a, s') && |s.home| < |s'.home|
    ensures Carries(s', |s.home|, Code(a.matched)) && s'.h.routed == s.h.routed && s'.home == s.home + [a.pid]
  {
    var t := Sweep(s, a.now);
    var u := t.(home := t.home + [a.pid]);
    var m := Message(|t.home|, if a.matched then SUCCESS else NO_MATCHING_SUBSCRIBERS, a.retain);
    assert Alone(u, m);
    StoreAlone(u, a.pid, m, a.later, a.upsert);
    StoreQuiet(u, a.pid, m, a.later, a.upsert);
  }

  /** The message keeps the code of its PUBLISH for as long as it is anywhere. */
  lemma CodeStays(run: seq<State>, acts: seq<Action>, i: nat, j: nat, o: nat)
    requires Run(run, acts) && i < j < |run| && Brings(run, acts, i, o)
    ensures Carries(run[j], o, Code(acts[i].matched))
  {
    RunKeeps(run, acts, i);
    assert Step(run[i], acts[i], run[i + 1]);
    BroughtCarries(run[i], acts[i], run[i + 1]);
    RunCarries(run, acts, i + 1, j, o, Code(acts[i].matched));
  }

  /** A PUBREL for a parked message, and every call it makes succeeds. */
  ghost predicate Releases(s: State, a: Action, o: nat) {
    && a.PubRel? && !a.negative && a.pid in s.waiting && s.waiting[a.pid].origin == o
    && a.commit.ok && a.route.ok && a.remove.ok
  }

  /** Delivered: a message somebody subscribed to is routed by the first PUBREL whose calls
      succeed, however many repeats and reconnects lie between, and is then gone. */
  lemma MatchedIsRouted(run: seq<State>, acts: seq<Action>, i: nat, j: nat, o: nat)
    requires Run(run, acts) && i < j < |acts| && Brings(run, acts, i, o) && acts[i].matched
    requires Releases(run[j], acts[j], o)
    ensures run[j + 1].h.routed == run[j].h.routed + [o]
    ensures acts[j].pid !in run[j + 1].waiting && (run[j].persistent ==> acts[j].pid !in run[j + 1].durable)
  {
    CodeStays(run, acts, i, j, o);
    assert Step(run[j], acts[j], run[j + 1]);
  }

  lemma PublishRoutesNothing(s: State, a: Action, s': State)
    requires a.Publish? && Step(s, a, s')
    ensures s'.h.routed == s.h.routed
  {
    var t := Sweep(s, a.now);
    var m := Message(|t.home|, if a.matched then SUCCESS else NO_MATCHING_SUBSCRIBERS, a.retain);
    StoreQuiet(t.(home := t.home + [a.pid]), a.pid, m, a.later, a.upsert);
  }

  lemma StepDoesNotRoute(s: State, a: Action, s': State, o: nat)
    requires Inv(s) && Step(s, a, s') && Carries(s, o, 0x10) && o !in s.h.routed
    ensures o !in s'.h.routed
  {
    if a.Publish? {
      PublishRoutesNothing(s, a, s');
    } else if !a.PubRel? {
      SessionsExact(s, a, s');
    } else if Routes(s, a) {
      RouteEffect(s, a, s');
    } else {
      QuietEffect(s, a, s');
    }
  }

  lemma NextDoesNotRoute(run: seq<State>, acts: seq<Action>, j: nat, o: nat)
    requires Run(run, acts) && j < |acts| && Carries(run[j], o, 0x10) && o !in run[j].h.routed
    ensures o !in run[j + 1].h.routed
  {
    RunKeeps(run, acts, j);
    assert Step(run[j], acts[j], run[j + 1]);
    StepDoesNotRoute(run[j], acts[j], run[j + 1], o);
  }

  lemma {:induction false} RunDoesNotRoute(run: seq<State>, acts: seq<Action>, i: nat, j: nat, o: nat)
    requires Run(run, acts) && i <= j < |run| && Carries(run[i], o, 0x10) && o !in run[i].h.routed
    ensures o !in run[j].h.routed
    decreases j
  {
    if i < j {
      RunDoesNotRoute(run, acts, i, j - 1, o);
      RunCarries(run, acts, i, j - 1, o, 0x10);
      NextDoesNotRoute(run, acts, j - 1, o);
    }
  }

  /** A message nobody subscribed to is never routed. */
  lemma UnmatchedIsNotRouted(run: seq<State>, acts: seq<Action>, i: nat, j: nat, o: nat)
    requires Run(run, acts) && i < j < |run| && Brings(run, acts, i, o) && !acts[i].matched
    ensures o !in run[j].h.routed
  {
    RunKeeps(run, acts, i);
    assert Step(run[i], acts[i], run[i + 1]);
    BroughtCarries(run[i], acts[i], run[i + 1]);
    RunDoesNotRoute(run, acts, i + 1, j, o);
  }
}
