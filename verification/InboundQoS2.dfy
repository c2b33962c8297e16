/** Exactly-once reception of QoS 2 messages (client_handler_publish.go,
    client_handler_qos_flow.go, incoming_qos2_restore.go, qos2_receiver.go).

    A PUBLISH is parked under its packet identifier, recorded in the session when the session
    outlives the connection, acknowledged with PUBREC, and routed only when PUBREL arrives.
    Each parked message carries an `origin`, the number of the PUBLISH it came from, so that a
    message keeps its identity when a later connection restores it from the session. */
module InboundQoS2 {
  import opened Sequences

  const SUCCESS: nat := 0x00
  const NO_MATCHING_SUBSCRIBERS: nat := 0x10
  const TTL: int := 600_000_000_000 // defaultQoS2WaitingTTL, in nanoseconds

  datatype Message = Message(origin: nat, reason: nat, retain: bool)

  // Outcome of a call to another component; one that reports an error may have taken effect.
  datatype Call = Call(ok: bool, applied: bool)

  // Whether topic, alias and properties are valid and the payload matches its declared format.
  datatype Envelope = Sound | BadPayload | Invalid

  // What plugins, capabilities and the rate limit make of a PUBLISH that is not a repeat.
  datatype Admission = Admitted | Denied | Refused

  // What became of messages, by origin.
  datatype History = History(
    routed: seq<nat>,
    promised: set<nat>,     // acknowledged with PUBREC on a connection with a lasting session
    withdrawn: set<nat>,    // ended by a PUBREL with an error code
    unmatched: set<nat>,    // nobody subscribed when the PUBLISH arrived
    expired: set<nat>,      // not touched for longer than TTL
    replaced: set<nat>,     // record overwritten by a later PUBLISH with its identifier
    discarded: set<nat>)    // record dropped together with its session

  datatype State = State(
    waiting: map<nat, Message>,
    lastSeen: map<nat, int>,
    durable: map<nat, Message>,   // incoming records of the session
    persistent: bool,             // session expiry interval of this connection is positive
    alive: bool,
    maximum: nat,                 // Receive Maximum of the server, 0 for none
    home: seq<nat>,               // identifier of every message parked so far, by origin
    h: History)

  datatype Action =
    | Publish(pid: nat, retain: bool, now: int, later: int, envelope: Envelope, admission: Admission,
              others: nat, matched: bool, upsert: Call)
    | PubRel(pid: nat, negative: bool, commit: Call, route: Call, remove: Call)
    | Close(saved: bool, lasting: bool)
    | Connect(persistent: bool, cleanStart: bool, now: int, maximum: nat)
    | Expire

  predicate IsError(reason: nat) {
    reason >= 0x80
  }

  function Origins(m: map<nat, Message>): set<nat> {
    set p | p in m :: m[p].origin
  }

  // ---- what each operation does ----

  predicate Stays(lastSeen: map<nat, int>, now: int, p: nat) {
    p in lastSeen ==> now - lastSeen[p] <= TTL
  }

  function Sweep(s: State, now: int): State {
    s.(waiting := map p | p in s.waiting && Stays(s.lastSeen, now, p) :: s.waiting[p],
       lastSeen := map p | p in s.lastSeen && Stays(s.lastSeen, now, p) :: s.lastSeen[p],
       h := s.h.(expired := s.h.expired +
                            set p | p in s.waiting && !Stays(s.lastSeen, now, p) :: s.waiting[p].origin))
  }

  function Promise(s: State, origin: nat): State {
    if s.persistent then s.(h := s.h.(promised := s.h.promised + {origin})) else s
  }

  function Recorded(s: State, pid: nat, m: Message): State {
    s.(durable := s.durable[pid := m],
       h := if pid in s.durable then s.h.(replaced := s.h.replaced + {s.durable[pid].origin}) else s.h)
  }

  function Parked(s: State, pid: nat, m: Message, now: int): State {
    if pid in s.waiting then s.(lastSeen := s.lastSeen[pid := now])
    else s.(waiting := s.waiting[pid := m], lastSeen := s.lastSeen[pid := now])
  }

  function Unparked(s: State, pid: nat): State {
    if pid in s.waiting then s.(waiting := s.waiting - {pid}, lastSeen := s.lastSeen - {pid}) else s
  }

  function StoreStep(s: State, pid: nat, m: Message, now: int, upsert: Call): State {
    var t := Parked(Sweep(s, now), pid, m, now);
    if !t.persistent then t
    else if upsert.ok then Promise(Recorded(t, pid, m), m.origin)
    else Unparked(if upsert.applied then Recorded(t, pid, m) else t, pid).(alive := false)
  }

  /** A PUBLISH that passed every check but the Receive Maximum. */
  function AdmitStep(s: State, pid: nat, retain: bool, now: int, later: int, others: nat, matched: bool,
                     upsert: Call): State
  {
    var t := Sweep(s, now);
    if 0 < t.maximum <= others + |t.waiting| then t.(alive := false)
    else
      var m := Message(|t.home|, if matched then SUCCESS else NO_MATCHING_SUBSCRIBERS, retain);
      StoreStep(t.(home := t.home + [pid]), pid, m, later, upsert)
  }

  function PublishStep(s: State, pid: nat, retain: bool, now: int, later: int, envelope: Envelope,
                       admission: Admission, others: nat, matched: bool, upsert: Call): State
  {
    if envelope.Invalid? then s.(alive := false)
    else if envelope.BadPayload? then s
    else if pid in s.waiting && !IsError(s.waiting[pid].reason) then Promise(s, s.waiting[pid].origin)
    else if admission.Denied? then s
    else if admission.Refused? then s.(alive := false)
    else AdmitStep(s, pid, retain, now, later, others, matched, upsert)
  }

  /** Removes the record, then the parked message; an error ends the connection in between. */
  function Finish(s: State, pid: nat, remove: Call): State {
    if s.persistent && !remove.ok then
      s.(durable := if remove.applied then s.durable - {pid} else s.durable, alive := false)
    else
      Unparked(s.(durable := if s.persistent then s.durable - {pid} else s.durable), pid)
  }

  function PubRelStep(s: State, pid: nat, negative: bool, commit: Call, route: Call, remove: Call): State {
    if pid !in s.waiting then s
    else
      var m := s.waiting[pid];
      if negative || IsError(m.reason) then
        Finish(s.(h := s.h.(withdrawn := s.h.withdrawn + {m.origin})), pid, remove)
      else if m.retain && !commit.ok then
        s.(alive := false)
      else if m.reason == NO_MATCHING_SUBSCRIBERS then
        Finish(s.(h := s.h.(unmatched := s.h.unmatched + {m.origin})), pid, remove)
      else
        var t := if route.applied then s.(h := s.h.(routed := s.h.routed + [m.origin])) else s;
        if !route.ok then t.(alive := false) else Finish(t, pid, remove)
  }

  function Discard(s: State): State {
    s.(durable := map[], h := s.h.(discarded := s.h.discarded + Origins(s.durable)))
  }

  /** Saving the offline state keeps incoming records, except that a session that ends with
      its connection is deleted. */
  function CloseStep(s: State, saved: bool, lasting: bool): State {
    var t := s.(alive := false);
    if saved && !lasting then Discard(t) else t
  }

  function ConnectStep(s: State, persistent: bool, cleanStart: bool, now: int, maximum: nat): State {
    var t := if cleanStart then Discard(s) else s;
    t.(waiting := t.durable, lastSeen := map p | p in t.durable :: now,
       persistent := persistent, alive := true, maximum := maximum)
  }

  ghost predicate Honest(c: Call) {
    c.ok ==> c.applied
  }

  ghost predicate Step(s: State, a: Action, s': State) {
    match a
    case Publish(pid, retain, now, later, envelope, admission, others, matched, upsert) =>
      && s.alive && 0 < pid && Honest(upsert)
      && s' == PublishStep(s, pid, retain, now, later, envelope, admission, others, matched, upsert)
    case PubRel(pid, negative, commit, route, remove) =>
      && s.alive && 0 < pid && Honest(commit) && Honest(route) && Honest(remove)
      && s' == PubRelStep(s, pid, negative, commit, route, remove)
    case Close(saved, lasting) => s' == CloseStep(s, saved, lasting)
    case Connect(persistent, cleanStart, now, maximum) =>
      !s.alive && s' == ConnectStep(s, persistent, cleanStart, now, maximum)
    case Expire => !s.alive && s' == Discard(s)
  }

  ghost predicate Init(s: State) {
    s == State(map[], map[], map[], false, false, 0, [], History([], {}, {}, {}, {}, {}, {}))
  }

  ghost predicate Run(run: seq<State>, acts: seq<Action>) {
    && |run| == |acts| + 1 && Init(run[0])
    && forall i {:trigger acts[i]} :: 0 <= i < |acts| ==> Step(run[i], acts[i], run[i + 1])
  }

  // ---- invariants of every run ----

  ghost predicate Proper(m: map<nat, Message>, home: seq<nat>) {
    forall p :: p in m ==>
      m[p].origin < |home| && home[m[p].origin] == p && m[p].reason in {SUCCESS, NO_MATCHING_SUBSCRIBERS}
  }

  ghost predicate Shaped(s: State) {
    && s.lastSeen.Keys == s.waiting.Keys
    && Proper(s.waiting, s.home) && Proper(s.durable, s.home)
    && (forall o :: o in s.h.routed ==> o < |s.home|)
    && (forall o :: o in s.h.promised ==> o < |s.home|)
  }

  /** With a lasting session every parked message is recorded, and every record is parked
      unless it expired. */
  ghost predicate Backed(s: State) {
    s.alive && s.persistent ==>
      && (forall p :: p in s.waiting ==> p in s.durable && s.durable[p] == s.waiting[p])
      && (forall p :: p in s.durable && p !in s.waiting ==> s.durable[p].origin in s.h.expired)
  }

  /** A message reads the same wherever it is kept. */
  ghost predicate Agrees(s: State) {
    forall p :: p in s.waiting && p in s.durable && s.waiting[p].origin == s.durable[p].origin ==>
      s.waiting[p] == s.durable[p]
  }

  ghost predicate Settled(h: History, o: nat) {
    o in h.routed || o in h.withdrawn || o in h.unmatched || o in h.replaced || o in h.discarded
  }

  ghost predicate InSession(s: State, o: nat) {
    o < |s.home| && s.home[o] in s.durable && s.durable[s.home[o]].origin == o
  }

  /** Nothing acknowledged is lost silently. */
  ghost predicate Kept(s: State) {
    && (forall o :: o in s.h.promised ==> Settled(s.h, o) || InSession(s, o))
    && s.h.replaced <= s.h.expired
  }

  /** No origin is routed twice, and a routed one cannot be reached again. */
  ghost predicate Once(s: State) {
    && Distinct(s.h.routed)
    && (forall p :: p in s.durable ==> s.durable[p].origin !in s.h.routed)
    && (s.alive ==> forall p :: p in s.waiting ==> s.waiting[p].origin !in s.h.routed)
  }

  ghost predicate Inv(s: State) {
    Shaped(s) && Backed(s) && Agrees(s) && Kept(s)
  }

  // The three stages of a PUBLISH, then the two of a PUBREL.

  lemma SweepKeeps(s: State, now: int)
    requires Inv(s) && s.alive
    ensures Inv(Sweep(s, now)) && (Once(s) ==> Once(Sweep(s, now)))
  {
  }

  /** Parking alone, on a connection whose session ends with it. */
  lemma ParkKeeps(s: State, pid: nat, m: Message, now: int)
    requires Inv(s) && s.alive && !s.persistent && pid !in s.waiting && m.origin == |s.home|
    requires m.reason in {SUCCESS, NO_MATCHING_SUBSCRIBERS}
    ensures Inv(Parked(s.(home := s.home + [pid]), pid, m, now))
    ensures Once(s) ==> Once(Parked(s.(home := s.home + [pid]), pid, m, now))
  {
  }

  /** A record alone: the write took effect but the connection ends. */
  lemma RecordKeeps(s: State, pid: nat, m: Message)
    requires Inv(s) && s.alive && s.persistent && pid !in s.waiting && m.origin == |s.home|
    requires m.reason in {SUCCESS, NO_MATCHING_SUBSCRIBERS}
    ensures Inv(Recorded(s.(home := s.home + [pid]), pid, m).(alive := false))
    ensures Once(s) ==> Once(Recorded(s.(home := s.home + [pid]), pid, m).(alive := false))
  {
  }

  function ParkedAndRecorded(s: State, pid: nat, m: Message, now: int): State {
    Promise(Recorded(Parked(s.(home := s.home + [pid]), pid, m, now), pid, m), m.origin)
  }

  lemma ParkRecordedShaped(s: State, pid: nat, m: Message, now: int)
    requires Shaped(s) && Backed(s) && s.alive && s.persistent && pid !in s.waiting && m.origin == |s.home|
    requires m.reason in {SUCCESS, NO_MATCHING_SUBSCRIBERS}
    ensures Shaped(ParkedAndRecorded(s, pid, m, now)) && Backed(ParkedAndRecorded(s, pid, m, now))
    ensures Agrees(ParkedAndRecorded(s, pid, m, now))
  {
  }

  lemma ParkRecordedKept(s: State, pid: nat, m: Message, now: int)
    requires Shaped(s) && Backed(s) && Kept(s) && s.alive && s.persistent
    requires pid !in s.waiting && m.origin == |s.home|
    ensures Kept(ParkedAndRecorded(s, pid, m, now))
    ensures Once(s) ==> Once(ParkedAndRecorded(s, pid, m, now))
  {
  }

  /** What storing a PUBLISH under a free identifier comes to. */
  lemma StoreCases(s: State, pid: nat, m: Message, now: int, upsert: Call)
    requires s.lastSeen.Keys == s.waiting.Keys && pid !in s.waiting
    ensures var t := Sweep(s, now); var t' := t.(home := t.home + [pid]);
            StoreStep(s.(home := s.home + [pid]), pid, m, now, upsert) ==
            if !s.persistent then Parked(t', pid, m, now)
            else if upsert.ok then ParkedAndRecorded(t, pid, m, now)
            else if upsert.applied then Recorded(t', pid, m).(alive := false)
            else t'.(alive := false)
  {
    var t := Sweep(s, now);
    assert Sweep(s.(home := s.home + [pid]), now) == t.(home := t.home + [pid]);
    var u := Parked(t.(home := t.home + [pid]), pid, m, now);
    assert u.waiting - {pid} == t.waiting;
    assert u.lastSeen - {pid} == t.lastSeen;
  }

  lemma StoreKeeps(s: State, pid: nat, m: Message, now: int, upsert: Call)
    requires Inv(s) && s.alive && pid !in s.waiting && m.origin == |s.home|
    requires m.reason in {SUCCESS, NO_MATCHING_SUBSCRIBERS}
    ensures Inv(StoreStep(s.(home := s.home + [pid]), pid, m, now, upsert))
    ensures Once(s) ==> Once(StoreStep(s.(home := s.home + [pid]), pid, m, now, upsert))
  {
    StoreCases(s, pid, m, now, upsert);
    SweepKeeps(s, now);
    var t := Sweep(s, now);
    if !s.persistent {
      ParkKeeps(t, pid, m, now);
    } else if upsert.ok {
      ParkRecordedShaped(t, pid, m, now);
      ParkRecordedKept(t, pid, m, now);
    } else if upsert.applied {
      RecordKeeps(t, pid, m);
    } else {
      GrowKeeps(t, pid);
    }
  }

  lemma GrowKeeps(s: State, pid: nat)
    requires Inv(s)
    ensures Inv(s.(home := s.home + [pid], alive := false))
    ensures Once(s) ==> Once(s.(home := s.home + [pid], alive := false))
  {
  }

  lemma AdmitKeeps(s: State, pid: nat, retain: bool, now: int, later: int, others: nat, matched: bool,
                   upsert: Call)
    requires Inv(s) && s.alive && pid !in s.waiting
    ensures Inv(AdmitStep(s, pid, retain, now, later, others, matched, upsert))
    ensures Once(s) ==> Once(AdmitStep(s, pid, retain, now, later, others, matched, upsert))
  {
    SweepKeeps(s, now);
    var t := Sweep(s, now);
    if 0 < t.maximum <= others + |t.waiting| {
      EndKeeps(t);
    } else {
      var m := Message(|t.home|, if matched then SUCCESS else NO_MATCHING_SUBSCRIBERS, retain);
      StoreKeeps(t, pid, m, later, upsert);
    }
  }

  lemma EndKeeps(s: State)
    requires Inv(s)
    ensures Inv(s.(alive := false)) && (Once(s) ==> Once(s.(alive := false)))
  {
  }

  /** Acknowledging a repeated PUBLISH promises what is parked. */
  lemma PromiseKeeps(s: State, pid: nat)
    requires Inv(s) && s.alive && pid in s.waiting
    ensures Inv(Promise(s, s.waiting[pid].origin))
    ensures Once(s) ==> Once(Promise(s, s.waiting[pid].origin))
  {
  }

  lemma PublishKeeps(s: State, a: Action, s': State)
    requires Inv(s) && a.Publish? && Step(s, a, s')
    ensures Inv(s') && (Once(s) ==> Once(s'))
  {
    if a.envelope.Invalid? {
      EndKeeps(s);
    } else if a.envelope.BadPayload? {
      assert s' == s;
    } else if a.pid in s.waiting {
      PromiseKeeps(s, a.pid);
    } else if a.admission.Refused? {
      EndKeeps(s);
    } else if a.admission.Admitted? {
      AdmitKeeps(s, a.pid, a.retain, a.now, a.later, a.others, a.matched, a.upsert);
    }
  }

  /** Forgetting the record of a settled message. */
  lemma FinishKeeps(s: State, pid: nat, remove: Call)
    requires Inv(s) && s.alive && pid in s.waiting && Settled(s.h, s.waiting[pid].origin)
    ensures Inv(Finish(s, pid, remove))
  {
  }

  /** Settling a message adds it to one list of the history and changes nothing else. */
  lemma SettleKeeps(s: State, h: History)
    requires Inv(s) && h.expired == s.h.expired && h.replaced == s.h.replaced && h.promised == s.h.promised
    requires forall o :: Settled(s.h, o) ==> Settled(h, o)
    requires forall o :: o in h.routed ==> o < |s.home|
    ensures Inv(s.(h := h))
  {
  }

  lemma PubRelKeeps(s: State, a: Action, s': State)
    requires Inv(s) && a.PubRel? && Step(s, a, s')
    ensures Inv(s')
  {
    if a.pid in s.waiting {
      var m := s.waiting[a.pid];
      EndKeeps(s);
      if a.negative {
        var h := s.h.(withdrawn := s.h.withdrawn + {m.origin});
        SettleKeeps(s, h);
        FinishKeeps(s.(h := h), a.pid, a.remove);
      } else if m.reason == NO_MATCHING_SUBSCRIBERS {
        var h := s.h.(unmatched := s.h.unmatched + {m.origin});
        SettleKeeps(s, h);
        FinishKeeps(s.(h := h), a.pid, a.remove);
      } else {
        RouteKeeps(s, a, s');
      }
    }
  }

  lemma RouteKeeps(s: State, a: Action, s': State)
    requires Inv(s) && a.PubRel? && Step(s, a, s')
    requires a.pid in s.waiting && !a.negative && s.waiting[a.pid].reason == SUCCESS
    ensures Inv(s')
  {
    EndKeeps(s);
    var h := s.h.(routed := s.h.routed + [s.waiting[a.pid].origin]);
    SettleKeeps(s, h);
    EndKeeps(s.(h := h));
    FinishKeeps(s.(h := h), a.pid, a.remove);
  }

  lemma DiscardKeeps(s: State)
    requires Inv(s) && !s.alive
    ensures Inv(Discard(s)) && (Once(s) ==> Once(Discard(s)))
  {
  }

  lemma ConnectKeeps(s: State, a: Action, s': State)
    requires Inv(s) && a.Connect? && Step(s, a, s')
    ensures Inv(s') && (Once(s) ==> Once(s'))
  {
    DiscardKeeps(s);
  }

  lemma StepKeeps(s: State, a: Action, s': State)
    requires Inv(s) && Step(s, a, s')
    ensures Inv(s') && (Once(s) && !a.PubRel? ==> Once(s'))
  {
    match a
    case Publish(_, _, _, _, _, _, _, _, _) => PublishKeeps(s, a, s');
    case PubRel(_, _, _, _, _) => PubRelKeeps(s, a, s');
    case Close(_, _) =>
      EndKeeps(s);
      DiscardKeeps(s.(alive := false));
    case Connect(_, _, _, _) => ConnectKeeps(s, a, s');
    case Expire => DiscardKeeps(s);
  }

  lemma {:induction false} RunKeeps(run: seq<State>, acts: seq<Action>, i: nat)
    requires Run(run, acts) && i < |run|
    ensures Inv(run[i])
    decreases i
  {
    if i > 0 {
      RunKeeps(run, acts, i - 1);
      assert Step(run[i - 1], acts[i - 1], run[i]);
      StepKeeps(run[i - 1], acts[i - 1], run[i]);
    }
  }

  // ---- at most once, exactly ----

  /** PUBREL for a parked message that goes to the router. */
  predicate Routes(s: State, a: Action) {
    && a.PubRel? && a.pid in s.waiting && !a.negative && s.waiting[a.pid].reason == SUCCESS
    && (s.waiting[a.pid].retain ==> a.commit.ok) && a.route.applied
  }

  /** The message is routed while the session keeps its record: the router reports an error
      after taking the message, the record cannot be removed, or the connection does not
      maintain the records it restored. */
  predicate Hazard(s: State, a: Action) {
    && Routes(s, a) && a.pid in s.durable && s.durable[a.pid].origin == s.waiting[a.pid].origin
    && (!s.persistent || !a.route.ok || (!a.remove.ok && !a.remove.applied))
  }

  /** What a routing PUBREL does to the lists that decide about duplicates. */
  lemma RouteEffect(s: State, a: Action, s': State)
    requires Shaped(s) && Step(s, a, s') && Routes(s, a)
    ensures s'.h.routed == s.h.routed + [s.waiting[a.pid].origin]
    ensures s'.durable == if s.persistent && a.route.ok && (a.remove.ok || a.remove.applied)
                          then s.durable - {a.pid} else s.durable
    ensures forall p :: p in s'.waiting ==> p in s.waiting && s'.waiting[p] == s.waiting[p]
    ensures s'.alive ==> a.pid !in s'.waiting
  {
  }

  lemma RouteOnceExact(s: State, a: Action, s': State)
    requires Inv(s) && Once(s) && Step(s, a, s') && Routes(s, a)
    ensures Once(s') <==> !Hazard(s, a)
  {
    RouteEffect(s, a, s');
    var m := s.waiting[a.pid];
    assert m.origin in s'.h.routed;
    if Hazard(s, a) {
      assert a.pid in s'.durable && s'.durable[a.pid].origin in s'.h.routed;
    }
  }

  lemma QuietEffect(s: State, a: Action, s': State)
    requires a.PubRel? && Step(s, a, s') && !Routes(s, a)
    requires forall p :: p in s.waiting ==> s.waiting[p].reason in {SUCCESS, NO_MATCHING_SUBSCRIBERS}
    ensures s'.h.routed == s.h.routed
    ensures forall p :: p in s'.durable ==> p in s.durable && s'.durable[p] == s.durable[p]
    ensures forall p :: p in s'.waiting ==> p in s.waiting && s'.waiting[p] == s.waiting[p]
  {
  }

  lemma QuietOnce(s: State, a: Action, s': State)
    requires Inv(s) && Once(s) && a.PubRel? && Step(s, a, s') && !Routes(s, a)
    ensures Once(s')
  {
    QuietEffect(s, a, s');
  }

  /** A step keeps every message from being routed twice exactly when it is not a hazard. */
  lemma StepOnceExact(s: State, a: Action, s': State)
    requires Inv(s) && Once(s) && Step(s, a, s')
    ensures Once(s') <==> !Hazard(s, a)
  {
    if !a.PubRel? {
      StepKeeps(s, a, s');
    } else if Routes(s, a) {
      RouteOnceExact(s, a, s');
    } else {
      QuietOnce(s, a, s');
    }
  }

  // ---- main results ----

  /** Without a hazard no message is ever routed twice, whatever happens between: repeats,
      reconnects, failed writes, expiry. */
  lemma {:induction false} AtMostOnce(run: seq<State>, acts: seq<Action>, i: nat)
    requires Run(run, acts) && i < |run|
    requires forall j :: 0 <= j < i ==> !Hazard(run[j], acts[j])
    ensures Once(run[i]) && Distinct(run[i].h.routed)
    decreases i
  {
    if i > 0 {
      AtMostOnce(run, acts, i - 1);
      RunKeeps(run, acts, i - 1);
      assert Step(run[i - 1], acts[i - 1], run[i]);
      StepOnceExact(run[i - 1], acts[i - 1], run[i]);
    }
  }

  /** After a hazard, a lost connection, a reconnect and the client's repeated PUBREL route the
      same message a second time. */
  lemma HazardDuplicates(run: seq<State>, acts: seq<Action>)
    requires Run(run, acts) && acts != [] && Hazard(run[|acts| - 1], acts[|acts| - 1])
    ensures exists longer: seq<State>, further: seq<Action> ::
              run <= longer && Run(longer, further) && !Distinct(longer[|longer| - 1].h.routed)
  {
    var k := |acts| - 1;
    RunKeeps(run, acts, k);
    assert Step(run[k], acts[k], run[k + 1]);
    RouteEffect(run[k], acts[k], run[k + 1]);
    var pid := acts[k].pid;
    var origin := run[k].waiting[pid].origin;
    assert run[k + 1].durable[pid] == run[k].durable[pid];
    var longer, further := ReplayOf(run, acts, pid);
    var n := |run[k].h.routed|;
    assert run[k + 1].h.routed[n] == origin;
    var last := longer[|longer| - 1].h.routed;
    assert last[n] == last[n + 1];
    assert run <= longer && Run(longer, further) && !Distinct(longer[|longer| - 1].h.routed);
  }

  /** The connection is lost, the client reconnects and repeats its PUBREL. */
  lemma ReplayOf(run: seq<State>, acts: seq<Action>, pid: nat) returns (longer: seq<State>, further: seq<Action>)
    requires Run(run, acts) && 0 < pid
    requires pid in run[|acts|].durable && run[|acts|].durable[pid].reason == SUCCESS
    ensures run <= longer && Run(longer, further)
    ensures longer[|further|].h.routed == run[|acts|].h.routed + [run[|acts|].durable[pid].origin]
  {
    var good := Call(true, true);
    var s1 := CloseStep(run[|acts|], false, true);
    AppendStep(run, acts, Close(false, true), s1);
    var run1, acts1 := run + [s1], acts + [Close(false, true)];
    var s2 := ConnectStep(s1, true, false, 0, 0);
    AppendStep(run1, acts1, Connect(true, false, 0, 0), s2);
    var run2, acts2 := run1 + [s2], acts1 + [Connect(true, false, 0, 0)];
    assert s2.waiting == run[|acts|].durable;
    var s3 := PubRelStep(s2, pid, false, good, good, good);
    AppendStep(run2, acts2, PubRel(pid, false, good, good, good), s3);
    longer, further := run2 + [s3], acts2 + [PubRel(pid, false, good, good, good)];
  }

  lemma AppendStep(run: seq<State>, acts: seq<Action>, a: Action, s': State)
    requires Run(run, acts) && Step(run[|acts|], a, s')
    ensures Run(run + [s'], acts + [a])
  {
    var r, q := run + [s'], acts + [a];
    forall i | 0 <= i < |q| ensures Step(r[i], q[i], r[i + 1]) {
      if i < |acts| {
        assert Step(run[i], acts[i], run[i + 1]);
      }
    }
  }

  /** A message acknowledged with PUBREC on a connection with a lasting session is routed,
      ended for one of four stated reasons, or still recorded in the session; its record is
      replaced only after it expired. */
  lemma NothingIsLost(run: seq<State>, acts: seq<Action>, i: nat, o: nat)
    requires Run(run, acts) && i < |run| && o in run[i].h.promised
    ensures var s := run[i];
            || o in s.h.routed || o in s.h.withdrawn || o in s.h.unmatched || o in s.h.discarded
            || (o in s.h.replaced && o in s.h.expired)
            || (exists p :: p in s.durable && s.durable[p].origin == o &&
                  (s.alive && s.persistent ==> p in s.waiting || o in s.h.expired))
  {
    RunKeeps(run, acts, i);
  }

  /** A repeated PUBLISH changes nothing: it is acknowledged again, never taken for new. */
  lemma RepeatHasNoEffect(run: seq<State>, acts: seq<Action>, i: nat)
    requires Run(run, acts) && i < |acts| && acts[i].Publish? && acts[i].envelope.Sound?
    requires acts[i].pid in run[i].waiting
    ensures run[i + 1].(h := run[i].h) == run[i]
    ensures run[i + 1].h.(promised := run[i].h.promised) == run[i].h
  {
    RunKeeps(run, acts, i);
    assert Step(run[i], acts[i], run[i + 1]);
  }
}
