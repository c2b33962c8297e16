/** What a crash sends again. The process stops in any state of a run of ProgressCommit; the
    client reconnects with what the session and the delivery store hold, and the runner reads
    the queue from the position Recovery computes. */
module CrashReplay {
  import opened OutgoingInflight
  import opened Options
  import opened ProgressCommit
  import opened Recovery

  // What the reconnecting client is told: the persisted cursor when the replay cursor is
  // restored, the listed messages it finds again (each with the cursor its lookup read), the
  // newest entry in flight then, and the persisted cursor when the runner starts.
  datatype Reconnect = Reconnect(
    persisted: CursorRead, found: map<nat, CursorRead>, newest: Option<nat>, again: CursorRead)

  ghost predicate Reachable(s: State) {
    exists run, acts :: Run(run, acts) && s == run[|run| - 1]
  }

  /** The delivery store still holds the task: Badger deletes what is up to the cursor, Scylla
      keeps it. */
  ghost predicate InQueue(s: State, n: nat) {
    Queue(s, n) && (s.trims && s.stored.Cursor? ==> Before(s.stored.position, s.sent[n].at))
  }

  /** Reads answer what is stored or fail; only listed messages are found, queue tasks only
      after the cursor their lookup read. */
  ghost predicate Possible(s: State, r: Reconnect) {
    && r.persisted in {s.stored, ReadFailed} && r.again in {s.stored, ReadFailed}
    && (forall n :: n in r.found ==> Found(s, n, r.found[n]))
    && (r.newest.Some? ==> r.newest.value in r.found)
  }

  ghost predicate Found(s: State, n: nat, read: CursorRead) {
    && n in s.durable.unfinished && n < |s.sent| && read in {s.stored, ReadFailed}
    && (Queue(s, n) ==> InQueue(s, n) && Before(PersistedPosition(read), s.sent[n].at))
  }

  /** The replay cursor the session holds. */
  ghost function SavedReplay(s: State): Option<Replay> {
    if s.durable.replay.Some? && s.durable.replay.value < |s.sent| then
      var at := s.sent[s.durable.replay.value].at;
      Some(Replay(Micros(at.ts), at.id, s.generation))
    else None
  }

  ghost function Kept(s: State, r: Reconnect): Option<Replay> {
    RestoreReplay(SavedReplay(s), r.persisted)
  }

  ghost function NewestEntry(s: State, r: Reconnect): Option<Newest> {
    if r.newest.Some? && r.newest.value < |s.sent| then
      var msg := s.sent[r.newest.value];
      Some(Newest(msg.at, msg.kind == Retained))
    else None
  }

  /** Where the runner starts to read. */
  ghost function Start(s: State, r: Reconnect): Position {
    Align(NewestEntry(s, r), Kept(s, r), LoadCursor(r.again, Kept(s, r)))
  }

  // ---- the completed messages that are sent again ----

  ghost predicate Completed(s: State, n: nat) {
    n in s.counted || (s.popped.Some? && n in s.popped.value)
  }

  /** Its acknowledgement is in the counter, or the handler is about to count it. */
  ghost predicate IsPending(s: State, n: nat)
    requires 0 <= s.subtracted <= |s.counted|
  {
    n in s.counted[s.subtracted..] || (s.popped.Some? && n in s.popped.value)
  }

  ghost function Pending(s: State): int {
    s.counter + if s.popped.Some? then |s.popped.value| else 0
  }

  ghost function Again(s: State, r: Reconnect): set<nat> {
    set n: nat | n < |s.sent| && Completed(s, n) && (n in r.found || ReadAfter(s, n, Start(s, r)))
  }

  ghost predicate ReadAfter(s: State, n: nat, from: Position) {
    InQueue(s, n) && Before(from, s.sent[n].at)
  }

  /** A replay cursor is in force, and its task is `e`. */
  ghost predicate ReplayFrom(s: State, r: Reconnect, e: nat) {
    Kept(s, r).Some? && s.durable.replay == Some(e) && Queue(s, e)
  }

  /** Not pending and sent again: a queue task the runner reads although every commit since
      took it for done. */
  ghost function Overlap(s: State, r: Reconnect): set<nat>
    requires 0 <= s.subtracted <= |s.counted|
  {
    set n: nat | n < |s.sent| && Completed(s, n) && !IsPending(s, n) && InQueue(s, n) && Rewound(s, r, n)
  }

  /** Without a replay cursor the restored queue tasks or the persisted cursor decide; with one,
      its truncation to microseconds and the step back by one more. */
  ghost predicate Rewound(s: State, r: Reconnect, n: nat)
    requires n < |s.sent|
  {
    if Kept(s, r).Some? then Before(LoadCursor(r.again, Kept(s, r)), s.sent[n].at)
    else !Aligned(s, r) && Before(PersistedPosition(r.again), s.sent[n].at)
  }

  ghost predicate Aligned(s: State, r: Reconnect) {
    r.newest.Some? && Queue(s, r.newest.value)
  }

  lemma ReachableInv(s: State)
    requires Reachable(s)
    ensures Inv(s)
  {
    var run, acts :| Run(run, acts) && s == run[|run| - 1];
    RunInv(run, acts, |run| - 1);
  }

  lemma SubtractedIsPassed(s: State, n: nat)
    requires Inv(s) && Completed(s, n) && !IsPending(s, n)
    ensures n in s.counted && n < |s.sent| && !ProgressCommit.Lists(s.durable, n)
    ensures Passed(s, s.durable, n) && Covered(s, n)
  {
    forall j | s.subtracted <= j < |s.counted| ensures s.counted[j] in s.counted[s.subtracted..] {
      assert s.counted[j] == s.counted[s.subtracted..][j - s.subtracted];
    }
    var k :| 0 <= k < |s.counted| && s.counted[k] == n;
    assert k < s.subtracted;
  }

  /** One completed message whose acknowledgement was subtracted. */
  lemma SubtractedAgain(s: State, r: Reconnect, n: nat)
    requires Inv(s) && Possible(s, r) && n < |s.sent| && Completed(s, n) && !IsPending(s, n)
    ensures n in Again(s, r) <==> InQueue(s, n) && Rewound(s, r, n)
  {
    SubtractedIsPassed(s, n);
    assert n !in r.found;
    if Kept(s, r).None? && Aligned(s, r) && Queue(s, n) {
      assert Found(s, r.newest.value, r.found[r.newest.value]);
      assert PassedBy(s, n, r.newest.value);
    }
  }

  lemma {:induction false} CardBound(t: set<nat>, q: seq<nat>)
    requires forall n :: n in t ==> n in q
    ensures |t| <= |q|
    decreases |q|
  {
    if q == [] {
      assert t == {};
    } else {
      CardBound(t - {q[0]}, q[1..]);
      assert t <= (t - {q[0]}) + {q[0]};
    }
  }

  ghost function PendingPart(s: State, t: set<nat>): set<nat>
    requires 0 <= s.subtracted <= |s.counted|
  {
    set n | n in t && IsPending(s, n)
  }

  lemma PendingCount(s: State, t: set<nat>)
    requires Inv(s)
    ensures |PendingPart(s, t)| <= Pending(s)
  {
    CardBound(PendingPart(s, t), s.counted[s.subtracted..] + if s.popped.Some? then s.popped.value else []);
  }

  /** After a crash at any point of any run, the completed messages that are sent again are
      pending ones and exactly the overlap; so there are at most as many as acknowledgements
      the counter and the running handler still hold, plus the overlap. */
  lemma ReplayIsBounded(s: State, r: Reconnect)
    requires Reachable(s) && Possible(s, r)
    ensures 0 <= s.subtracted <= |s.counted|
    ensures forall n :: n in Again(s, r) && !IsPending(s, n) <==> n in Overlap(s, r)
    ensures |Again(s, r)| <= Pending(s) + |Overlap(s, r)|
  {
    ReachableInv(s);
    forall n: nat | n < |s.sent| && Completed(s, n) && !IsPending(s, n)
      ensures n in Again(s, r) <==> n in Overlap(s, r)
    {
      SubtractedAgain(s, r, n);
    }
    PendingCount(s, Again(s, r));
    assert Again(s, r) == PendingPart(s, Again(s, r)) + Overlap(s, r);
  }

  // ---- with a replay cursor ----

  /** The saved cursor is in force exactly when its task is at least a microsecond after the
      epoch and the persisted cursor could be read. */
  lemma KeptExact(s: State, r: Reconnect)
    requires Reachable(s) && Possible(s, r)
    ensures Kept(s, r).Some? <==>
              && s.durable.replay.Some? && s.durable.replay.value < |s.sent| && !r.persisted.ReadFailed?
              && s.sent[s.durable.replay.value].at.ts >= 1000 && s.sent[s.durable.replay.value].at.id != NIL_ID
    ensures Kept(s, r).Some? ==> ReplayFrom(s, r, s.durable.replay.value)
  {
    ReachableInv(s);
  }

  /** Listed and found, or a queue task the cursor has not passed. */
  ghost function Stale(s: State, r: Reconnect, e: nat): set<nat>
    requires Queue(s, e)
  {
    set n: nat | n < |s.sent| && Completed(s, n) &&
                 (n in r.found || (InQueue(s, n) && NotAfter(s.sent[e].at, s.sent[n].at)))
  }

  /** Queue tasks the cursor has passed, but by less than two microseconds. */
  ghost function Slack(s: State, r: Reconnect, e: nat): set<nat>
    requires Queue(s, e)
  {
    set n: nat | && n < |s.sent| && Completed(s, n) && InQueue(s, n) && Before(s.sent[n].at, s.sent[e].at)
                 && Before(LoadCursor(r.again, Kept(s, r)), s.sent[n].at)
  }

  lemma SlackIsShort(s: State, r: Reconnect, e: nat, n: nat)
    requires ReplayFrom(s, r, e) && n in Slack(s, r, e)
    ensures s.sent[e].at.ts - 2000 < s.sent[n].at.ts <= s.sent[e].at.ts
  {
  }

  /** With a replay cursor for `e`, exactly these completed messages are sent again: the stale
      ones, all of them pending, and those queued less than two microseconds before `e`. */
  lemma RereadExact(s: State, r: Reconnect, e: nat)
    requires Reachable(s) && Possible(s, r) && ReplayFrom(s, r, e)
    ensures 0 <= s.subtracted <= |s.counted|
    ensures Again(s, r) == Stale(s, r, e) + Slack(s, r, e)
    ensures forall n :: n in Stale(s, r, e) ==> IsPending(s, n)
    ensures |Stale(s, r, e)| <= Pending(s)
    ensures forall n :: n in Slack(s, r, e) ==> s.sent[e].at.ts - 2000 < s.sent[n].at.ts <= s.sent[e].at.ts
  {
    ReachableInv(s);
    forall n | n in Stale(s, r, e) ensures IsPending(s, n) {
      StaleIsPending(s, r, e, n);
    }
    PendingCount(s, Stale(s, r, e));
    assert PendingPart(s, Stale(s, r, e)) == Stale(s, r, e);
    forall n | n in Slack(s, r, e) ensures s.sent[e].at.ts - 2000 < s.sent[n].at.ts <= s.sent[e].at.ts {
      SlackIsShort(s, r, e, n);
    }
    RereadSplits(s, r, e);
  }

  lemma StaleIsPending(s: State, r: Reconnect, e: nat, n: nat)
    requires Inv(s) && Possible(s, r) && ReplayFrom(s, r, e) && n in Stale(s, r, e)
    ensures IsPending(s, n)
  {
    if !IsPending(s, n) {
      SubtractedIsPassed(s, n);
    }
  }

  /** The runner starts before the cursor's task, whatever the clamp to the epoch does. */
  lemma RereadSplits(s: State, r: Reconnect, e: nat)
    requires ReplayFrom(s, r, e)
    ensures Again(s, r) == Stale(s, r, e) + Slack(s, r, e)
  {
    assert Start(s, r) == LoadCursor(r.again, Kept(s, r));
    assert Start(s, r).ts < s.sent[e].at.ts;
  }

  // ---- when the persisted cursor decides ----

  /** If the store trims, or the runner starts from the cursor as it is stored, only tasks whose
      AdvanceCursor had no effect overlap; if there are none, no more completed messages are
      sent again than acknowledgements are pending. */
  lemma OnlyMissedOverlap(s: State, r: Reconnect)
    requires Reachable(s) && Possible(s, r)
    requires s.trims || (Kept(s, r).None? && r.again == s.stored)
    ensures 0 <= s.subtracted <= |s.counted|
    ensures Overlap(s, r) <= s.missed
    ensures s.missed == {} ==> |Again(s, r)| <= Pending(s)
  {
    ReachableInv(s);
    forall n | n in Overlap(s, r) ensures n in s.missed {
      SubtractedIsPassed(s, n);
    }
    ReplayIsBounded(s, r);
  }

  // ---- the messages that were not acknowledged ----

  ghost predicate Unacked(s: State, n: nat) {
    n in s.store && !s.store[n] && Queue(s, n)
  }

  /** With a replay cursor the runner starts before every unacknowledged QoS 1 task, however
      long after the commit it was sent: it is sent again exactly if the store still has it. */
  lemma UnackedQoS1Reread(s: State, r: Reconnect, n: nat)
    requires Reachable(s) && Possible(s, r) && Kept(s, r).Some? && Unacked(s, n) && IsQoS1(s, n)
    ensures Before(Start(s, r), s.sent[n].at)
    ensures ReadAfter(s, n, Start(s, r)) <==> InQueue(s, n)
  {
    ReachableInv(s);
    assert CursorReaches(s, s.durable, n);
  }

  /** A QoS 2 task is listed or read again if the cursor's task was sent before the unfinished
      messages were copied. One that was sent after that copy is kept exactly if it is behind
      the cursor's task. */
  lemma UnackedQoS2Kept(s: State, r: Reconnect, e: nat, n: nat)
    requires Reachable(s) && ReplayFrom(s, r, e) && Unacked(s, n) && !IsQoS1(s, n)
    ensures e < s.durable.seen ==> n in s.durable.unfinished || NotAfter(s.sent[e].at, s.sent[n].at)
    ensures s.durable.seen <= n ==>
              (n in s.durable.unfinished || NotAfter(s.sent[e].at, s.sent[n].at) <==> e < n)
    ensures NotAfter(s.sent[e].at, s.sent[n].at) ==> Before(Start(s, r), s.sent[n].at)
  {
    ReachableInv(s);
    assert n != e;
    assert n < e ==> Before(s.sent[n].at, s.sent[e].at);
    assert e < n ==> Before(s.sent[e].at, s.sent[n].at);
  }

  // ---- the terms are needed ----

  lemma Reach(s: State, a: Action, s': State)
    requires Reachable(s) && Step(s, a, s')
    ensures Reachable(s')
  {
    var run, acts :| Run(run, acts) && s == run[|run| - 1];
    var run', acts' := run + [s'], acts + [a];
    forall i | 0 <= i < |acts'| ensures Step(run'[i], acts'[i], run'[i + 1]) {
      assert i < |acts| ==> acts'[i] == acts[i] && run'[i] == run[i] && run'[i + 1] == run[i + 1];
    }
    assert Run(run', acts');
  }

  function After(s: State, c: Commit): State {
    s.(flag := true, commits := map[s.spawned := c], spawned := s.spawned + 1)
  }

  lemma CommitLoads(s: State)
    requires Reachable(s) && !s.flag && s.commits == map[] && s.counter > 0
    ensures Reachable(After(s, Loaded(s.counter, |s.counted|)))
  {
    var started, loaded := After(s, Started), After(s, Loaded(s.counter, |s.counted|));
    assert CommitStep(s, TryCommit, started);
    Reach(s, TryCommit, started);
    assert CommitStep(started, Load(s.spawned), loaded);
    Reach(started, Load(s.spawned), loaded);
  }

  lemma CommitCopiesStore(s: State, replay: Option<nat>)
    requires Reachable(After(s, Loaded(s.counter, |s.counted|))) && ProgressCommit.EarliestReplayed(s, replay)
    ensures Reachable(After(s, Ready(s.counter, |s.counted|, Snapshot(ProgressCommit.Unfinished(s), replay, |s.sent|))))
  {
    var unfinished := ProgressCommit.Unfinished(s);
    var loaded := After(s, Loaded(s.counter, |s.counted|));
    var copied := After(s, Copied(s.counter, |s.counted|, unfinished, |s.sent|));
    var ready := After(s, Ready(s.counter, |s.counted|, Snapshot(unfinished, replay, |s.sent|)));
    assert ProgressCommit.Unfinished(loaded) == unfinished;
    assert CommitStep(loaded, CopyUnfinished(s.spawned), copied);
    Reach(loaded, CopyUnfinished(s.spawned), copied);
    assert ProgressCommit.EarliestReplayed(copied, replay);
    assert CommitStep(copied, CopyReplay(s.spawned), ready);
    Reach(copied, CopyReplay(s.spawned), ready);
  }

  /** A commit that nothing interrupts and that succeeds. */
  function Committed(s: State, snap: Snapshot): State {
    After(s, Finishing).(durable := snap, counter := 0, subtracted := s.subtracted + s.counter)
  }

  lemma CommitWrites(s: State, snap: Snapshot)
    requires Reachable(After(s, Ready(s.counter, |s.counted|, snap)))
    ensures Reachable(Committed(s, snap))
  {
    var ready := After(s, Ready(s.counter, |s.counted|, snap));
    var written := After(s, Written(s.counter, |s.counted|, snap)).(durable := snap);
    assert CommitStep(ready, Write(s.spawned, true, true), written);
    Reach(ready, Write(s.spawned, true, true), written);
    assert CommitStep(written, Subtract(s.spawned), Committed(s, snap));
    Reach(written, Subtract(s.spawned), Committed(s, snap));
  }

  /** An uninterrupted commit makes what is in flight durable and leaves nothing counted. */
  lemma CommitSucceeds(s: State, replay: Option<nat>)
    requires Reachable(s) && !s.flag && s.commits == map[] && s.counter > 0
    requires ProgressCommit.EarliestReplayed(s, replay)
    ensures Reachable(Committed(s, Snapshot(ProgressCommit.Unfinished(s), replay, |s.sent|)))
  {
    CommitLoads(s);
    CommitCopiesStore(s, replay);
    CommitWrites(s, Snapshot(ProgressCommit.Unfinished(s), replay, |s.sent|));
  }

  const FIRST := Position(5000, 1)
  const SECOND := Position(5000, 2)

  function Fresh(trims: bool): State {
    State([], map[], None, 0, [], 0, 0, {}, false, map[], 0, Snapshot({}, None, 0),
          Position(0, 0), Idle, NoCursor, {}, 1, trims)
  }

  function OneSent(kind: Kind, trims: bool, store: map<nat, bool>): State {
    Fresh(trims).(sent := [Msg(kind, FIRST)], store := store, cursor := FIRST)
  }

  lemma SendsOne(kind: Kind, trims: bool)
    requires kind != Retained
    ensures Reachable(OneSent(kind, trims, map[0 := false]))
  {
    var first := Fresh(trims);
    var writing := first.(sent := [Msg(kind, FIRST)], store := map[0 := false], sending := Writing(0));
    assert Run([first], []) && first == [first][|[first]| - 1];
    assert RunnerStep(first, Send(Msg(kind, FIRST)), writing);
    Reach(first, Send(Msg(kind, FIRST)), writing);
    assert RunnerStep(writing, Wrote, OneSent(kind, trims, map[0 := false]));
    Reach(writing, Wrote, OneSent(kind, trims, map[0 := false]));
  }

  lemma PopsOne(trims: bool)
    ensures Reachable(OneSent(QoS2, trims, map[]).(popped := Some([0])))
  {
    SendsOne(QoS2, trims);
    var acked := OneSent(QoS2, trims, map[0 := true]);
    var popped := OneSent(QoS2, trims, map[]).(popped := Some([0]));
    assert HandlerStep(OneSent(QoS2, trims, map[0 := false]), Ack(0), acked);
    Reach(OneSent(QoS2, trims, map[0 := false]), Ack(0), acked);
    assert Without(acked.store, [0]) == popped.store;
    assert HandlerStep(acked, Pop([0]), popped);
    Reach(acked, Pop([0]), popped);
  }

  /** The task was counted; AdvanceCursor had an effect or not. */
  function OneDone(trims: bool, applied: bool): State {
    OneSent(QoS2, trims, map[]).(advanced := 1, counted := [0], counter := 1,
                           stored := if applied then Cursor(FIRST, 1) else NoCursor,
                           missed := if applied then {} else {0})
  }

  lemma CountsOne(trims: bool, applied: bool)
    ensures Reachable(OneDone(trims, applied))
  {
    PopsOne(trims);
    var popped := OneSent(QoS2, trims, map[]).(popped := Some([0]));
    var advanced := OneDone(trims, applied).(popped := Some([0]), counted := [], counter := 0);
    assert HandlerStep(popped, Advance(applied), advanced);
    Reach(popped, Advance(applied), advanced);
    assert HandlerStep(advanced, Count, OneDone(trims, applied));
    Reach(advanced, Count, OneDone(trims, applied));
  }

  /** Without a replay cursor an unacknowledged task can be lost: a QoS 0 message behind it has
      moved the persisted cursor, the store has dropped the task, and no commit listed it. */
  lemma UnackedIsLost(kind: Kind)
    requires kind != Retained
    ensures var s := OneSent(kind, true, map[0 := false]).(cursor := SECOND, stored := Cursor(SECOND, 1));
            && Reachable(s) && Unacked(s, 0)
            && forall r :: Possible(s, r) ==> 0 !in r.found && !ReadAfter(s, 0, Start(s, r))
  {
    var sent := OneSent(kind, true, map[0 := false]);
    var skipped := sent.(cursor := SECOND, stored := Cursor(SECOND, 1));
    SendsOne(kind, true);
    assert RunnerStep(sent, Skip(SECOND, true), skipped);
    Reach(sent, Skip(SECOND, true), skipped);
    assert !InQueue(skipped, 0);
    assert forall read :: !Found(skipped, 0, read);
  }

  /** A QoS 1 task of the same microsecond is in flight behind it. */
  function TwoSent(trims: bool): State {
    OneDone(trims, true).(sent := [Msg(QoS2, FIRST), Msg(QoS1, SECOND)], store := map[1 := false], cursor := SECOND)
  }

  lemma SendsTwo(trims: bool)
    ensures Reachable(TwoSent(trims))
  {
    CountsOne(trims, true);
    var writing := TwoSent(trims).(cursor := FIRST, sending := Writing(1));
    assert RunnerStep(OneDone(trims, true), Send(Msg(QoS1, SECOND)), writing);
    Reach(OneDone(trims, true), Send(Msg(QoS1, SECOND)), writing);
    assert RunnerStep(writing, Wrote, TwoSent(trims));
    Reach(writing, Wrote, TwoSent(trims));
  }

  /** The overlap of a replay cursor is real: the first task is complete, its cursor stored and
      its acknowledgement committed, nothing is pending, and yet a store that does not trim
      returns it again, because the task behind it is of the same microsecond. */
  lemma SlackIsReal()
    ensures var s := Committed(TwoSent(false), Snapshot({}, Some(1), 2));
            var r := Reconnect(s.stored, map[], None, s.stored);
            && Reachable(s) && Possible(s, r) && ReplayFrom(s, r, 1) && s.missed == {}
            && Pending(s) == 0 && Again(s, r) == {0}
  {
    var two := TwoSent(false);
    SendsTwo(false);
    assert ProgressCommit.Unfinished(two) == {};
    assert ProgressCommit.EarliestReplayed(two, Some(1));
    CommitSucceeds(two, Some(1));
  }

  /** So is the overlap without one: nothing is in flight, listed or pending, the persisted
      cursor is read as it is, and the task whose AdvanceCursor failed is sent again, from
      either store. */
  lemma MissedAdvanceIsReal(trims: bool)
    ensures var s := Committed(OneDone(trims, false), Snapshot({}, None, 1));
            var r := Reconnect(s.stored, map[], None, s.stored);
            && Reachable(s) && Possible(s, r) && Kept(s, r).None? && s.store == map[]
            && Pending(s) == 0 && Again(s, r) == {0}
  {
    CommitsOne(trims, false);
  }

  lemma CommitsOne(trims: bool, applied: bool)
    ensures Reachable(Committed(OneDone(trims, applied), Snapshot({}, None, 1)))
  {
    var one := OneDone(trims, applied);
    CountsOne(trims, applied);
    assert ProgressCommit.Unfinished(one) == {};
    assert ProgressCommit.EarliestReplayed(one, None);
    CommitSucceeds(one, None);
  }

  /** And a store that does not trim returns every task when the cursor cannot be read. */
  lemma FailedReadIsReal()
    ensures var s := Committed(OneDone(false, true), Snapshot({}, None, 1));
            var r := Reconnect(s.stored, map[], None, ReadFailed);
            && Reachable(s) && Possible(s, r) && s.missed == {} && s.store == map[]
            && Pending(s) == 0 && Again(s, r) == {0}
  {
    CommitsOne(false, true);
  }

  // ---- a commit whose copies are apart ----

  const THIRD := Position(10_000, 2)
  const FOURTH := Position(20_000, 3)

  /** Between the two copies of a commit a QoS 2 task and then a QoS 1 task are sent. */
  function Between(c: Commit): State {
    After(OneDone(true, true), c).(
      sent := [Msg(QoS2, FIRST), Msg(QoS2, THIRD), Msg(QoS1, FOURTH)], store := map[1 := false, 2 := false],
      cursor := FOURTH)
  }

  lemma CopiesFirst()
    ensures Reachable(After(OneDone(true, true), Copied(1, 1, {}, 1)))
  {
    var one := OneDone(true, true);
    var loaded, copied := After(one, Loaded(1, 1)), After(one, Copied(1, 1, {}, 1));
    CountsOne(true, true);
    CommitLoads(one);
    assert ProgressCommit.Unfinished(loaded) == {};
    assert CommitStep(loaded, CopyUnfinished(0), copied);
    Reach(loaded, CopyUnfinished(0), copied);
  }

  lemma SendsBetween()
    ensures Reachable(Between(Copied(1, 1, {}, 1)))
  {
    CopiesFirst();
    var copied, both := After(OneDone(true, true), Copied(1, 1, {}, 1)), Between(Copied(1, 1, {}, 1));
    var writing := copied.(
      sent := [Msg(QoS2, FIRST), Msg(QoS2, THIRD)], store := map[1 := false], sending := Writing(1));
    var wrote := writing.(cursor := THIRD, sending := Idle);
    var writing' := both.(cursor := THIRD, sending := Writing(2));
    assert RunnerStep(copied, Send(Msg(QoS2, THIRD)), writing);
    Reach(copied, Send(Msg(QoS2, THIRD)), writing);
    assert RunnerStep(writing, Wrote, wrote);
    Reach(writing, Wrote, wrote);
    assert RunnerStep(wrote, Send(Msg(QoS1, FOURTH)), writing');
    Reach(wrote, Send(Msg(QoS1, FOURTH)), writing');
    assert RunnerStep(writing', Wrote, both);
    Reach(writing', Wrote, both);
  }

  const TORN := Snapshot({}, Some(2), 1)

  lemma WritesTorn()
    ensures Reachable(Between(Written(1, 1, TORN)).(durable := TORN))
  {
    SendsBetween();
    var copied, ready := Between(Copied(1, 1, {}, 1)), Between(Ready(1, 1, TORN));
    var written := Between(Written(1, 1, TORN)).(durable := TORN);
    assert ProgressCommit.EarliestReplayed(copied, Some(2));
    assert CommitStep(copied, CopyReplay(0), ready);
    Reach(copied, CopyReplay(0), ready);
    assert CommitStep(ready, Write(0, true, true), written);
    Reach(ready, Write(0, true, true), written);
  }

  /** So the condition on the cursor's task is needed: the first copy does not have the QoS 2
      task, the second puts the cursor behind it, and after a crash it is neither restored
      nor read although it is unacknowledged and the store has it. */
  lemma TornCommitLosesTask()
    ensures var s := Between(Written(1, 1, TORN)).(durable := TORN);
            && Reachable(s) && Unacked(s, 1) && InQueue(s, 1)
            && forall r :: Possible(s, r) && !r.persisted.ReadFailed? ==>
                 ReplayFrom(s, r, 2) && 1 !in r.found && !ReadAfter(s, 1, Start(s, r))
  {
    WritesTorn();
    var s := Between(Written(1, 1, TORN)).(durable := TORN);
    forall r | Possible(s, r) && !r.persisted.ReadFailed?
      ensures ReplayFrom(s, r, 2) && 1 !in r.found && !ReadAfter(s, 1, Start(s, r))
    {
      assert forall read :: !Found(s, 1, read);
      assert Kept(s, r) == Some(Replay(20, 3, 1));
      assert Start(s, r) == Position(19_000, NIL_ID);
    }
  }
}
