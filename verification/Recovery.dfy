/** What survives a disconnect: the session snapshot of the in-flight store
    (client_lifecycle.go), its restoration (outgoing_inflight_restore.go) and the position
    from which the reconnected runner reads tasks (delivery_runner.go). */
module Recovery {
  import opened Options
  import opened OutgoingInflight
  import opened Downlink
  import opened DownlinkOrder

  // proto_session.UnfinishedMessage, the outgoing part. `first` is in microseconds.
  datatype Unfinished = Unfinished(
    messageID: nat, packetID: nat, qos: nat, stage: Stage, first: int, publishPacket: seq<nat>)

  datatype Replay = Replay(micros: int, id: nat, generation: int)

  // What deliveryCursorStore.ReadCursor answered.
  datatype CursorRead = NoCursor | Cursor(position: Position, generation: int) | ReadFailed

  const NIL_ID: nat := 0

  /** time.Time.UnixMicro: rounds down. */
  function Micros(ns: int): int {
    ns / 1000
  }

  // ---- the snapshot ----

  /** QoS 2 messages and retained messages are saved one by one. */
  predicate SavedAlone(e: Entry) {
    e.packetID != 0 && (e.qos == 2 || (e.qos == 1 && e.retained))
  }

  /** Unacknowledged queue tasks with QoS 1 are replayed by position. */
  predicate Replayed(e: Entry) {
    !e.acked && !e.retained && e.qos == 1 && e.task.id != NIL_ID
  }

  function SavedForm(e: Entry, nowMicros: int): Unfinished {
    Unfinished(e.messageID, e.packetID, e.qos,
               if e.qos == 1 then WaitingPubAck
               else if e.stage == WaitingPubComp then WaitingPubComp else WaitingPubRec,
               if e.firstPub.Some? then Micros(e.firstPub.value) else nowMicros,
               e.publishPacket)
  }

  /** `us` is the saved form of exactly the entries that are saved alone, each once. */
  ghost predicate Saved(m: Table, nowMicros: int, us: seq<Unfinished>) {
    && (forall i :: 0 <= i < |us| ==>
          us[i].packetID in m && SavedAlone(m[us[i].packetID]) && us[i] == SavedForm(m[us[i].packetID], nowMicros))
    && (forall p :: p in m && SavedAlone(m[p]) ==> SavedForm(m[p], nowMicros) in us)
    && (forall i, j :: 0 <= i < j < |us| ==> us[i].packetID != us[j].packetID)
  }

  method CollectUnfinished(store: Store, nowMicros: int) returns (us: seq<Unfinished>)
    requires store.Valid()
    ensures Saved(store.m, nowMicros, us)
  {
    var es := store.All();
    us := [];
    for n := 0 to |es|
      invariant forall i :: 0 <= i < |us| ==>
                  && us[i].packetID in store.m && SavedAlone(store.m[us[i].packetID])
                  && us[i] == SavedForm(store.m[us[i].packetID], nowMicros)
                  && exists k :: 0 <= k < n && es[k].packetID == us[i].packetID
      invariant forall k :: 0 <= k < n && SavedAlone(es[k]) ==> SavedForm(es[k], nowMicros) in us
      invariant forall i, j :: 0 <= i < j < |us| ==> us[i].packetID != us[j].packetID
    {
      if SavedAlone(es[n]) {
        us := us + [SavedForm(es[n], nowMicros)];
      }
    }
  }

  /** p is the earliest entry to replay. */
  ghost predicate EarliestReplayed(m: Table, p: nat) {
    && p in m && Replayed(m[p])
    && forall q :: q in m && Replayed(m[q]) ==> NotAfter(m[p].task, m[q].task)
  }

  function ReplayOf(e: Entry): Replay {
    Replay(Micros(e.task.ts), e.task.id, e.generation)
  }

  method CollectReplay(store: Store) returns (r: Option<Replay>, ghost earliest: nat)
    requires store.Valid()
    ensures r.None? <==> forall q :: q in store.m ==> !Replayed(store.m[q])
    ensures r.Some? ==> EarliestReplayed(store.m, earliest) && r.value == ReplayOf(store.m[earliest])
    ensures r.Some? ==>
              && earliest in store.m && r.value.id == store.m[earliest].task.id
              && r.value.generation == store.m[earliest].generation
              && r.value.micros * 1000 <= store.m[earliest].task.ts < r.value.micros * 1000 + 1000
    ensures forall q :: q in store.m && !store.m[q].acked && !store.m[q].retained && store.m[q].qos == 1 &&
                        store.m[q].task.id != 0 ==>
              r.Some? && !Before(store.m[q].task, store.m[earliest].task)
    ensures r.Some? ==> !store.m[earliest].acked && !store.m[earliest].retained && store.m[earliest].qos == 1
  {
    var es := store.All();
    var best: Option<Entry> := None;
    for n := 0 to |es|
      invariant best.None? ==> forall k :: 0 <= k < n ==> !Replayed(es[k])
      invariant best.Some? ==>
                  && best.value.packetID in store.m && store.m[best.value.packetID] == best.value
                  && Replayed(best.value)
                  && forall k :: 0 <= k < n && Replayed(es[k]) ==> NotAfter(best.value.task, es[k].task)
    {
      if Replayed(es[n]) && (best.None? || Before(es[n].task, best.value.task)) {
        best := Some(es[n]);
      }
    }
    if best.None? {
      return None, 0;
    }
    r, earliest := Some(ReplayOf(best.value)), best.value.packetID;
  }

  // ---- reconnecting ----

  /** restoreQoS1ReplayCursorFromSession: the saved cursor is used only when it is after the
      epoch and the persisted cursor was read and is of the same generation. */
  function RestoreReplay(r: Option<Replay>, persisted: CursorRead): Option<Replay> {
    if r.None? || r.value.id == NIL_ID || r.value.micros <= 0 then None
    else match persisted
      case ReadFailed => None
      case Cursor(_, generation) => if generation == r.value.generation then r else None
      case NoCursor => r
  }

  function PersistedPosition(persisted: CursorRead): Position {
    if persisted.Cursor? then persisted.position else Position(0, NIL_ID)
  }

  /** loadClientDeliveryCursor: one microsecond before the replay position, not before the epoch. */
  function LoadCursor(persisted: CursorRead, replay: Option<Replay>): Position {
    if replay.None? then PersistedPosition(persisted)
    else
      var start := replay.value.micros * 1000 - 1000;
      Position(if start < 0 then 0 else start, NIL_ID)
  }

  // The newest entry in flight, as far as aligning looks at it.
  datatype Newest = Newest(task: Position, retained: bool)

  /** alignDeliveryCursorBeforeRunner, the part that moves the position. */
  function Align(newest: Option<Newest>, replay: Option<Replay>, loaded: Position): Position {
    if replay.None? && newest.Some? && !newest.value.retained then newest.value.task else loaded
  }

  function AlignCursor(m: Table, last: nat, replay: Option<Replay>, loaded: Position): Position
    requires m != map[] ==> last in m
  {
    Align(if m == map[] then None else Some(Newest(m[last].task, m[last].retained)), replay, loaded)
  }

  /** Where the reconnected runner starts to read: restored entries are in m, `last` is the
      newest of them. */
  function StartPosition(m: Table, last: nat, again: CursorRead, replay: Option<Replay>): Position
    requires m != map[] ==> last in m
  {
    AlignCursor(m, last, replay, LoadCursor(again, replay))
  }

  /** Every task to replay lies strictly after the position that is read from. */
  ghost predicate AllReread(m: Table, from: Position) {
    forall p :: p in m && Replayed(m[p]) ==> Before(from, m[p].task)
  }

  /** Truncation to microseconds, the step back and the clamp lose no task: an accepted replay
      cursor is before every task to replay. */
  lemma ReplayPrecedes(e: Entry, persisted: CursorRead, again: CursorRead)
    requires RestoreReplay(Some(ReplayOf(e)), persisted).Some?
    ensures LoadCursor(again, RestoreReplay(Some(ReplayOf(e)), persisted)).ts < e.task.ts
  {
  }

  /** restoreQoS1ReplayCursorFromSession keeps the cursor saved for e. */
  predicate ReplayAccepted(e: Entry, persisted: CursorRead) {
    && e.task.ts >= 1000 && !persisted.ReadFailed?
    && (persisted.Cursor? ==> persisted.generation == e.generation)
  }

  /** No unacknowledged QoS 1 task is skipped by the reconnected runner exactly when there is
      none, or the earliest was at least a microsecond after the epoch and its replay cursor
      is of the persisted generation, or the position used without a replay cursor (the newest
      restored queue task, else the persisted cursor) is before it anyway. `restored` is
      whatever entries came back. */
  lemma ReplayCoverageExact(m: Table, r: Option<Replay>, earliest: nat, persisted: CursorRead,
                            again: CursorRead, restored: Table, last: nat)
    requires r.None? <==> forall q :: q in m ==> !Replayed(m[q])
    requires r.Some? ==> EarliestReplayed(m, earliest) && r.value == ReplayOf(m[earliest])
    requires restored != map[] ==> last in restored
    ensures AllReread(m, StartPosition(restored, last, again, RestoreReplay(r, persisted))) <==>
              || r.None?
              || ReplayAccepted(m[earliest], persisted)
              || Before(StartPosition(restored, last, again, None), m[earliest].task)
  {
    if r.Some? {
      var start := StartPosition(restored, last, again, RestoreReplay(r, persisted));
      if RestoreReplay(r, persisted).Some? {
        ReplayPrecedes(m[earliest], persisted, again);
      }
      assert AllReread(m, start) <==> Before(start, m[earliest].task) by {
        FirstDecides(m, earliest, start);
      }
    }
  }

  /** The Badger store deletes the tasks up to the cursor it stores. */
  ghost predicate Trimmed(stored: CursorRead, at: Position) {
    stored.Cursor? && NotAfter(at, stored.position)
  }

  /** From a store that trims, the unacknowledged QoS 1 tasks are all read again exactly if, in
      addition, the stored cursor has not passed the earliest of them. */
  lemma TrimmedCoverageExact(m: Table, r: Option<Replay>, earliest: nat, stored: CursorRead, persisted: CursorRead,
                             again: CursorRead, restored: Table, last: nat)
    requires r.None? <==> forall q :: q in m ==> !Replayed(m[q])
    requires r.Some? ==> EarliestReplayed(m, earliest) && r.value == ReplayOf(m[earliest])
    requires restored != map[] ==> last in restored
    ensures var from := StartPosition(restored, last, again, RestoreReplay(r, persisted));
            (forall p :: p in m && Replayed(m[p]) ==> !Trimmed(stored, m[p].task) && Before(from, m[p].task)) <==>
              || r.None?
              || (&& !Trimmed(stored, m[earliest].task)
                  && (|| ReplayAccepted(m[earliest], persisted)
                      || Before(StartPosition(restored, last, again, None), m[earliest].task)))
  {
    ReplayCoverageExact(m, r, earliest, persisted, again, restored, last);
    if r.Some? && stored.Cursor? {
      FirstDecides(m, earliest, stored.position);
    }
  }

  /** How a task gets lost: the replay cursor is dropped because the persisted one could not be
      read at that moment or is of another generation, and the persisted cursor, read again, is
      already past the task. */
  lemma ReplayMissed(e: Entry, persisted: CursorRead, again: CursorRead)
    requires Replayed(e) && (persisted.ReadFailed? || (persisted.Cursor? && persisted.generation != e.generation))
    requires again.Cursor? && NotAfter(e.task, again.position)
    ensures var replay := RestoreReplay(Some(ReplayOf(e)), persisted);
            !AllReread(map[e.packetID := e], StartPosition(map[], 0, again, replay))
  {
    var m := map[e.packetID := e];
    assert e.packetID in m && Replayed(m[e.packetID]);
  }

  /** One such input: the read fails once, and a QoS 0 message behind the task had moved the
      persisted cursor. */
  lemma ReadFailureLosesTask()
    ensures var e := QueueEntry(1, 1, Position(5_000_000, 7));
            !AllReread(map[1 := e], StartPosition(map[], 0, Cursor(Position(6_000_000, 8), 1),
                                                  RestoreReplay(Some(ReplayOf(e)), ReadFailed)))
  {
    ReplayMissed(QueueEntry(1, 1, Position(5_000_000, 7)), ReadFailed, Cursor(Position(6_000_000, 8), 1));
  }

  /** An unacknowledged entry for a queue task. */
  function QueueEntry(packetID: nat, qos: nat, task: Position): Entry {
    Entry(0, packetID, qos, task, 1, task.id, false, [], None, None, 0, false, true,
          if qos == 2 then WaitingPubRec else WaitingPubAck, true)
  }

  lemma FirstDecides(m: Table, earliest: nat, from: Position)
    requires EarliestReplayed(m, earliest)
    ensures AllReread(m, from) <==> Before(from, m[earliest].task)
  {
  }

  /** When only acknowledgements moved the stored cursor, every unacknowledged task of any run,
      QoS 1 or QoS 2, lies after it: reading from the stored cursor finds them all again. */
  lemma StoredCursorRereadsAll(cfg: Config, run: seq<Link>, acts: seq<Action>, i: nat, stored: CursorRead)
    requires Run(cfg, run, acts) && run[0].m == map[] && run[0].ackLog == [] && i < |run|
    requires forall k :: 0 <= k < |acts| ==> !acts[k].Restore?
    requires run[0].cursor == Position(0, NIL_ID)
    requires stored.NoCursor? || (stored.Cursor? && stored.position in run[i].ackLog)
    ensures forall p :: IsTask(run[i].m, p) ==> Before(PersistedPosition(stored), run[i].m[p].task)
    ensures AllReread(run[i].m, LoadCursor(stored, None))
  {
    forall p | IsTask(run[i].m, p)
      ensures Before(PersistedPosition(stored), run[i].m[p].task)
    {
      StoredCursorTrails(cfg, run, acts, i, PersistedPosition(stored), p);
    }
    assert forall p :: p in run[i].m && Replayed(run[i].m[p]) ==> IsTask(run[i].m, p);
  }

  /** Every unacknowledged entry survives: saved alone with its packet identifier and stage,
      or replayed by position. */
  lemma NothingIsForgotten(m: Table, nowMicros: int, us: seq<Unfinished>, p: nat)
    requires Keyed(m) && Saved(m, nowMicros, us)
    requires p in m && !m[p].acked && (m[p].qos == 1 || m[p].qos == 2) && m[p].task.id != NIL_ID
    ensures Replayed(m[p]) <==> forall i :: 0 <= i < |us| ==> us[i].packetID != p
    ensures !Replayed(m[p]) ==>
              exists i :: && 0 <= i < |us| && us[i].packetID == p
                          && us[i].qos == m[p].qos && us[i].messageID == m[p].messageID
    ensures !Replayed(m[p]) && m[p].qos == 2 ==>
              exists i :: && 0 <= i < |us| && us[i].packetID == p
                          && (us[i].stage == WaitingPubComp <==> m[p].stage == WaitingPubComp)
  {
    if SavedAlone(m[p]) {
      var i :| 0 <= i < |us| && us[i] == SavedForm(m[p], nowMicros);
      assert us[i].packetID == p;
    }
  }

  // ---- restoring the saved entries ----

  const LOOKUP_LIMIT := 200

  /** CursorStore.ReadTasks: the first tasks of the ordered queue strictly after a position. */
  function ReadTasks(queue: seq<Task>, after: Position, limit: nat): (r: seq<Task>)
    ensures |r| <= limit
    ensures forall t :: t in r ==> t in queue && Before(after, t.position)
    decreases |queue|
  {
    if queue == [] || limit == 0 then []
    else if Before(after, queue[0].position) then [queue[0]] + ReadTasks(queue[1..], after, limit - 1)
    else ReadTasks(queue[1..], after, limit)
  }

  function FirstWithMessage(tasks: seq<Task>, messageID: nat): (r: Option<Task>)
    ensures r.None? <==> forall t :: t in tasks ==> t.messageID != messageID
    ensures r.Some? ==> r.value in tasks && r.value.messageID == messageID
  {
    if tasks == [] then None
    else if tasks[0].messageID == messageID then Some(tasks[0])
    else FirstWithMessage(tasks[1..], messageID)
  }

  /** findDeliveryTaskByMessageID looks at the head of the queue only. */
  function FindTask(queue: seq<Task>, persisted: CursorRead, messageID: nat): (r: Option<Task>)
    ensures r.Some? ==> r.value in queue && r.value.messageID == messageID
  {
    FirstWithMessage(ReadTasks(queue, PersistedPosition(persisted), LOOKUP_LIMIT), messageID)
  }

  function FirstPub(u: Unfinished, now: int): int {
    if u.first > 0 then u.first * 1000 else now
  }

  /** restoreOneOutgoingInflight: a saved packet is restored as it is, any other message needs
      its queue task. */
  function RestoredEntry(u: Unfinished, queue: seq<Task>, persisted: CursorRead, serial: nat, now: int): Option<Entry> {
    if u.packetID == 0 || (u.qos == 1 && u.publishPacket == []) || (u.qos != 1 && u.qos != 2) then None
    else if u.publishPacket != [] then
      var first := FirstPub(u, now);
      Some(Entry(serial, u.packetID, u.qos, Position(first, u.messageID), 0, u.messageID, true, u.publishPacket,
                 Some(first), Some(now), 0, false, true, u.stage, true))
    else match FindTask(queue, persisted, u.messageID)
      case None => None
      case Some(t) =>
        Some(Entry(serial, u.packetID, u.qos, t.position, t.generation, t.messageID, false, [],
                   Some(FirstPub(u, now)), Some(now), 0, false, true, u.stage, true))
  }

  /** The task of the message is among the ones the lookup reads. */
  ghost predicate InLookup(queue: seq<Task>, persisted: CursorRead, messageID: nat) {
    exists t :: t in ReadTasks(queue, PersistedPosition(persisted), LOOKUP_LIMIT) && t.messageID == messageID
  }

  /** An entry as the engine builds them: only retained entries carry their packet, and the
      stage fits the QoS. */
  predicate Proper(e: Entry) {
    && (e.retained <==> e.publishPacket != [])
    && (e.qos == 1 ==> e.stage == WaitingPubAck) && (e.qos == 2 ==> e.stage != WaitingPubAck)
  }

  /** A saved entry comes back with its packet identifier, QoS, stage and message. A retained
      one always does; a queue message does exactly when its task is among the first 200 after
      the persisted cursor. */
  lemma RestoreRoundTrip(e: Entry, queue: seq<Task>, persisted: CursorRead, serial: nat, nowMicros: int, now: int)
    requires SavedAlone(e) && Proper(e)
    ensures var back := RestoredEntry(SavedForm(e, nowMicros), queue, persisted, serial, now);
            && (back.Some? <==> (e.retained || InLookup(queue, persisted, e.messageID)))
            && (back.Some? ==>
                  && back.value.packetID == e.packetID && back.value.qos == e.qos && back.value.stage == e.stage
                  && back.value.messageID == e.messageID && back.value.retained == e.retained
                  && back.value.publishPacket == e.publishPacket
                  && !back.value.acked && back.value.retryCount == 0 && back.value.persisted
                  && back.value.lastSend == Some(now))
            && (back.Some? && !e.retained ==>
                  exists t :: && t in ReadTasks(queue, PersistedPosition(persisted), LOOKUP_LIMIT)
                              && t.messageID == e.messageID
                              && back.value.task == t.position && back.value.generation == t.generation)
            && (back.Some? && e.firstPub.Some? && e.firstPub.value >= 1000 ==>
                  back.value.firstPub == Some(e.firstPub.value - e.firstPub.value % 1000))
  {
  }

  /** A restored queue message acknowledges with the task and generation it was sent with. */
  lemma RestoredWithItsTask(e: Entry, queue: seq<Task>, k: nat, persisted: CursorRead, serial: nat, nowMicros: int,
                            now: int)
    requires SavedAlone(e) && Proper(e) && DistinctMessages(queue) && IsFor(e, queue, k)
    requires RestoredEntry(SavedForm(e, nowMicros), queue, persisted, serial, now).Some?
    ensures var back := RestoredEntry(SavedForm(e, nowMicros), queue, persisted, serial, now).value;
            back.task == e.task && back.generation == queue[k].generation
  {
    RestoreRoundTrip(e, queue, persisted, serial, nowMicros, now);
    var t :| t in ReadTasks(queue, PersistedPosition(persisted), LOOKUP_LIMIT) && t.messageID == e.messageID
             && RestoredEntry(SavedForm(e, nowMicros), queue, persisted, serial, now).value.task == t.position
             && RestoredEntry(SavedForm(e, nowMicros), queue, persisted, serial, now).value.generation == t.generation;
    var j :| 0 <= j < |queue| && queue[j] == t;
    assert j == k;
  }

  // ---- a QoS 2 queue message after a reconnect ----

  ghost predicate InOrder(queue: seq<Task>) {
    forall i, j :: 0 <= i < j < |queue| ==> Before(queue[i].position, queue[j].position)
  }

  ghost predicate DistinctMessages(queue: seq<Task>) {
    forall i, j :: 0 <= i < j < |queue| ==> queue[i].messageID != queue[j].messageID
  }

  /** How many tasks of an ordered queue are up to a position. */
  function UpTo(queue: seq<Task>, at: Position): (n: nat)
    ensures n <= |queue|
    ensures n < |queue| ==> Before(at, queue[n].position)
    ensures forall i :: 0 <= i < n ==> NotAfter(queue[i].position, at)
  {
    if queue == [] || Before(at, queue[0].position) then 0
    else
      var n := 1 + UpTo(queue[1..], at);
      assert forall i :: 0 < i < n ==> queue[i] == queue[1..][i - 1];
      n
  }

  function Head(tasks: seq<Task>, limit: nat): seq<Task> {
    if limit < |tasks| then tasks[..limit] else tasks
  }

  lemma {:induction false} ReadsHead(queue: seq<Task>, after: Position, limit: nat)
    requires forall t :: t in queue ==> Before(after, t.position)
    ensures ReadTasks(queue, after, limit) == Head(queue, limit)
    decreases |queue|
  {
    if queue != [] && limit > 0 {
      ReadsHead(queue[1..], after, limit - 1);
      assert queue == [queue[0]] + queue[1..];
      assert Head(queue, limit) == [queue[0]] + Head(queue[1..], limit - 1);
    }
  }

  lemma {:induction false} ReadSkips(queue: seq<Task>, after: Position, limit: nat)
    ensures ReadTasks(queue, after, limit) == ReadTasks(queue[UpTo(queue, after)..], after, limit)
    decreases |queue|
  {
    if queue == [] || Before(after, queue[0].position) {
      assert queue[UpTo(queue, after)..] == queue;
    } else {
      ReadSkips(queue[1..], after, limit);
      assert queue[UpTo(queue, after)..] == queue[1..][UpTo(queue[1..], after)..];
    }
  }

  /** ReadTasks answers one stretch of the queue. */
  lemma ReadTasksExact(queue: seq<Task>, after: Position, limit: nat)
    requires InOrder(queue)
    ensures ReadTasks(queue, after, limit) == Head(queue[UpTo(queue, after)..], limit)
  {
    var n := UpTo(queue, after);
    var rest := queue[n..];
    forall t | t in rest ensures Before(after, t.position) {
      var i :| 0 <= i < |rest| && t == rest[i];
      assert t == queue[n + i] && (i > 0 ==> Before(queue[n].position, queue[n + i].position));
    }
    ReadSkips(queue, after, limit);
    ReadsHead(rest, after, limit);
  }

  /** The lookup finds the k-th task exactly if it is one of the 200 behind the cursor. */
  lemma InLookupExact(queue: seq<Task>, read: CursorRead, k: nat)
    requires InOrder(queue) && DistinctMessages(queue) && k < |queue|
    ensures InLookup(queue, read, queue[k].messageID) <==>
              var n := UpTo(queue, PersistedPosition(read)); n <= k < n + 200
  {
    var n := UpTo(queue, PersistedPosition(read));
    ReadTasksExact(queue, PersistedPosition(read), LOOKUP_LIMIT);
    HeadHas(queue, n, LOOKUP_LIMIT, k);
  }

  lemma HeadHas(queue: seq<Task>, n: nat, limit: nat, k: nat)
    requires DistinctMessages(queue) && n <= |queue| && k < |queue|
    ensures (exists t :: t in Head(queue[n..], limit) && t.messageID == queue[k].messageID) <==> n <= k < n + limit
  {
    var tasks := Head(queue[n..], limit);
    assert forall i :: 0 <= i < |tasks| ==> tasks[i] == queue[n + i];
    if n <= k < n + limit {
      assert queue[k] == tasks[k - n];
    }
  }

  /** An entry for the k-th task of the queue. */
  ghost predicate IsFor(e: Entry, queue: seq<Task>, k: nat) {
    k < |queue| && !e.retained && e.messageID == queue[k].messageID && e.task == queue[k].position
  }

  ghost predicate Restored(e: Entry, queue: seq<Task>, read: CursorRead, serial: nat, nowMicros: int, now: int) {
    RestoredEntry(SavedForm(e, nowMicros), queue, read, serial, now).Some?
  }

  /** A saved QoS 2 queue message is neither restored nor read again exactly when its task is
      not one of the 200 behind the persisted cursor and is among those the start position
      skips. */
  lemma QoS2LostExact(e: Entry, queue: seq<Task>, k: nat, read: CursorRead, from: Position,
                      serial: nat, nowMicros: int, now: int)
    requires SavedAlone(e) && Proper(e) && InOrder(queue) && DistinctMessages(queue) && IsFor(e, queue, k)
    ensures var n := UpTo(queue, PersistedPosition(read));
            !Restored(e, queue, read, serial, nowMicros, now) && !Before(from, e.task) <==>
              !(n <= k < n + 200) && k < UpTo(queue, from)
  {
    RestoreRoundTrip(e, queue, read, serial, nowMicros, now);
    InLookupExact(queue, read, k);
    var m := UpTo(queue, from);
    assert m < k < |queue| ==> Before(queue[m].position, queue[k].position);
  }

  /** `count` tasks, two microseconds apart; the first 201 with QoS 2. */
  function Tasks(count: nat): (queue: seq<Task>)
    ensures |queue| == count
    ensures forall i :: 0 <= i < count ==> queue[i] == Task(TaskAt(i), if i < 201 then 2 else 1, 1, i + 1)
  {
    seq(count, i requires 0 <= i => Task(TaskAt(i), if i < 201 then 2 else 1, 1, i + 1))
  }

  function TaskAt(i: nat): Position {
    Position(2000 * (i + 1), i + 1)
  }

  /** The task after the 200 a lookup reads is not restored. */
  lemma BeyondLookup(count: nat, serial: nat, nowMicros: int, now: int)
    requires count > LOOKUP_LIMIT
    ensures !Restored(QueueEntry(201, 2, TaskAt(200)), Tasks(count), NoCursor, serial, nowMicros, now)
  {
    var queue := Tasks(count);
    assert Before(PersistedPosition(NoCursor), queue[0].position);
    InLookupExact(queue, NoCursor, 200);
    RestoreRoundTrip(QueueEntry(201, 2, TaskAt(200)), queue, NoCursor, serial, nowMicros, now);
  }

  /** Such an input: 202 messages in flight, the last with QoS 1 and the others with QoS 2, none
      acknowledged. The replay cursor stands for the last, and the one before it is lost
      whatever entries were restored. */
  lemma LargeWindowLosesTask(serial: nat, nowMicros: int, now: int, m: Table, newest: nat)
    requires newest in m
    ensures var lost, last := QueueEntry(201, 2, TaskAt(200)), QueueEntry(202, 1, TaskAt(201));
            var replay := RestoreReplay(Some(ReplayOf(last)), NoCursor);
            && SavedAlone(lost) && IsFor(lost, Tasks(202), 200) && IsFor(last, Tasks(202), 201) && Replayed(last)
            && replay.Some? && !Restored(lost, Tasks(202), NoCursor, serial, nowMicros, now)
            && !Before(StartPosition(m, newest, NoCursor, replay), lost.task)
  {
    BeyondLookup(202, serial, nowMicros, now);
  }

  // ---- aligning the runner with the restored entries ----

  /** The runner starts at or after every restored queue task, so that it never sends one of
      them a second time, exactly when the loaded position already is, or no QoS 1 replay is
      due and the newest restored entry is not a retained message. From there on the
      acknowledgement cursors of the run strictly increase. */
  lemma AlignmentExact(s: Link, last: nat, replay: Option<Replay>, loaded: Position)
    requires s.m != map[] ==> IsLast(s.m, last)
    requires s.ackLog == [] && DistinctQueueTasks(s.m)
    ensures Ordered(s.(cursor := AlignCursor(s.m, last, replay, loaded))) <==>
              Behind(s.m, loaded) || (replay.None? && s.m != map[] && !s.m[last].retained)
  {
    var c := AlignCursor(s.m, last, replay, loaded);
    if c != loaded {
      assert Behind(s.m, c);
    }
  }

  /** When alignment fails: the newest restored entry is a retained message, so the runner
      starts before the restored queue task and would send it a second time. */
  lemma RetainedBlocksAlignment()
    ensures var task := QueueEntry(1, 2, Position(10, 7));
            var kept := QueueEntry(2, 1, Position(20, 9)).(retained := true, publishPacket := [0]);
            var s := Link(map[1 := task, 2 := kept], 0, 2, Position(0, NIL_ID), [], [], 2, false);
            && IsLast(s.m, 2) && DistinctQueueTasks(s.m)
            && !Ordered(s.(cursor := AlignCursor(s.m, 2, None, Position(0, NIL_ID))))
  {
    var task := QueueEntry(1, 2, Position(10, 7));
    var kept := QueueEntry(2, 1, Position(20, 9)).(retained := true, publishPacket := [0]);
    var m := map[1 := task, 2 := kept];
    var s := Link(m, 0, 2, Position(0, NIL_ID), [], [], 2, false);
    assert m[1] == task && m[2] == kept && 1 in m;
    AlignmentExact(s, 2, None, Position(0, NIL_ID));
    assert IsTask(m, 1);
  }
}
