/** outgoing_progress_commit.go: periodic commits of delivery progress, interleaved with
    acknowledgements at the granularity of single atomic operations.

    Messages are numbered in the order they are sent. A commit goroutine loads the counter,
    copies the store twice (unfinished messages, then the replay cursor), writes, and
    subtracts what it loaded; acknowledgements run in between any two of these. */
module ProgressCommit {
  import opened OutgoingInflight
  import opened Options
  import opened Sequences
  import Recovery

  // QoS 1 queue tasks are replayed from the earliest that is not acknowledged; QoS 2 queue
  // tasks and retained messages are listed one by one.
  datatype Kind = Retained | QoS1 | QoS2

  datatype Msg = Msg(kind: Kind, at: Position)

  // The two copies a commit writes; `seen` is how many messages had been sent at the first.
  datatype Snapshot = Snapshot(unfinished: set<nat>, replay: Option<nat>, seen: nat)

  // Program points of commitOutgoingProgressToSession; `upTo` is how many acknowledgements
  // had been counted when the counter was loaded.
  datatype Commit =
    | Started
    | Loaded(acks: int, upTo: nat)
    | Copied(acks: int, upTo: nat, unfinished: set<nat>, seen: nat)
    | Ready(acks: int, upTo: nat, snapshot: Snapshot)
    | Written(acks: int, upTo: nat, snapshot: Snapshot)
    | Finishing

  // Where the runner is with the queue task it sent last. A task whose write failed is
  // taken again; numbers are never reused for another task.
  datatype Sending = Idle | Writing(n: nat) | Failed(n: nat)

  datatype State = State(
    sent: seq<Msg>,                  // every message so far, by number
    store: map<nat, bool>,           // the numbers in flight, and whether acknowledged
    popped: Option<seq<nat>>,        // taken from the store by the handler, not yet counted
    advanced: nat,                   // how many of them AdvanceCursor was called for
    counted: seq<nat>,               // completed messages in the order they were counted
    counter: int,                    // outgoingAcksSinceCommit
    subtracted: int,                 // how many of `counted` were subtracted again
    discarded: set<nat>,             // dropped as oversized, never counted
    flag: bool,                      // outgoingCommitInFlight
    commits: map<nat, Commit>,       // running commit goroutines
    spawned: nat,
    durable: Snapshot,               // what the session store holds
    cursor: Position,                // the runner's position in the queue
    sending: Sending,
    stored: Recovery.CursorRead,     // the persisted delivery cursor
    missed: set<nat>,                // completed tasks whose AdvanceCursor had no effect
    generation: int,
    trims: bool)                     // storing a cursor deletes the tasks up to it

  datatype Action =
    | Send(msg: Msg)
    | Wrote
    | Oversized(applied: bool)
    | WriteFailed
    | Resend
    | Skip(at: Position, applied: bool)
    | Ack(n: nat)
    | Pop(batch: seq<nat>)
    | Advance(applied: bool)
    | Count
    | Discard(n: nat)
    | Forget(n: nat)
    | TryCommit
    | GiveUp(g: nat)
    | Load(g: nat)
    | CopyUnfinished(g: nat)
    | CopyReplay(g: nat)
    | Write(g: nat, applied: bool, ok: bool)
    | Subtract(g: nat)
    | Finish(g: nat)

  function Unfinished(s: State): set<nat> {
    set n | n in s.store && n < |s.sent| && s.sent[n].kind != QoS1
  }

  ghost predicate IsQoS1(s: State, n: nat) {
    n < |s.sent| && s.sent[n].kind == QoS1
  }

  ghost predicate Queue(s: State, n: nat) {
    n < |s.sent| && s.sent[n].kind != Retained
  }

  /** The earliest message that is replayed by position. */
  ghost predicate EarliestReplayed(s: State, r: Option<nat>) {
    match r
    case None => forall n :: n in s.store && IsQoS1(s, n) ==> s.store[n]
    case Some(e) =>
      && e in s.store && IsQoS1(s, e) && !s.store[e]
      && forall n :: n in s.store && IsQoS1(s, n) && !s.store[n] ==> NotAfter(s.sent[e].at, s.sent[n].at)
  }

  /** PopAckedInOrder: acknowledged entries, none of them behind one that stays. */
  ghost predicate AckedPrefix(s: State, batch: seq<nat>) {
    && batch != [] && Distinct(batch)
    && (forall n :: n in batch ==> n in s.store && s.store[n])
    && (forall n, k :: n in batch && k in s.store && k !in batch && n < |s.sent| && k < |s.sent| ==>
          NotAfter(s.sent[n].at, s.sent[k].at))
  }

  /** The delivery store only ever moves a cursor forward. */
  function Later(stored: Recovery.CursorRead, at: Position, generation: int): Recovery.CursorRead {
    if stored.Cursor? && !Before(stored.position, at) then stored else Recovery.Cursor(at, generation)
  }

  function Without(m: map<nat, bool>, batch: seq<nat>): map<nat, bool> {
    map n | n in m && n !in batch :: m[n]
  }

  /** A step of the delivery runner, or of sending a retained message. */
  ghost predicate RunnerStep(s: State, a: Action, s': State) {
    match a
    case Send(msg) =>
      // Queue tasks are taken one at a time in queue order; retained messages come from elsewhere.
      && (msg.kind != Retained ==> s.sending.Idle? && Before(s.cursor, msg.at))
      && s' == s.(sent := s.sent + [msg], store := s.store[|s.sent| := false],
                  sending := if msg.kind == Retained then s.sending else Writing(|s.sent|))
    case Wrote =>
      s.sending.Writing? && s.sending.n < |s.sent| && s' == s.(cursor := s.sent[s.sending.n].at, sending := Idle)
    case Oversized(applied) =>
      // The task counts as delivered: handleDeliveryWriteError.
      && s.sending.Writing? && s.sending.n < |s.sent| && s.sending.n in s.store
      && var at := s.sent[s.sending.n].at;
         s' == s.(store := s.store - {s.sending.n}, discarded := s.discarded + {s.sending.n}, sending := Idle,
                  cursor := at, stored := if applied then Later(s.stored, at, s.generation) else s.stored)
    case WriteFailed =>
      && s.sending.Writing? && s.sending.n in s.store
      && s' == s.(store := s.store - {s.sending.n}, sending := Failed(s.sending.n))
    case Resend =>
      s.sending.Failed? && s' == s.(store := s.store[s.sending.n := false], sending := Writing(s.sending.n))
    case Skip(at, applied) =>
      // A QoS 0 send or a dropped task: advanceClientDeliveryCursor.
      && !s.sending.Writing? && Before(s.cursor, at)
      && (s.sending.Failed? ==> s.sending.n < |s.sent| && at == s.sent[s.sending.n].at)
      && s' == s.(cursor := at, stored := if applied then Later(s.stored, at, s.generation) else s.stored,
                  sending := Idle,
                  discarded := if s.sending.Failed? then s.discarded + {s.sending.n} else s.discarded)
    case _ => false
  }

  /** A step of the acknowledgement handler, or the removal of a message that cannot be sent. */
  ghost predicate HandlerStep(s: State, a: Action, s': State) {
    match a
    case Ack(n) => n in s.store && s' == s.(store := s.store[n := true])
    case Pop(batch) =>
      && s.popped.None? && AckedPrefix(s, batch)
      && s' == s.(store := Without(s.store, batch), popped := Some(batch), advanced := 0)
    case Advance(applied) =>
      // One call of AdvanceCursor per queue task; an error is only logged.
      && s.popped.Some? && s.advanced < |s.popped.value|
      && var n := s.popped.value[s.advanced];
         s' == if !Queue(s, n) then s.(advanced := s.advanced + 1)
               else if applied then
                 s.(advanced := s.advanced + 1, stored := Later(s.stored, s.sent[n].at, s.generation))
               else s.(advanced := s.advanced + 1, missed := s.missed + {n})
    case Count =>
      && s.popped.Some? && s.advanced == |s.popped.value|
      && s' == s.(popped := None, counted := s.counted + s.popped.value, counter := s.counter + |s.popped.value|)
    case Discard(n) =>
      // An oversized retransmission, or a retained message that could not be written.
      n in s.store && s' == s.(store := s.store - {n}, discarded := s.discarded + {n})
    case Forget(n) =>
      // removeOutgoingUnfinishedFromSession, for a message that was completed.
      && n < |s.sent| && n !in s.store
      && s' == s.(durable := s.durable.(unfinished := s.durable.unfinished - {n}))
    case _ => false
  }

  /** A step of a commit goroutine, or its start. */
  ghost predicate CommitStep(s: State, a: Action, s': State) {
    match a
    case TryCommit =>
      // CompareAndSwap(false, true), then a new goroutine.
      if s.flag then s' == s
      else s' == s.(flag := true, commits := s.commits[s.spawned := Started], spawned := s.spawned + 1)
    case GiveUp(g) =>
      // No session or no client identifier.
      && g in s.commits && s.commits[g].Started? && s' == s.(commits := s.commits[g := Finishing])
    case Load(g) =>
      && g in s.commits && s.commits[g].Started?
      && s' == s.(commits := s.commits[g := if s.counter <= 0 then Finishing else Loaded(s.counter, |s.counted|)])
    case CopyUnfinished(g) =>
      && g in s.commits && s.commits[g].Loaded?
      && s' == s.(commits := s.commits[g := Copied(s.commits[g].acks, s.commits[g].upTo, Unfinished(s), |s.sent|)])
    case CopyReplay(g) =>
      && g in s.commits && s.commits[g].Copied?
      && exists r :: EarliestReplayed(s, r)
           && s' == s.(commits := s.commits[g := Ready(s.commits[g].acks, s.commits[g].upTo,
                                                       Snapshot(s.commits[g].unfinished, r, s.commits[g].seen))])
    case Write(g, applied, ok) =>
      // A write that reports an error may still have been applied.
      && g in s.commits && s.commits[g].Ready? && (ok ==> applied)
      && var c := s.commits[g];
         s' == s.(durable := if applied then c.snapshot else s.durable,
                  commits := s.commits[g := if ok then Written(c.acks, c.upTo, c.snapshot) else Finishing])
    case Subtract(g) =>
      && g in s.commits && s.commits[g].Written?
      && s' == s.(counter := s.counter - s.commits[g].acks, subtracted := s.subtracted + s.commits[g].acks,
                  commits := s.commits[g := Finishing])
    case Finish(g) =>
      && g in s.commits && s.commits[g].Finishing?
      && s' == s.(flag := false, commits := s.commits - {g})
    case _ => false
  }

  ghost predicate DeliveryStep(s: State, a: Action, s': State) {
    RunnerStep(s, a, s') || HandlerStep(s, a, s')
  }

  ghost predicate Step(s: State, a: Action, s': State) {
    DeliveryStep(s, a, s') || CommitStep(s, a, s')
  }

  // ---- the invariants ----

  /** Single flight: the flag is up exactly while one commit goroutine runs. */
  ghost predicate SingleFlight(s: State) {
    && (s.flag <==> s.commits.Keys != {})
    && (forall g :: g in s.commits ==> g < s.spawned)
    && (forall g, h :: g in s.commits && h in s.commits ==> g == h)
  }

  ghost predicate Holds(c: Commit) {
    c.Loaded? || c.Copied? || c.Ready? || c.Written?
  }

  /** The counter is what was counted and not subtracted; a running commit subtracts exactly
      the acknowledgements counted before its load. */
  ghost predicate Accounted(s: State) {
    && 0 <= s.subtracted <= |s.counted|
    && s.counter == |s.counted| - s.subtracted
    && (forall g :: g in s.commits && Holds(s.commits[g]) ==>
          0 < s.commits[g].acks && s.subtracted + s.commits[g].acks == s.commits[g].upTo <= |s.counted|)
  }

  ghost predicate Lists(snap: Snapshot, n: nat) {
    n in snap.unfinished || snap.replay == Some(n)
  }

  /** Where a message is: still in the store, popped, counted or discarded, never twice. */
  ghost predicate Located(s: State) {
    && (forall n :: n in s.store ==> n < |s.sent| && n !in s.counted && n !in s.discarded)
    && (s.popped.Some? ==> forall n :: n in s.popped.value ==>
          n < |s.sent| && n !in s.store && n !in s.counted && n !in s.discarded)
    && (forall n :: n in s.counted ==> n < |s.sent| && n !in s.discarded)
    && (forall n :: n in s.discarded ==> n < |s.sent|)
    && (!s.sending.Idle? ==> s.sending.n < |s.sent|)
    && (s.sending.Failed? ==> Nowhere(s, s.sending.n))
  }

  ghost predicate Nowhere(s: State, n: nat) {
    n !in s.store && (s.popped.Some? ==> n !in s.popped.value) && n !in s.counted && n !in s.discarded
  }

  /** Nothing counted before the load is in a copy taken after it. */
  ghost predicate CopiesAreFresh(s: State) {
    forall g, k :: g in s.commits && Holds(s.commits[g]) && 0 <= k < s.commits[g].upTo <= |s.counted| ==>
      && (s.commits[g].Copied? ==> s.counted[k] !in s.commits[g].unfinished)
      && (s.commits[g].Ready? || s.commits[g].Written? ==> !Lists(s.commits[g].snapshot, s.counted[k]))
  }

  /** The session never lists a message whose acknowledgement was subtracted. */
  ghost predicate DurableIsFresh(s: State) {
    forall k :: 0 <= k < s.subtracted <= |s.counted| ==> !Lists(s.durable, s.counted[k])
  }

  /** Between a successful write and its subtraction the session lists only what was written. */
  ghost predicate WrittenIsDurable(s: State) {
    forall g :: g in s.commits && s.commits[g].Written? ==> Shrunk(s.durable, s.commits[g].snapshot)
  }

  ghost predicate Shrunk(now: Snapshot, was: Snapshot) {
    now.unfinished <= was.unfinished && now.replay == was.replay && now.seen == was.seen
  }

  /** Every message is accounted for: only a task whose write failed is not held anywhere. */
  ghost predicate Complete(s: State) {
    forall n: nat :: n < |s.sent| ==>
      Nowhere(s, n) ==> s.sending == Failed(n)
  }

  /** The runner has taken the task and not moved past it. */
  ghost predicate Taken(s: State, n: nat) {
    !s.sending.Idle? && s.sending.n == n
  }

  /** Queue tasks were sent in queue order, up to the runner's position. */
  ghost predicate Queued(s: State) {
    && (forall n, k :: 0 <= n < k < |s.sent| && Queue(s, n) && Queue(s, k) ==> Before(s.sent[n].at, s.sent[k].at))
    && (forall n :: 0 <= n < |s.sent| && Queue(s, n) && !Taken(s, n) ==> NotAfter(s.sent[n].at, s.cursor))
    && (forall n :: 0 <= n < |s.sent| && Taken(s, n) ==> Queue(s, n) && Before(s.cursor, s.sent[n].at))
  }

  /** A queue task that completed is before every queue task still in flight. */
  ghost predicate CompletedFirst(s: State) {
    && (forall n, k :: n in s.counted && Queue(s, n) && k in s.store && Queue(s, k) ==>
          Before(s.sent[n].at, s.sent[k].at))
    && (s.popped.Some? ==>
          forall n, k :: n in s.popped.value && Queue(s, n) && k in s.store && Queue(s, k) ==>
            Before(s.sent[n].at, s.sent[k].at))
  }

  /** The persisted cursor covers a task unless its AdvanceCursor had no effect. */
  ghost predicate Covered(s: State, n: nat) {
    Queue(s, n) ==> n in s.missed || (s.stored.Cursor? && NotAfter(s.sent[n].at, s.stored.position))
  }

  ghost predicate CursorCovers(s: State) {
    && !s.stored.ReadFailed? && (s.stored.Cursor? ==> s.stored.generation == s.generation)
    && (forall k :: 0 <= k < |s.counted| ==> Covered(s, s.counted[k]))
    && (s.popped.Some? ==> s.advanced <= |s.popped.value|
                           && forall k :: 0 <= k < s.advanced ==> Covered(s, s.popped.value[k]))
  }

  /** `n` is before the replay cursor and before every listed queue task. */
  ghost predicate Passed(s: State, snap: Snapshot, n: nat) {
    Queue(s, n) ==>
      && (snap.replay.Some? ==> PassedBy(s, n, snap.replay.value))
      && (forall x :: x in snap.unfinished && Queue(s, x) ==> PassedBy(s, n, x))
  }

  ghost predicate PassedBy(s: State, n: nat, x: nat) {
    Queue(s, n) && Queue(s, x) && Before(s.sent[n].at, s.sent[x].at)
  }

  ghost predicate HasCopy(c: Commit) {
    c.Copied? || c.Ready? || c.Written?
  }

  ghost function CopyOf(c: Commit): Snapshot
    requires HasCopy(c)
  {
    if c.Copied? then Snapshot(c.unfinished, None, c.seen) else c.snapshot
  }

  ghost predicate Sane(s: State, snap: Snapshot) {
    && (forall x :: x in snap.unfinished ==> x < |s.sent|)
    && (snap.replay.Some? ==> IsQoS1(s, snap.replay.value))
    && snap.seen <= |s.sent|
  }

  /** A copy has passed everything counted before the load. */
  ghost predicate CopiesPass(s: State) {
    && (forall g :: g in s.commits && HasCopy(s.commits[g]) ==> Sane(s, CopyOf(s.commits[g])))
    && (forall g, k :: g in s.commits && HasCopy(s.commits[g]) && 0 <= k < s.commits[g].upTo <= |s.counted| ==>
          Passed(s, CopyOf(s.commits[g]), s.counted[k]))
  }

  ghost predicate DurablePasses(s: State) {
    && Sane(s, s.durable)
    && (forall k :: 0 <= k < s.subtracted <= |s.counted| ==> Passed(s, s.durable, s.counted[k]))
  }

  /** The replay cursor is not after an unacknowledged QoS 1 task in flight. */
  ghost predicate CursorReaches(s: State, snap: Snapshot, n: nat) {
    snap.replay.Some? && IsQoS1(s, snap.replay.value) && IsQoS1(s, n) ==>
      NotAfter(s.sent[snap.replay.value].at, s.sent[n].at)
  }

  /** The last queue task sent before the first copy; it is missing there if its write failed. */
  ghost predicate LastSeen(s: State, snap: Snapshot, n: nat) {
    Queue(s, n) && forall k :: n < k < snap.seen ==> !Queue(s, k)
  }

  /** What a snapshot has of the messages in flight. */
  ghost predicate Keeps(s: State, snap: Snapshot) {
    && (forall x :: x in snap.unfinished ==> x < snap.seen)
    && (forall n :: n in s.store && !s.store[n] ==> CursorReaches(s, snap, n))
    && (forall n :: n in s.store && n < snap.seen && !IsQoS1(s, n) ==> n in snap.unfinished || LastSeen(s, snap, n))
  }

  ghost predicate SnapshotsKeep(s: State) {
    Keeps(s, s.durable) && forall g :: g in s.commits && HasCopy(s.commits[g]) ==> Keeps(s, CopyOf(s.commits[g]))
  }

  ghost predicate Inv(s: State) {
    && SingleFlight(s) && Accounted(s) && Located(s) && Complete(s)
    && CopiesAreFresh(s) && DurableIsFresh(s) && WrittenIsDurable(s)
    && Queued(s) && CompletedFirst(s) && CursorCovers(s) && CopiesPass(s) && DurablePasses(s)
    && SnapshotsKeep(s)
  }

  ghost predicate Init(s: State) {
    && s.sent == [] && s.store == map[] && s.popped.None? && s.counted == [] && s.counter == 0
    && s.subtracted == 0 && s.discarded == {} && !s.flag && s.commits == map[] && s.durable == Snapshot({}, None, 0)
    && s.sending.Idle? && s.missed == {} && !s.stored.ReadFailed?
    && (s.stored.Cursor? ==> s.stored.generation == s.generation)
  }

  // Which invariants a step can touch.

  /** A cursor that is stored is of the generation of the tasks. */
  ghost predicate StoredSane(s: State, s': State) {
    && s'.generation == s.generation && (s'.stored.ReadFailed? ==> s.stored.ReadFailed?)
    && (s'.stored == s.stored || (s'.stored.Cursor? && s'.stored.generation == s'.generation))
  }

  /** The runner leaves the acknowledgements and the commit goroutines alone. */
  lemma RunnerFrame(s: State, a: Action, s': State)
    requires RunnerStep(s, a, s')
    ensures s'.popped == s.popped && s'.advanced == s.advanced && s'.counted == s.counted && s'.missed == s.missed
    ensures s'.flag == s.flag && s'.commits == s.commits && s'.spawned == s.spawned
    ensures s'.subtracted == s.subtracted && s'.counter == s.counter && s'.durable == s.durable
    ensures s.sent <= s'.sent && StoredSane(s, s')
  {
  }

  /** The handler leaves the runner and the commit goroutines alone. */
  lemma HandlerFrame(s: State, a: Action, s': State)
    requires HandlerStep(s, a, s')
    ensures s'.sent == s.sent && s'.cursor == s.cursor && s'.sending == s.sending && s'.store.Keys <= s.store.Keys
    ensures s'.flag == s.flag && s'.commits == s.commits && s'.spawned == s.spawned && s'.subtracted == s.subtracted
    ensures s.counted <= s'.counted && s'.counter - s.counter == |s'.counted| - |s.counted|
    ensures Shrunk(s'.durable, s.durable) && StoredSane(s, s')
  {
  }

  /** Runner and handler leave the commit goroutines alone. */
  lemma DeliveryFrame(s: State, a: Action, s': State)
    requires DeliveryStep(s, a, s')
    ensures s'.flag == s.flag && s'.commits == s.commits && s'.spawned == s.spawned && s'.subtracted == s.subtracted
    ensures s.counted <= s'.counted && s'.counter - s.counter == |s'.counted| - |s.counted|
    ensures s.sent <= s'.sent && Shrunk(s'.durable, s.durable)
  {
    if RunnerStep(s, a, s') {
      RunnerFrame(s, a, s');
    } else {
      HandlerFrame(s, a, s');
    }
  }

  /** Commit goroutines leave the messages alone. */
  lemma CommitFrame(s: State, a: Action, s': State)
    requires CommitStep(s, a, s')
    ensures s'.sent == s.sent && s'.store == s.store && s'.popped == s.popped && s'.advanced == s.advanced
    ensures s'.counted == s.counted && s'.discarded == s.discarded && s'.cursor == s.cursor && s'.sending == s.sending
    ensures s'.stored == s.stored && s'.missed == s.missed && s'.generation == s.generation
  {
  }

  // ---- what the commit goroutines keep ----

  lemma CommitSingleFlight(s: State, a: Action, s': State)
    requires SingleFlight(s) && CommitStep(s, a, s')
    ensures SingleFlight(s')
  {
    if a.Finish? {
      assert s'.commits.Keys == {};
    } else if s.commits.Keys != {} {
      assert s.commits.Keys <= s'.commits.Keys;
    } else if a.TryCommit? {
      assert s.spawned in s'.commits.Keys;
    }
  }

  lemma CommitAccounted(s: State, a: Action, s': State)
    requires SingleFlight(s) && Accounted(s) && CommitStep(s, a, s')
    ensures Accounted(s')
  {
  }

  /** Where the copies of a goroutine come from. */
  ghost predicate CopyFrom(s: State, g: nat, c: Commit) {
    HasCopy(c) ==>
      && g in s.commits && Holds(s.commits[g]) && c.upTo == s.commits[g].upTo
      && (|| CopyOf(c) == Snapshot(Unfinished(s), None, |s.sent|)
          || (HasCopy(s.commits[g]) && CopyOf(c) == CopyOf(s.commits[g]))
          || (&& s.commits[g].Copied? && CopyOf(c) == CopyOf(s.commits[g]).(replay := CopyOf(c).replay)
              && EarliestReplayed(s, CopyOf(c).replay)))
  }

  lemma CommitCopyFrom(s: State, a: Action, s': State, g: nat)
    requires CommitStep(s, a, s') && g in s'.commits
    ensures CopyFrom(s, g, s'.commits[g])
  {
  }

  lemma FreshCopy(s: State, g: nat, c: Commit, k: nat)
    requires Accounted(s) && Located(s) && CopiesAreFresh(s) && CopyFrom(s, g, c) && HasCopy(c) && 0 <= k < c.upTo
    ensures k < |s.counted| && !Lists(CopyOf(c), s.counted[k])
  {
    assert s.counted[k] in s.counted;
  }

  lemma CommitCopies(s: State, a: Action, s': State)
    requires Accounted(s) && Located(s) && CopiesAreFresh(s) && CommitStep(s, a, s')
    ensures CopiesAreFresh(s')
  {
    CommitFrame(s, a, s');
    forall g, k | g in s'.commits && HasCopy(s'.commits[g]) && 0 <= k < s'.commits[g].upTo <= |s'.counted|
      ensures !Lists(CopyOf(s'.commits[g]), s'.counted[k])
    {
      CommitCopyFrom(s, a, s', g);
      FreshCopy(s, g, s'.commits[g], k);
    }
  }

  lemma CommitDurable(s: State, a: Action, s': State)
    requires SingleFlight(s) && Accounted(s) && CopiesAreFresh(s) && DurableIsFresh(s) && WrittenIsDurable(s)
    requires CommitStep(s, a, s')
    ensures DurableIsFresh(s') && WrittenIsDurable(s')
  {
  }

  // ---- what runner and handler keep ----

  lemma RunnerLocated(s: State, a: Action, s': State)
    requires Located(s) && RunnerStep(s, a, s')
    ensures Located(s')
  {
  }

  lemma RunnerComplete(s: State, a: Action, s': State)
    requires Located(s) && Complete(s) && RunnerStep(s, a, s')
    ensures Complete(s')
  {
  }

  lemma CountLocated(s: State, a: Action, s': State)
    requires Located(s) && (a.Pop? || a.Count?) && HandlerStep(s, a, s')
    ensures Located(s')
  {
  }

  lemma HandlerLocated(s: State, a: Action, s': State)
    requires Located(s) && HandlerStep(s, a, s')
    ensures Located(s')
  {
    if a.Pop? || a.Count? {
      CountLocated(s, a, s');
    } else {
      assert s'.popped == s.popped && s'.counted == s.counted && s'.store.Keys <= s.store.Keys;
    }
  }

  lemma HandlerComplete(s: State, a: Action, s': State)
    requires Complete(s) && HandlerStep(s, a, s')
    ensures Complete(s')
  {
  }

  lemma QueueStays(s: State, s': State)
    requires s.sent <= s'.sent
    ensures forall n :: 0 <= n < |s.sent| ==> s'.sent[n] == s.sent[n] && (Queue(s', n) <==> Queue(s, n))
  {
  }

  lemma SendQueued(s: State, a: Action, s': State)
    requires Located(s) && Queued(s) && a.Send? && RunnerStep(s, a, s')
    ensures Queued(s')
  {
    QueueStays(s, s');
    assert forall n :: 0 <= n < |s.sent| && Taken(s', n) ==> Taken(s, n);
    assert a.msg.kind != Retained ==> forall n :: 0 <= n < |s.sent| ==> !Taken(s, n);
  }

  lemma RunnerQueued(s: State, a: Action, s': State)
    requires Located(s) && Queued(s) && RunnerStep(s, a, s')
    ensures Queued(s')
  {
    if a.Send? {
      SendQueued(s, a, s');
    } else {
      assert s'.sent == s.sent;
      assert !s.sending.Idle? ==> Taken(s, s.sending.n);
      QueueStays(s, s');
    }
  }

  lemma SendCompletedFirst(s: State, a: Action, s': State)
    requires CompletedFirst(s) && Queued(s) && Located(s) && a.Send? && RunnerStep(s, a, s')
    ensures CompletedFirst(s')
  {
    QueueStays(s, s');
    assert a.msg.kind != Retained ==> forall n :: 0 <= n < |s.sent| ==> !Taken(s, n);
  }

  /** A task whose write failed is after everything that was sent before it. */
  lemma ResendCompletedFirst(s: State, a: Action, s': State)
    requires CompletedFirst(s) && Queued(s) && Located(s) && a.Resend? && RunnerStep(s, a, s')
    ensures CompletedFirst(s')
  {
    assert Taken(s, s.sending.n);
    forall n | 0 <= n < |s.sent| && n != s.sending.n && Queue(s, n)
      ensures Before(s.sent[n].at, s.sent[s.sending.n].at)
    {
      assert !Taken(s, n);
    }
  }

  lemma RunnerCompletedFirst(s: State, a: Action, s': State)
    requires CompletedFirst(s) && Queued(s) && Located(s) && RunnerStep(s, a, s')
    ensures CompletedFirst(s')
  {
    if a.Send? {
      SendCompletedFirst(s, a, s');
    } else if a.Resend? {
      ResendCompletedFirst(s, a, s');
    } else {
      RunnerFrame(s, a, s');
      assert s'.sent == s.sent && s'.store.Keys <= s.store.Keys;
    }
  }

  lemma PopCompletedFirst(s: State, a: Action, s': State)
    requires CompletedFirst(s) && Queued(s) && Located(s) && a.Pop? && HandlerStep(s, a, s')
    ensures CompletedFirst(s')
  {
    forall n, k | n in a.batch && Queue(s, n) && k in s'.store && Queue(s, k)
      ensures Before(s.sent[n].at, s.sent[k].at)
    {
      assert n in s.store && k in s.store && k !in a.batch;
      assert n != k;
    }
  }

  lemma HandlerCompletedFirst(s: State, a: Action, s': State)
    requires CompletedFirst(s) && Queued(s) && Located(s) && HandlerStep(s, a, s')
    ensures CompletedFirst(s')
  {
    if a.Pop? {
      PopCompletedFirst(s, a, s');
    } else {
      HandlerFrame(s, a, s');
    }
  }

  /** The persisted cursor only moves forward, so what it covers stays covered. */
  lemma CoveredStays(s: State, a: Action, s': State, n: nat)
    requires DeliveryStep(s, a, s') && Covered(s, n) && n < |s.sent|
    ensures Covered(s', n)
  {
    DeliveryFrame(s, a, s');
    QueueStays(s, s');
  }

  lemma AdvanceCovers(s: State, a: Action, s': State)
    requires a.Advance? && HandlerStep(s, a, s')
    ensures Covered(s', s.popped.value[s.advanced])
  {
  }

  /** How the progress of the handler changes. */
  lemma HandlerMoves(s: State, a: Action, s': State)
    requires HandlerStep(s, a, s')
    ensures s'.counted == s.counted || (a.Count? && s'.counted == s.counted + s.popped.value)
    ensures a.Pop? ==> s'.advanced == 0
    ensures a.Advance? ==> s'.popped == s.popped && s'.advanced == s.advanced + 1
    ensures !a.Pop? && !a.Advance? && s'.popped.Some? ==> s'.popped == s.popped && s'.advanced == s.advanced
    ensures a.Count? ==> s.popped.Some? && s.advanced == |s.popped.value| && s'.popped.None?
  {
  }

  lemma StillCovers(s: State, a: Action, s': State)
    requires CursorCovers(s) && Located(s) && DeliveryStep(s, a, s')
    ensures forall k :: 0 <= k < |s.counted| ==> Covered(s', s.counted[k])
    ensures s.popped.Some? ==> forall k :: 0 <= k < s.advanced ==> Covered(s', s.popped.value[k])
  {
    forall k | 0 <= k < |s.counted| ensures Covered(s', s.counted[k]) {
      assert s.counted[k] in s.counted;
      CoveredStays(s, a, s', s.counted[k]);
    }
    if s.popped.Some? {
      forall k | 0 <= k < s.advanced ensures Covered(s', s.popped.value[k]) {
        assert s.popped.value[k] in s.popped.value;
        CoveredStays(s, a, s', s.popped.value[k]);
      }
    }
  }

  lemma RunnerCovers(s: State, a: Action, s': State)
    requires CursorCovers(s) && Located(s) && RunnerStep(s, a, s')
    ensures CursorCovers(s')
  {
    RunnerFrame(s, a, s');
    StillCovers(s, a, s');
  }

  lemma HandlerCovers(s: State, a: Action, s': State)
    requires CursorCovers(s) && Located(s) && HandlerStep(s, a, s')
    ensures CursorCovers(s')
  {
    HandlerFrame(s, a, s');
    HandlerMoves(s, a, s');
    StillCovers(s, a, s');
    if a.Advance? {
      AdvanceCovers(s, a, s');
    }
  }

  // ---- what the copies have passed ----

  lemma SaneStays(s: State, s': State, snap: Snapshot)
    requires Sane(s, snap) && s.sent <= s'.sent
    ensures Sane(s', snap)
  {
  }

  lemma PassedStays(s: State, s': State, snap: Snapshot, n: nat)
    requires Passed(s, snap, n) && Sane(s, snap) && n < |s.sent| && s.sent <= s'.sent
    ensures Passed(s', snap, n)
  {
  }

  /** What is copied now has passed everything counted. */
  lemma UnfinishedPasses(s: State, n: nat)
    requires CompletedFirst(s) && n in s.counted
    ensures Passed(s, Snapshot(Unfinished(s), None, |s.sent|), n)
  {
  }

  lemma ReplayPasses(s: State, r: Option<nat>, first: Snapshot, n: nat)
    requires CompletedFirst(s) && EarliestReplayed(s, r) && n in s.counted && Passed(s, first, n)
    ensures Passed(s, first.(replay := r), n)
  {
  }

  lemma CopyIsSane(s: State, g: nat, c: Commit)
    requires Located(s) && CopiesPass(s) && CopyFrom(s, g, c) && HasCopy(c)
    ensures Sane(s, CopyOf(c))
  {
    if HasCopy(s.commits[g]) {
      assert Sane(s, CopyOf(s.commits[g]));
    }
  }

  lemma CopyPasses(s: State, g: nat, c: Commit, k: nat)
    requires Accounted(s) && CompletedFirst(s) && CopiesPass(s) && CopyFrom(s, g, c) && HasCopy(c) && 0 <= k < c.upTo
    ensures k < |s.counted| && Passed(s, CopyOf(c), s.counted[k])
  {
    assert s.counted[k] in s.counted;
    UnfinishedPasses(s, s.counted[k]);
    if HasCopy(s.commits[g]) {
      assert Passed(s, CopyOf(s.commits[g]), s.counted[k]);
      if EarliestReplayed(s, CopyOf(c).replay) {
        ReplayPasses(s, CopyOf(c).replay, CopyOf(s.commits[g]), s.counted[k]);
      }
    }
  }

  lemma SamePassed(s: State, s': State, snap: Snapshot, n: nat)
    requires s'.sent == s.sent && Passed(s, snap, n)
    ensures Passed(s', snap, n)
  {
  }

  lemma CommitCopiesPass(s: State, a: Action, s': State)
    requires Accounted(s) && Located(s) && CompletedFirst(s) && CopiesPass(s) && CommitStep(s, a, s')
    ensures CopiesPass(s')
  {
    CommitFrame(s, a, s');
    forall g | g in s'.commits && HasCopy(s'.commits[g]) ensures Sane(s', CopyOf(s'.commits[g])) {
      CommitCopyFrom(s, a, s', g);
      CopyIsSane(s, g, s'.commits[g]);
      SaneStays(s, s', CopyOf(s'.commits[g]));
    }
    forall g, k | g in s'.commits && HasCopy(s'.commits[g]) && 0 <= k < s'.commits[g].upTo <= |s'.counted|
      ensures Passed(s', CopyOf(s'.commits[g]), s'.counted[k])
    {
      CommitCopyFrom(s, a, s', g);
      CopyPasses(s, g, s'.commits[g], k);
      SamePassed(s, s', CopyOf(s'.commits[g]), s.counted[k]);
    }
  }

  lemma DeliveryCopiesPass(s: State, a: Action, s': State)
    requires Accounted(s) && Located(s) && CopiesPass(s) && DeliveryStep(s, a, s')
    ensures CopiesPass(s')
  {
    DeliveryFrame(s, a, s');
    forall g | g in s.commits && HasCopy(s.commits[g]) ensures Sane(s', CopyOf(s.commits[g])) {
      SaneStays(s, s', CopyOf(s.commits[g]));
    }
    forall g, k | g in s.commits && HasCopy(s.commits[g]) && 0 <= k < s.commits[g].upTo
      ensures Passed(s', CopyOf(s.commits[g]), s'.counted[k])
    {
      assert s'.counted[k] == s.counted[k] && s.counted[k] in s.counted;
      PassedStays(s, s', CopyOf(s.commits[g]), s.counted[k]);
    }
  }

  /** Forgetting a listed message keeps what was passed. */
  lemma ShrunkPasses(s: State, now: Snapshot, was: Snapshot, n: nat)
    requires Passed(s, was, n) && Shrunk(now, was)
    ensures Passed(s, now, n)
  {
  }

  lemma DeliveryDurablePasses(s: State, a: Action, s': State)
    requires Accounted(s) && Located(s) && DurablePasses(s) && DeliveryStep(s, a, s')
    ensures DurablePasses(s')
  {
    DeliveryFrame(s, a, s');
    SaneStays(s, s', s.durable);
    forall k | 0 <= k < s.subtracted ensures Passed(s', s'.durable, s'.counted[k]) {
      assert s'.counted[k] == s.counted[k] && s.counted[k] in s.counted;
      PassedStays(s, s', s.durable, s.counted[k]);
      ShrunkPasses(s', s'.durable, s.durable, s.counted[k]);
    }
  }

  lemma CommitDurablePassesOne(s: State, a: Action, s': State, k: nat)
    requires SingleFlight(s) && Accounted(s) && WrittenIsDurable(s)
    requires CopiesPass(s) && DurablePasses(s) && CommitStep(s, a, s')
    requires 0 <= k < s'.subtracted <= |s'.counted|
    ensures Passed(s, s'.durable, s.counted[k])
  {
    if a.Write? && a.applied {
      assert Passed(s, CopyOf(s.commits[a.g]), s.counted[k]);
    } else if a.Subtract? {
      assert Passed(s, CopyOf(s.commits[a.g]), s.counted[k]);
      ShrunkPasses(s, s.durable, s.commits[a.g].snapshot, s.counted[k]);
    }
  }

  lemma CommitDurablePasses(s: State, a: Action, s': State)
    requires SingleFlight(s) && Accounted(s) && WrittenIsDurable(s)
    requires CopiesPass(s) && DurablePasses(s) && CommitStep(s, a, s')
    ensures DurablePasses(s')
  {
    CommitFrame(s, a, s');
    assert Sane(s', s'.durable) by {
      if a.Write? && a.applied {
        assert Sane(s, CopyOf(s.commits[a.g]));
      }
    }
    forall k | 0 <= k < s'.subtracted <= |s'.counted| ensures Passed(s', s'.durable, s'.counted[k]) {
      CommitDurablePassesOne(s, a, s', k);
      SamePassed(s, s', s'.durable, s.counted[k]);
    }
  }

  // ---- what the copies keep ----

  /** A task that is sent now is after everything the runner moved past. */
  lemma NewestIsAfter(s: State, a: Action, s': State, n: nat, e: nat)
    requires Located(s) && Queued(s) && RunnerStep(s, a, s') && n in s'.store && n !in s.store
    requires Queue(s', n) && Queue(s, e)
    ensures NotAfter(s.sent[e].at, s'.sent[n].at)
  {
    QueueStays(s, s');
    if a.Send? {
      assert !Taken(s, e);
    } else {
      assert Taken(s, n) && (e != n ==> !Taken(s, e));
    }
  }

  /** No queue task is sent behind one whose write failed. */
  lemma FailedIsLast(s: State, n: nat, k: nat)
    requires Queued(s) && Taken(s, n) && n < k < |s.sent|
    ensures !Queue(s, k)
  {
    assert !Taken(s, k);
  }

  lemma RunnerReaches(s: State, a: Action, s': State, snap: Snapshot, n: nat)
    requires Located(s) && Queued(s) && Sane(s, snap) && Keeps(s, snap) && RunnerStep(s, a, s')
    requires n in s'.store && !s'.store[n]
    ensures CursorReaches(s', snap, n)
  {
    QueueStays(s, s');
    if n in s.store {
      assert CursorReaches(s, snap, n);
    } else if snap.replay.Some? && IsQoS1(s', n) {
      NewestIsAfter(s, a, s', n, snap.replay.value);
    }
  }

  lemma RunnerLists(s: State, a: Action, s': State, snap: Snapshot, n: nat)
    requires Located(s) && Queued(s) && Sane(s, snap) && Keeps(s, snap) && RunnerStep(s, a, s')
    requires n in s'.store && n < snap.seen && !IsQoS1(s', n)
    ensures n in snap.unfinished || LastSeen(s', snap, n)
  {
    QueueStays(s, s');
    if n !in s.store {
      assert Taken(s, n);
      forall k | n < k < snap.seen ensures !Queue(s, k) {
        FailedIsLast(s, n, k);
      }
    }
  }

  lemma RunnerKeeps(s: State, a: Action, s': State, snap: Snapshot)
    requires Located(s) && Queued(s) && Sane(s, snap) && Keeps(s, snap) && RunnerStep(s, a, s')
    ensures Keeps(s', snap)
  {
    forall n | n in s'.store && !s'.store[n] ensures CursorReaches(s', snap, n) {
      RunnerReaches(s, a, s', snap, n);
    }
    forall n | n in s'.store && n < snap.seen && !IsQoS1(s', n) ensures n in snap.unfinished || LastSeen(s', snap, n) {
      RunnerLists(s, a, s', snap, n);
    }
  }

  /** The handler only removes and acknowledges. */
  lemma HandlerStore(s: State, a: Action, s': State)
    requires HandlerStep(s, a, s')
    ensures forall n :: n in s'.store ==> n in s.store && (s'.store[n] == s.store[n] || s'.store[n])
    ensures forall n :: n in s'.store && n in s.durable.unfinished ==> n in s'.durable.unfinished
  {
  }

  lemma ShrunkKeeps(s: State, s': State, was: Snapshot, now: Snapshot)
    requires Keeps(s, was) && s'.sent == s.sent && Shrunk(now, was)
    requires forall n :: n in s'.store ==> n in s.store && (s'.store[n] == s.store[n] || s'.store[n])
    requires forall n :: n in s'.store && n in was.unfinished ==> n in now.unfinished
    ensures Keeps(s', now)
  {
    forall n | n in s'.store && !s'.store[n] ensures CursorReaches(s', now, n) {
      assert CursorReaches(s, was, n);
    }
    forall n | n in s'.store && n < now.seen && !IsQoS1(s', n) ensures n in now.unfinished || LastSeen(s', now, n) {
      assert n in was.unfinished || LastSeen(s, was, n);
      assert forall k :: Queue(s', k) <==> Queue(s, k);
    }
  }

  lemma DeliverySnapshotsKeep(s: State, a: Action, s': State)
    requires Located(s) && Queued(s) && CopiesPass(s) && DurablePasses(s) && SnapshotsKeep(s) && DeliveryStep(s, a, s')
    ensures SnapshotsKeep(s')
  {
    DeliveryFrame(s, a, s');
    if RunnerStep(s, a, s') {
      RunnerFrame(s, a, s');
      RunnerKeeps(s, a, s', s.durable);
      forall g | g in s.commits && HasCopy(s.commits[g]) ensures Keeps(s', CopyOf(s.commits[g])) {
        RunnerKeeps(s, a, s', CopyOf(s.commits[g]));
      }
    } else {
      HandlerFrame(s, a, s');
      HandlerStore(s, a, s');
      ShrunkKeeps(s, s', s.durable, s'.durable);
      forall g | g in s.commits && HasCopy(s.commits[g]) ensures Keeps(s', CopyOf(s.commits[g])) {
        ShrunkKeeps(s, s', CopyOf(s.commits[g]), CopyOf(s.commits[g]));
      }
    }
  }

  lemma UnfinishedKeeps(s: State)
    ensures Keeps(s, Snapshot(Unfinished(s), None, |s.sent|))
  {
  }

  lemma ReplayKeeps(s: State, first: Snapshot, r: Option<nat>)
    requires Keeps(s, first) && EarliestReplayed(s, r)
    ensures Keeps(s, first.(replay := r))
  {
    forall n | n in s.store && n < first.seen && !IsQoS1(s, n)
      ensures n in first.unfinished || LastSeen(s, first.(replay := r), n)
    {
      assert n in first.unfinished || LastSeen(s, first, n);
    }
  }

  lemma SameKeeps(s: State, s': State, snap: Snapshot)
    requires s'.sent == s.sent && s'.store == s.store && Keeps(s, snap)
    ensures Keeps(s', snap)
  {
    ShrunkKeeps(s, s', snap, snap);
  }

  lemma CopyKeeps(s: State, g: nat, c: Commit)
    requires SnapshotsKeep(s) && CopyFrom(s, g, c) && HasCopy(c)
    ensures Keeps(s, CopyOf(c))
  {
    UnfinishedKeeps(s);
    if HasCopy(s.commits[g]) && EarliestReplayed(s, CopyOf(c).replay) {
      ReplayKeeps(s, CopyOf(s.commits[g]), CopyOf(c).replay);
    }
  }

  lemma CommitSnapshotsKeep(s: State, a: Action, s': State)
    requires SnapshotsKeep(s) && CommitStep(s, a, s')
    ensures SnapshotsKeep(s')
  {
    CommitFrame(s, a, s');
    assert Keeps(s, s'.durable) by {
      if a.Write? && a.applied {
        assert Keeps(s, CopyOf(s.commits[a.g]));
      }
    }
    SameKeeps(s, s', s'.durable);
    forall g | g in s'.commits && HasCopy(s'.commits[g]) ensures Keeps(s', CopyOf(s'.commits[g])) {
      CommitCopyFrom(s, a, s', g);
      CopyKeeps(s, g, s'.commits[g]);
      SameKeeps(s, s', CopyOf(s'.commits[g]));
    }
  }

  // ---- every step ----

  lemma SameCommits(s: State, s': State)
    requires SingleFlight(s) && Accounted(s) && CopiesAreFresh(s) && DurableIsFresh(s) && WrittenIsDurable(s)
    requires s'.flag == s.flag && s'.commits == s.commits && s'.spawned == s.spawned && s'.subtracted == s.subtracted
    requires s.counted <= s'.counted && s'.counter - s.counter == |s'.counted| - |s.counted|
    requires Shrunk(s'.durable, s.durable)
    ensures SingleFlight(s') && Accounted(s') && CopiesAreFresh(s') && DurableIsFresh(s') && WrittenIsDurable(s')
  {
  }

  lemma DeliveryKeepsCommits(s: State, a: Action, s': State)
    requires SingleFlight(s) && Accounted(s) && CopiesAreFresh(s) && DurableIsFresh(s) && WrittenIsDurable(s)
    requires DeliveryStep(s, a, s')
    ensures SingleFlight(s') && Accounted(s') && CopiesAreFresh(s') && DurableIsFresh(s') && WrittenIsDurable(s')
  {
    DeliveryFrame(s, a, s');
    SameCommits(s, s');
  }

  lemma DeliveryKeepsMessages(s: State, a: Action, s': State)
    requires Located(s) && Complete(s) && Queued(s) && CompletedFirst(s) && CursorCovers(s) && DeliveryStep(s, a, s')
    ensures Located(s') && Complete(s') && Queued(s') && CompletedFirst(s') && CursorCovers(s')
  {
    if RunnerStep(s, a, s') {
      RunnerLocated(s, a, s');
      RunnerComplete(s, a, s');
      RunnerQueued(s, a, s');
      RunnerCompletedFirst(s, a, s');
      RunnerCovers(s, a, s');
    } else {
      HandlerFrame(s, a, s');
      HandlerLocated(s, a, s');
      HandlerComplete(s, a, s');
      HandlerCompletedFirst(s, a, s');
      HandlerCovers(s, a, s');
    }
  }

  lemma DeliveryInv(s: State, a: Action, s': State)
    requires Inv(s) && DeliveryStep(s, a, s')
    ensures Inv(s')
  {
    DeliveryKeepsCommits(s, a, s');
    DeliveryKeepsMessages(s, a, s');
    DeliveryCopiesPass(s, a, s');
    DeliveryDurablePasses(s, a, s');
    DeliverySnapshotsKeep(s, a, s');
  }

  lemma CommitKeepsMessages(s: State, a: Action, s': State)
    requires Located(s) && Complete(s) && Queued(s) && CompletedFirst(s) && CursorCovers(s) && CommitStep(s, a, s')
    ensures Located(s') && Complete(s') && Queued(s') && CompletedFirst(s') && CursorCovers(s')
  {
    CommitFrame(s, a, s');
  }

  lemma CommitInv(s: State, a: Action, s': State)
    requires Inv(s) && CommitStep(s, a, s')
    ensures Inv(s')
  {
    CommitSingleFlight(s, a, s');
    CommitAccounted(s, a, s');
    CommitCopies(s, a, s');
    CommitDurable(s, a, s');
    CommitKeepsMessages(s, a, s');
    CommitCopiesPass(s, a, s');
    CommitDurablePasses(s, a, s');
    CommitSnapshotsKeep(s, a, s');
  }

  lemma StepInv(s: State, a: Action, s': State)
    requires Inv(s) && Step(s, a, s')
    ensures Inv(s')
  {
    if DeliveryStep(s, a, s') {
      DeliveryInv(s, a, s');
    } else {
      CommitInv(s, a, s');
    }
  }

  ghost predicate Run(run: seq<State>, acts: seq<Action>) {
    && |run| == |acts| + 1 && Init(run[0])
    && forall i {:trigger acts[i]} :: 0 <= i < |acts| ==> Step(run[i], acts[i], run[i + 1])
  }

  lemma {:induction false} RunInv(run: seq<State>, acts: seq<Action>, i: nat)
    requires Run(run, acts) && i < |run|
    ensures Inv(run[i])
    decreases i
  {
    if i > 0 {
      RunInv(run, acts, i - 1);
      assert Step(run[i - 1], acts[i - 1], run[i]);
      StepInv(run[i - 1], acts[i - 1], run[i]);
    }
  }

  lemma StepKeepsCounted(run: seq<State>, acts: seq<Action>, i: nat)
    requires Run(run, acts) && i < |acts|
    ensures run[i].counted <= run[i + 1].counted
  {
    assert Step(run[i], acts[i], run[i + 1]);
    if DeliveryStep(run[i], acts[i], run[i + 1]) {
      DeliveryFrame(run[i], acts[i], run[i + 1]);
    } else {
      CommitFrame(run[i], acts[i], run[i + 1]);
    }
  }

  lemma {:induction false} RunKeepsCounted(run: seq<State>, acts: seq<Action>, i: nat, j: nat)
    requires Run(run, acts) && i <= j < |run|
    ensures run[i].counted <= run[j].counted
    decreases j
  {
    if i < j {
      RunKeepsCounted(run, acts, i, j - 1);
      StepKeepsCounted(run, acts, j - 1);
    }
  }

  // ---- main results ----

  /** The task the persisted cursor is asked to move past: one that is skipped or dropped, or a
      completed queue task; never a retained message. */
  ghost function CursorAsked(s: State, a: Action): Option<Position> {
    match a
    case Skip(at, _) => Some(at)
    case Oversized(_) =>
      if s.sending.Writing? && s.sending.n < |s.sent| then Some(s.sent[s.sending.n].at) else None
    case Advance(_) =>
      if s.popped.Some? && s.advanced < |s.popped.value| && Queue(s, s.popped.value[s.advanced])
      then Some(s.sent[s.popped.value[s.advanced]].at) else None
    case _ => None
  }

  /** When the persisted cursor moves, and where to: exactly on such a request that takes effect
      and leads forward. */
  lemma CursorMovesExact(s: State, a: Action, s': State)
    requires Step(s, a, s')
    ensures var asked := CursorAsked(s, a);
            s'.stored == if && asked.Some? && (if a.Skip? || a.Oversized? || a.Advance? then a.applied else false)
                            && (s.stored.Cursor? ==> Before(s.stored.position, asked.value))
                         then Recovery.Cursor(asked.value, s.generation) else s.stored
  {
    if CommitStep(s, a, s') {
      CommitFrame(s, a, s');
    }
  }

  /** Whatever the interleaving: at most one commit runs, exactly while the flag is up; the
      counter is never negative and is the number of acknowledgements not yet subtracted. */
  lemma CommitAccounting(run: seq<State>, acts: seq<Action>, i: nat)
    requires Run(run, acts) && i < |run|
    ensures |run[i].commits| <= 1 && (run[i].flag <==> |run[i].commits| == 1)
    ensures 0 <= run[i].counter == |run[i].counted| - run[i].subtracted
  {
    RunInv(run, acts, i);
    var s := run[i];
    if s.commits.Keys != {} {
      var g :| g in s.commits.Keys;
      assert s.commits.Keys == {g};
      assert |s.commits| == |s.commits.Keys|;
    }
  }

  /** What goroutine `g` promised at its load: it never loads again. */
  ghost predicate Promised(s: State, g: nat, upTo: nat) {
    && g < s.spawned
    && (g in s.commits ==> !s.commits[g].Started? && (Holds(s.commits[g]) ==> s.commits[g].upTo == upTo))
  }

  lemma StepKeepsPromise(s: State, a: Action, s': State, g: nat, upTo: nat)
    requires SingleFlight(s) && Step(s, a, s')
    requires Promised(s, g, upTo) || (a == Load(g) && upTo == |s.counted|)
    ensures Promised(s', g, upTo)
  {
    if DeliveryStep(s, a, s') {
      DeliveryFrame(s, a, s');
    }
  }

  lemma RunStepKeepsPromise(run: seq<State>, acts: seq<Action>, i: nat, g: nat, upTo: nat)
    requires Run(run, acts) && i < |acts|
    requires Promised(run[i], g, upTo) || (acts[i] == Load(g) && upTo == |run[i].counted|)
    ensures Promised(run[i + 1], g, upTo)
  {
    RunInv(run, acts, i);
    assert Step(run[i], acts[i], run[i + 1]);
    StepKeepsPromise(run[i], acts[i], run[i + 1], g, upTo);
  }

  lemma {:induction false} RunKeepsPromise(run: seq<State>, acts: seq<Action>, i: nat, j: nat, g: nat)
    requires Run(run, acts) && i < j < |run| && acts[i] == Load(g)
    ensures Promised(run[j], g, |run[i].counted|)
    decreases j
  {
    if i < j - 1 {
      RunKeepsPromise(run, acts, i, j - 1, g);
    }
    RunStepKeepsPromise(run, acts, j - 1, g, |run[i].counted|);
  }

  /** A commit subtracts exactly the acknowledgements counted before its load: those counted
      while it copied and wrote stay pending, and every message whose acknowledgement it
      subtracts had left the store before the load, so it is absent from the copies. */
  lemma LateAcksStayPending(run: seq<State>, acts: seq<Action>, i: nat, j: nat, g: nat)
    requires Run(run, acts) && i < j < |acts| && acts[i] == Load(g) && acts[j] == Subtract(g)
    ensures run[i].counted <= run[j].counted
    ensures run[j + 1].counter == |run[j].counted| - |run[i].counted|
    ensures run[j + 1].subtracted == |run[i].counted|
    ensures forall n :: n in run[i].counted ==> n !in run[i].store && !Lists(run[j + 1].durable, n)
  {
    RunKeepsPromise(run, acts, i, j, g);
    RunKeepsCounted(run, acts, i, j);
    RunInv(run, acts, i);
    RunInv(run, acts, j);
    RunInv(run, acts, j + 1);
    assert Step(run[j], acts[j], run[j + 1]);
    forall n | n in run[i].counted ensures !Lists(run[j + 1].durable, n) {
      var k :| 0 <= k < |run[i].counted| && run[i].counted[k] == n;
      assert run[j + 1].counted[k] == n;
    }
  }
}
