/** pkg/eventbus/event.go: one listener's bounded queue. Producers and stop take the lock, the
    consumer does not; every channel operation is a step of its own. */
module ListenerQueue {

  // What became of a payload that left the queue.
  datatype Fate = Handled | Dropped

  // Who holds the lock, and how far it got.
  datatype Lock<T> =
    | Free
    | Locked(payload: T)       // enqueue, before the first look at `stopped`
    | Offering(payload: T)     // before the first send
    | Full(payload: T)         // the send found no room
    | Dropping(payload: T)     // after making room, before the second look at `stopped`
    | Retrying(payload: T)     // before the second send
    | Stopping
    | Draining

  datatype Consumer<T> = Checking | Selecting | Handling(payload: T) | Ended

  datatype State<T> = State(
    capacity: nat,
    queue: seq<T>,
    accepted: seq<T>,          // payloads in the order they entered the queue
    fates: seq<Fate>,          // of those that left it
    handled: seq<T>,           // payloads passed to the handler
    lock: Lock<T>,
    stopped: bool,
    drained: bool,             // stop has finished
    consumer: Consumer<T>,
    lostNewest: bool,          // queue_overflow_newest was reported
    lateStop: bool)            // the second look saw `stopped`

  datatype Action<T> =
    | Enqueue(payload: T) | LookFirst | Offer | MakeRoom | LookAgain | Retry
    | Stop | MarkStopped | Drain
    | Check | Take | SeeStop | Handle

  function Pushed<T>(s: State<T>, payload: T): State<T> {
    s.(queue := s.queue + [payload], accepted := s.accepted + [payload])
  }

  function Popped<T>(s: State<T>, fate: Fate): State<T>
    requires s.queue != []
  {
    s.(queue := s.queue[1..], fates := s.fates + [fate])
  }

  ghost predicate ProducerStep<T>(s: State<T>, a: Action<T>, s': State<T>) {
    match a
    case Enqueue(payload) => s.lock.Free? && s' == s.(lock := Locked(payload))
    case LookFirst => s.lock.Locked? && s' == s.(lock := if s.stopped then Free else Offering(s.lock.payload))
    case Offer =>
      && s.lock.Offering?
      && s' == if |s.queue| < s.capacity then Pushed(s, s.lock.payload).(lock := Free)
               else s.(lock := Full(s.lock.payload))
    case MakeRoom =>
      && s.lock.Full?
      && s' == (if s.queue != [] then Popped(s, Dropped) else s).(lock := Dropping(s.lock.payload))
    case LookAgain =>
      && s.lock.Dropping?
      && s' == if s.stopped then s.(lock := Free, lateStop := true) else s.(lock := Retrying(s.lock.payload))
    case Retry =>
      && s.lock.Retrying?
      && s' == if |s.queue| < s.capacity then Pushed(s, s.lock.payload).(lock := Free)
               else s.(lock := Free, lostNewest := true)
    case _ => false
  }

  ghost predicate StopStep<T>(s: State<T>, a: Action<T>, s': State<T>) {
    match a
    case Stop => s.lock.Free? && !s.stopped && s' == s.(lock := Stopping)
    case MarkStopped => s.lock.Stopping? && s' == s.(lock := Draining, stopped := true)
    case Drain =>
      && s.lock.Draining?
      && s' == if s.queue != [] then Popped(s, Dropped) else s.(lock := Free, drained := true)
    case _ => false
  }

  ghost predicate ConsumerStep<T>(s: State<T>, a: Action<T>, s': State<T>) {
    match a
    case Check => s.consumer.Checking? && s' == s.(consumer := if s.stopped then Ended else Selecting)
    case Take =>
      && s.consumer.Selecting? && s.queue != []
      && s' == Popped(s, Handled).(consumer := Handling(s.queue[0]))
    case SeeStop => s.consumer.Selecting? && s.stopped && s' == s.(consumer := Ended)
    case Handle =>
      && s.consumer.Handling?
      && s' == s.(handled := s.handled + [s.consumer.payload], consumer := Checking)
    case _ => false
  }

  ghost predicate Step<T>(s: State<T>, a: Action<T>, s': State<T>) {
    ProducerStep(s, a, s') || StopStep(s, a, s') || ConsumerStep(s, a, s')
  }

  ghost predicate Init<T>(s: State<T>) {
    s == State(s.capacity, [], [], [], [], Free, false, false, Checking, false, false) && s.capacity > 0
  }

  ghost predicate Run<T>(run: seq<State<T>>, acts: seq<Action<T>>) {
    && |run| == |acts| + 1 && Init(run[0])
    && forall i {:trigger acts[i]} :: 0 <= i < |acts| ==> Step(run[i], acts[i], run[i + 1])
  }

  // ---- invariants ----

  /** The payloads of a prefix of `accepted` that were handled, in order. */
  function Chosen<T>(accepted: seq<T>, fates: seq<Fate>): seq<T>
    requires |fates| <= |accepted|
  {
    if fates == [] then []
    else
      var n := |fates| - 1;
      Chosen(accepted, fates[..n]) + if fates[n].Handled? then [accepted[n]] else []
  }

  function Count(fates: seq<Fate>, fate: Fate): nat {
    if fates == [] then 0
    else Count(fates[..|fates| - 1], fate) + if fates[|fates| - 1] == fate then 1 else 0
  }

  ghost function Delivered<T>(s: State<T>): seq<T> {
    s.handled + if s.consumer.Handling? then [s.consumer.payload] else []
  }

  ghost predicate Fifo<T>(s: State<T>) {
    && |s.fates| <= |s.accepted|
    && s.queue == s.accepted[|s.fates|..]
    && Delivered(s) == Chosen(s.accepted, s.fates)
  }

  ghost predicate Bounded<T>(s: State<T>) {
    && 0 < s.capacity && |s.queue| <= s.capacity
    && (s.lock.Dropping? || s.lock.Retrying? ==> |s.queue| < s.capacity)
    && !s.lostNewest
  }

  ghost predicate StopsOnce<T>(s: State<T>) {
    && (s.stopped ==> s.lock.Free? || s.lock.Locked? || s.lock.Draining?)
    && (s.lock.Draining? ==> s.stopped)
    && (s.stopped && !s.lock.Draining? ==> s.drained)
    && (s.drained ==> s.stopped && s.queue == [] && !s.lock.Draining?)
    && !s.lateStop
  }

  ghost predicate Inv<T>(s: State<T>) {
    Fifo(s) && Bounded(s) && StopsOnce(s)
  }

  lemma {:induction false} ChosenExtends<T>(accepted: seq<T>, payload: T, fates: seq<Fate>)
    requires |fates| <= |accepted|
    ensures Chosen(accepted + [payload], fates) == Chosen(accepted, fates)
    decreases |fates|
  {
    if fates != [] {
      ChosenExtends(accepted, payload, fates[..|fates| - 1]);
    }
  }

  lemma PushKeepsFifo<T>(s: State<T>, payload: T)
    requires Fifo(s)
    ensures Fifo(Pushed(s, payload))
  {
    ChosenExtends(s.accepted, payload, s.fates);
  }

  lemma PopKeepsFifo<T>(s: State<T>, fate: Fate)
    requires |s.fates| <= |s.accepted| && s.queue == s.accepted[|s.fates|..] && s.queue != []
    ensures var s' := Popped(s, fate);
            && |s'.fates| <= |s'.accepted| && s'.queue == s'.accepted[|s'.fates|..]
            && Chosen(s'.accepted, s'.fates) ==
               Chosen(s.accepted, s.fates) + if fate.Handled? then [s.queue[0]] else []
  {
    var s' := Popped(s, fate);
    assert s'.fates[..|s'.fates| - 1] == s.fates;
  }

  lemma ProducerKeeps<T>(s: State<T>, a: Action<T>, s': State<T>)
    requires Inv(s) && ProducerStep(s, a, s')
    ensures Inv(s')
  {
    if s.lock.Full? && s.queue != [] {
      PopKeepsFifo(s, Dropped);
    } else if s.lock.Offering? || s.lock.Retrying? {
      PushKeepsFifo(s, s.lock.payload);
    }
  }

  lemma StopKeeps<T>(s: State<T>, a: Action<T>, s': State<T>)
    requires Inv(s) && StopStep(s, a, s')
    ensures Inv(s')
  {
    if s.queue != [] {
      PopKeepsFifo(s, Dropped);
    }
  }

  lemma ConsumerKeeps<T>(s: State<T>, a: Action<T>, s': State<T>)
    requires Inv(s) && ConsumerStep(s, a, s')
    ensures Inv(s')
  {
    if a.Take? {
      PopKeepsFifo(s, Handled);
    }
  }

  lemma StepKeeps<T>(s: State<T>, a: Action<T>, s': State<T>)
    requires Inv(s) && Step(s, a, s')
    ensures Inv(s')
  {
    if ProducerStep(s, a, s') {
      ProducerKeeps(s, a, s');
    } else if StopStep(s, a, s') {
      StopKeeps(s, a, s');
    } else {
      ConsumerKeeps(s, a, s');
    }
  }

  lemma {:induction false} RunKeeps<T>(run: seq<State<T>>, acts: seq<Action<T>>, i: nat)
    requires Run(run, acts) && i < |run|
    ensures Inv(run[i])
    decreases i
  {
    if i > 0 {
      RunKeeps(run, acts, i - 1);
      assert Step(run[i - 1], acts[i - 1], run[i]);
      StepKeeps(run[i - 1], acts[i - 1], run[i]);
    }
  }

  // ---- main results ----

  lemma {:induction false} ChosenCounts<T>(accepted: seq<T>, fates: seq<Fate>)
    requires |fates| <= |accepted|
    ensures |Chosen(accepted, fates)| == Count(fates, Handled)
    ensures |fates| == Count(fates, Handled) + Count(fates, Dropped)
    decreases |fates|
  {
    if fates != [] {
      ChosenCounts(accepted, fates[..|fates| - 1]);
    }
  }

  /** Positions in `accepted` of the handled payloads. */
  function Positions(fates: seq<Fate>): seq<nat> {
    if fates == [] then []
    else
      var n := |fates| - 1;
      Positions(fates[..n]) + if fates[n].Handled? then [n] else []
  }

  lemma {:induction false} PositionsAscend<T>(accepted: seq<T>, fates: seq<Fate>)
    requires |fates| <= |accepted|
    ensures |Positions(fates)| == |Chosen(accepted, fates)|
    ensures forall i :: 0 <= i < |Positions(fates)| ==>
              Positions(fates)[i] < |fates| && Chosen(accepted, fates)[i] == accepted[Positions(fates)[i]]
    ensures forall i, j :: 0 <= i < j < |Positions(fates)| ==> Positions(fates)[i] < Positions(fates)[j]
    decreases |fates|
  {
    if fates != [] {
      PositionsAscend(accepted, fates[..|fates| - 1]);
    }
  }

  /** The handler sees an in-order selection of the accepted payloads, each at most once. */
  lemma HandledInOrder<T>(run: seq<State<T>>, acts: seq<Action<T>>, i: nat) returns (at: seq<nat>)
    requires Run(run, acts) && i < |run|
    ensures |at| == |Delivered(run[i])|
    ensures forall j :: 0 <= j < |at| ==> at[j] < |run[i].accepted| && Delivered(run[i])[j] == run[i].accepted[at[j]]
    ensures forall j, k :: 0 <= j < k < |at| ==> at[j] < at[k]
  {
    RunKeeps(run, acts, i);
    at := Positions(run[i].fates);
    PositionsAscend(run[i].accepted, run[i].fates);
  }

  /** Accepted payloads are handled, dropped or queued; the queue holds the newest of them. */
  lemma NothingVanishes<T>(run: seq<State<T>>, acts: seq<Action<T>>, i: nat)
    requires Run(run, acts) && i < |run|
    ensures var s := run[i];
            && |s.accepted| == |Delivered(s)| + Count(s.fates, Dropped) + |s.queue|
            && |s.queue| <= s.capacity
            && s.queue == s.accepted[|s.accepted| - |s.queue|..]
  {
    RunKeeps(run, acts, i);
    ChosenCounts(run[i].accepted, run[i].fates);
  }

  /** The branches that would lose the newest payload are never taken. */
  lemma NewestIsKept<T>(run: seq<State<T>>, acts: seq<Action<T>>, i: nat)
    requires Run(run, acts) && i < |run|
    ensures !run[i].lostNewest && !run[i].lateStop
    ensures i < |acts| && acts[i].Retry? ==> run[i + 1].accepted == run[i].accepted + [run[i].lock.payload]
  {
    RunKeeps(run, acts, i);
    if i < |acts| {
      assert Step(run[i], acts[i], run[i + 1]);
    }
  }

  /** After stop has finished the queue stays empty and nothing more is accepted. */
  lemma {:induction false} StopIsFinal<T>(run: seq<State<T>>, acts: seq<Action<T>>, i: nat, j: nat)
    requires Run(run, acts) && i <= j < |run| && run[i].drained
    ensures run[j].drained && run[j].queue == [] && run[j].accepted == run[i].accepted
    decreases j
  {
    RunKeeps(run, acts, j);
    if i < j {
      StopIsFinal(run, acts, i, j - 1);
      RunKeeps(run, acts, j - 1);
      assert Step(run[j - 1], acts[j - 1], run[j]);
    }
  }

  // ---- what enqueue promises its caller ----

  /** A producer holds the lock for this payload; nothing was accepted since it took it. */
  ghost predicate Busy<T>(s: State<T>, payload: T, accepted: seq<T>) {
    && (s.lock.Locked? || s.lock.Offering? || s.lock.Full? || s.lock.Dropping? || s.lock.Retrying?)
    && s.lock.payload == payload && s.accepted == accepted
  }

  /** The producer is through: the payload is the newest in the queue, or the listener was
      stopped. */
  ghost predicate Through<T>(s: State<T>, payload: T, accepted: seq<T>) {
    s.accepted == accepted + [payload] || (s.stopped && s.accepted == accepted)
  }

  lemma BusyStep<T>(s: State<T>, a: Action<T>, s': State<T>, payload: T, accepted: seq<T>)
    requires Inv(s) && Step(s, a, s') && Busy(s, payload, accepted)
    ensures Busy(s', payload, accepted) || (s'.lock.Free? && Through(s', payload, accepted))
  {
  }

  lemma {:induction false} BusyRun<T>(run: seq<State<T>>, acts: seq<Action<T>>, i: nat, j: nat)
    requires Run(run, acts) && i < j < |run| && acts[i].Enqueue?
    requires forall k :: i < k < j ==> !run[k].lock.Free?
    ensures Busy(run[j], acts[i].payload, run[i].accepted) ||
            (run[j].lock.Free? && Through(run[j], acts[i].payload, run[i].accepted))
    decreases j
  {
    assert Step(run[i], acts[i], run[i + 1]);
    if i + 1 < j {
      BusyRun(run, acts, i, j - 1);
      RunKeeps(run, acts, j - 1);
      assert Step(run[j - 1], acts[j - 1], run[j]);
      BusyStep(run[j - 1], acts[j - 1], run[j], acts[i].payload, run[i].accepted);
    }
  }

  /** When enqueue gives the lock back, its payload has been accepted, however full the queue
      was, unless the listener was stopped. */
  lemma EnqueuedIsAccepted<T>(run: seq<State<T>>, acts: seq<Action<T>>, i: nat, j: nat)
    requires Run(run, acts) && i < j < |run| && acts[i].Enqueue? && run[j].lock.Free?
    requires forall k :: i < k < j ==> !run[k].lock.Free?
    ensures run[j].accepted == run[i].accepted + [acts[i].payload] ||
            (run[j].stopped && run[j].accepted == run[i].accepted)
  {
    BusyRun(run, acts, i, j);
  }

  /** Payloads are dropped one at a time, the oldest first, and only to make room in a queue
      that was found full or after stop. */
  lemma DroppedOnlyIfFull<T>(s: State<T>, a: Action<T>, s': State<T>)
    requires Inv(s) && Step(s, a, s')
    ensures s'.fates == s.fates || (s.queue != [] && |s'.fates| == |s.fates| + 1 && s'.queue == s.queue[1..])
    ensures |s.fates| < |s'.fates| && s'.fates[|s.fates|].Dropped? ==> a.MakeRoom? || s.stopped
    ensures s'.lock.Full? && !s.lock.Full? ==> |s.queue| == s.capacity
  {
  }
}
