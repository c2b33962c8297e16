/** internal/app/lifecycle/runner.go: Start, the goroutine of every component and concurrent
    calls of Close, interleaved between any two lock sections, channel operations and
    wait-group operations. */
module LifecycleRunner {

  // `blocking` components run until they are cancelled, the others return when started.
  datatype Component = Component(critical: bool, blocking: bool)

  // The values of runErrCh: nil, the channel Start made, the closed one Close may make.
  datatype ErrCh = Nil | Reports | Spare

  // Where a component's goroutine is.
  datatype Task =
    | Entered
    | Live                    // readiness reported or not required
    | Reporting               // decided that the exit was unexpected
    | Holding(ch: ErrCh)      // has read runErrCh
    | Leaving                 // only wg.Done is left
    | Done

  // Where the one Close that gets past the `closed` check is.
  datatype Closer = Open | Taken(ch: ErrCh) | Cancelled(ch: ErrCh) | Waited(ch: ErrCh) | Shut(ch: ErrCh) | Finished

  datatype State = State(
    components: seq<Component>,
    started: bool,
    closed: bool,
    cancelled: bool,           // the context, by Close or by its parent
    runErrCh: ErrCh,
    spawning: bool,            // Start is between its lock section and the end of its loop
    tasks: seq<Task>,          // one per wg.Add so far
    ready: set<nat>,           // components whose readiness result was sent
    received: nat,             // results Start took from readyCh
    reports: set<nat>,         // components whose error was put into the channel
    full: bool,                // a report found the channel full
    closer: Closer,
    closes: nat,               // how often the channel of Start was closed
    panicked: bool)            // a send on a closed channel

  datatype Action =
    | BeginStart
    | Spawn
    | Receive
    | Ready(g: nat, ok: bool, live: bool)
    | Skip(g: nat)
    | Decide(g: nat, unexpected: bool)
    | Lookup(g: nat)
    | Send(g: nat)
    | Exit(g: nat)
    | CancelParent
    | BeginClose
    | Cancel
    | Wait
    | Shutdown
    | Restore

  function Critical(s: State): set<nat> {
    set g | 0 <= g < |s.components| && s.components[g].critical
  }

  predicate ChannelClosed(s: State, ch: ErrCh) {
    ch.Spare? || (ch.Reports? && s.closes > 0)
  }

  predicate IsTask(a: Action) {
    a.Ready? || a.Skip? || a.Decide? || a.Lookup? || a.Exit?
  }

  ghost predicate AllDone(s: State) {
    forall g :: 0 <= g < |s.tasks| ==> s.tasks[g].Done?
  }

  /** Where a goroutine goes next, other than by sending a report. */
  ghost predicate Moves(s: State, a: Action, from: Task, to: Task) {
    match a
    case Ready(g, ok, live) =>
      && from.Entered? && g < |s.components| && s.components[g].critical
      && (live ==> ok && s.components[g].blocking) && to == if live then Live else Leaving
    case Skip(g) => from.Entered? && g < |s.components| && !s.components[g].critical && to.Live?
    case Decide(g, unexpected) =>
      // expectedShutdown asks the context before it looks at the error.
      from.Live? && to == if s.cancelled || !unexpected then Leaving else Reporting
    case Lookup(g) => from.Reporting? && to == Holding(s.runErrCh)
    case Exit(g) => from.Leaving? && to.Done?
    case _ => false
  }

  ghost predicate TaskStep(s: State, g: nat, to: Task, a: Action, s': State)
    requires g < |s.tasks|
  {
    && Moves(s, a, s.tasks[g], to)
    && s' == s.(tasks := s.tasks[g := to], ready := if a.Ready? then s.ready + {g} else s.ready)
  }

  ghost predicate SendStep(s: State, g: nat, s': State)
    requires g < |s.tasks|
  {
    && s.tasks[g].Holding?
    && var ch := s.tasks[g].ch;
       var t := s.(tasks := s.tasks[g := Leaving]);
       s' == if ch.Nil? then t
             else if ChannelClosed(s, ch) then t.(panicked := true)
             else if |s.reports| < |s.components| + 1 then t.(reports := s.reports + {g})
             else t.(full := true)
  }

  /** A step of Start or of the parent context. */
  ghost predicate StartStep(s: State, a: Action, s': State) {
    match a
    case BeginStart =>
      if s.closed || s.started then s' == s
      else s' == s.(started := true, runErrCh := Reports, spawning := true)
    case Spawn =>
      && s.spawning
      && s' == if |s.tasks| < |s.components| then s.(tasks := s.tasks + [Entered]) else s.(spawning := false)
    case Receive => s.received < |s.ready| && s' == s.(received := s.received + 1)
    case CancelParent => s' == s.(cancelled := true)
    case _ => false
  }

  /** A step of Close. */
  ghost predicate CloseStep(s: State, a: Action, s': State) {
    match a
    case BeginClose =>
      if s.closed then s' == s
      else s' == s.(closed := true, started := false, closer := Taken(s.runErrCh), runErrCh := Nil)
    case Cancel => s.closer.Taken? && s' == s.(cancelled := true, closer := Cancelled(s.closer.ch))
    case Wait => s.closer.Cancelled? && AllDone(s) && s' == s.(closer := Waited(s.closer.ch))
    case Shutdown =>
      && s.closer.Waited?
      && s' == s.(closer := Shut(if s.closer.ch.Nil? then Spare else s.closer.ch),
                  closes := if s.closer.ch.Reports? then s.closes + 1 else s.closes)
    case Restore =>
      && s.closer.Shut?
      && s' == s.(closer := Finished, runErrCh := if s.runErrCh.Nil? then s.closer.ch else s.runErrCh)
    case _ => false
  }

  ghost predicate Step(s: State, a: Action, s': State) {
    if a.Send? then a.g < |s.tasks| && SendStep(s, a.g, s')
    else if IsTask(a) then a.g < |s.tasks| && exists to :: TaskStep(s, a.g, to, a, s')
    else StartStep(s, a, s') || CloseStep(s, a, s')
  }

  ghost predicate Init(s: State) {
    s == State(s.components, false, false, false, Nil, false, [], {}, 0, {}, false, Open, 0, false)
  }

  ghost predicate Run(run: seq<State>, acts: seq<Action>) {
    |run| == |acts| + 1 && Init(run[0]) && forall i :: 0 <= i < |acts| ==> Step(run[i], acts[i], run[i + 1])
  }

  // ---- invariants ----

  /** Close holds the only reference it closes; afterwards the field is nil or that channel. */
  ghost predicate OneCloser(s: State) {
    && (s.closed <==> !s.closer.Open?) && (s.started ==> !s.closed)
    && (s.closer.Open? ==> (s.started <==> s.runErrCh.Reports?) && !s.runErrCh.Spare?)
    && (s.closer.Taken? || s.closer.Cancelled? || s.closer.Waited? ==> s.runErrCh.Nil? && !s.closer.ch.Spare?)
    && (s.closer.Shut? ==> s.runErrCh.Nil?)
    && s.closes <= 1
    && (s.closes == 1 ==> s.closer.Shut? || s.closer.Finished?)
  }

  ghost predicate PastWait(s: State) {
    s.closer.Waited? || s.closer.Shut? || s.closer.Finished?
  }

  /** After the wait nobody reports: those who decided to were waited for, and whoever is
      spawned later finds the context cancelled. */
  ghost predicate NoLateReports(s: State) {
    && (s.closer.Cancelled? || PastWait(s) ==> s.cancelled)
    && (PastWait(s) ==> forall g :: 0 <= g < |s.tasks| ==> !s.tasks[g].Reporting? && !s.tasks[g].Holding?)
    && (forall g :: 0 <= g < |s.tasks| && s.tasks[g].Holding? ==> !s.tasks[g].ch.Spare?)
    && !s.panicked
  }

  /** Exactly the critical components past readiness have sent their result. */
  ghost predicate ReadyOnce(s: State) {
    && |s.tasks| <= |s.components|
    && (forall g :: g in s.ready <==>
          0 <= g < |s.tasks| && s.components[g].critical && !s.tasks[g].Entered?)
    && s.received <= |s.ready|
  }

  ghost predicate ReportsFit(s: State) {
    && |s.tasks| <= |s.components|
    && (forall g :: g in s.reports ==> 0 <= g < |s.tasks| && (s.tasks[g].Leaving? || s.tasks[g].Done?))
    && !s.full
  }

  ghost predicate Inv(s: State) {
    OneCloser(s) && NoLateReports(s) && ReadyOnce(s) && ReportsFit(s)
  }

  lemma SpawnKeeps(s: State, a: Action, s': State)
    requires Inv(s) && a.Spawn? && StartStep(s, a, s')
    ensures Inv(s')
  {
    if |s.tasks| < |s.components| {
      SpawnOneKeeps(s, s');
    }
  }

  lemma SpawnOneKeeps(s: State, s': State)
    requires Inv(s) && |s.tasks| < |s.components| && s' == s.(tasks := s.tasks + [Entered])
    ensures Inv(s')
  {
    forall g | g in s.ready || g in s.reports ensures 0 <= g < |s.tasks| && s'.tasks[g] == s.tasks[g] {
    }
    assert ReadyOnce(s') by {
      forall g ensures g in s'.ready <==>
          0 <= g < |s'.tasks| && s'.components[g].critical && !s'.tasks[g].Entered? {
        if 0 <= g < |s.tasks| {
          assert s'.tasks[g] == s.tasks[g];
        }
      }
    }
  }

  lemma StartKeeps(s: State, a: Action, s': State)
    requires Inv(s) && StartStep(s, a, s')
    ensures Inv(s')
  {
    if a.Spawn? {
      SpawnKeeps(s, a, s');
    }
  }

  lemma CloseKeeps(s: State, a: Action, s': State)
    requires Inv(s) && CloseStep(s, a, s')
    ensures Inv(s')
  {
  }

  lemma TaskKeeps(s: State, to: Task, a: Action, s': State)
    requires Inv(s) && IsTask(a) && a.g < |s.tasks| && TaskStep(s, a.g, to, a, s')
    ensures Inv(s')
  {
    if a.Ready? {
      assert a.g !in s.ready;
    }
  }

  /** A report goes to nobody or into the open, never full channel. */
  lemma SendCases(s: State, g: nat, s': State)
    requires OneCloser(s) && NoLateReports(s) && ReportsFit(s) && g < |s.tasks| && SendStep(s, g, s')
    ensures var t := s.(tasks := s.tasks[g := Leaving]); s' == t || s' == t.(reports := s.reports + {g})
  {
    BelowCount(s.reports, |s.components|);
  }

  lemma SendKeeps(s: State, g: nat, s': State)
    requires Inv(s) && g < |s.tasks| && SendStep(s, g, s')
    ensures Inv(s')
  {
    SendCases(s, g, s');
    var t := s.(tasks := s.tasks[g := Leaving]);
    LeaveKeeps(s, g, t);
    if s' != t {
      assert ReportsFit(s');
    }
  }

  lemma LeaveKeeps(s: State, g: nat, t: State)
    requires Inv(s) && g < |s.tasks| && s.tasks[g].Holding? && t == s.(tasks := s.tasks[g := Leaving])
    ensures Inv(t)
  {
  }

  lemma {:induction false} BelowCount(t: set<nat>, n: nat)
    requires forall g :: g in t ==> g < n
    ensures |t| <= n
    decreases n
  {
    if n == 0 {
      assert t == {};
    } else {
      BelowCount(t - {n - 1}, n - 1);
      assert t <= (t - {n - 1}) + {n - 1};
    }
  }

  lemma StepKeeps(s: State, a: Action, s': State)
    requires Inv(s) && Step(s, a, s')
    ensures Inv(s')
  {
    if a.Send? {
      SendKeeps(s, a.g, s');
    } else if IsTask(a) {
      var to :| TaskStep(s, a.g, to, a, s');
      TaskKeeps(s, to, a, s');
    } else {
      if StartStep(s, a, s') {
        StartKeeps(s, a, s');
      } else {
        CloseKeeps(s, a, s');
      }
    }
  }

  lemma {:induction false} RunKeeps(run: seq<State>, acts: seq<Action>, i: nat)
    requires Run(run, acts) && i < |run|
    ensures Inv(run[i])
    decreases i
  {
    if i > 0 {
      RunKeeps(run, acts, i - 1);
      assert Step(run[i - 1], acts[i - 1], run[i]);
      StepKeeps(run[i - 1], acts[i - 1], run[i]);
    }
  }

  // ---- main results ----

  /** Whatever the interleaving: no send on a closed channel, the error channel is closed at
      most once and never full. */
  lemma ChannelsAreSafe(run: seq<State>, acts: seq<Action>, i: nat)
    requires Run(run, acts) && i < |run|
    ensures !run[i].panicked && run[i].closes <= 1 && !run[i].full
  {
    RunKeeps(run, acts, i);
  }

  /** A critical component sends its result exactly once, and finds room in the channel,
      whose capacity is the number of critical components. */
  lemma ReadyNeverBlocks(run: seq<State>, acts: seq<Action>, i: nat)
    requires Run(run, acts) && i < |acts| && acts[i].Ready?
    ensures acts[i].g !in run[i].ready
    ensures |run[i].ready| - run[i].received < |Critical(run[i])|
  {
    RunKeeps(run, acts, i);
    assert Step(run[i], acts[i], run[i + 1]);
    assert run[i].ready < Critical(run[i]) by {
      assert run[i].ready <= Critical(run[i]);
      assert acts[i].g in Critical(run[i]);
    }
    SubsetSmaller(run[i].ready, Critical(run[i]));
  }

  lemma {:induction false} SubsetSmaller(a: set<nat>, b: set<nat>)
    requires a < b
    ensures |a| < |b|
    decreases |a|
  {
    if a != {} {
      var x :| x in a;
      var y :| y in b && y !in a;
      assert y in b - {x} && y !in a - {x};
      SubsetSmaller(a - {x}, b - {x});
    } else {
      assert b != {};
    }
  }

  /** When every component's goroutine is gone Start is owed nothing: each critical component
      has reported. */
  lemma EveryoneReports(run: seq<State>, acts: seq<Action>, i: nat)
    requires Run(run, acts) && i < |run| && |run[i].tasks| == |run[i].components| && AllDone(run[i])
    ensures run[i].ready == Critical(run[i])
  {
    RunKeeps(run, acts, i);
  }

  /** Once Close is past its wait, goroutines that Start still spawns never report an error. */
  lemma LateSpawnsStayQuiet(run: seq<State>, acts: seq<Action>, i: nat, g: nat)
    requires Run(run, acts) && i < |run| && PastWait(run[i]) && g < |run[i].tasks|
    ensures run[i].cancelled && !run[i].tasks[g].Reporting? && !run[i].tasks[g].Holding?
  {
    RunKeeps(run, acts, i);
  }

  /** An unexpected exit is reported: while the context lives the goroutine decides to report,
      while the runner is started it finds the channel of Start, and its report gets in. */
  lemma UnexpectedExitIsReported(run: seq<State>, acts: seq<Action>, i: nat)
    requires Run(run, acts) && i < |acts|
    ensures acts[i].Decide? && acts[i].unexpected && !run[i].cancelled ==> run[i + 1].tasks[acts[i].g].Reporting?
    ensures acts[i].Lookup? && run[i].started ==> run[i + 1].tasks[acts[i].g] == Holding(Reports)
    ensures acts[i].Send? && run[i].tasks[acts[i].g] == Holding(Reports) ==>
              run[i + 1].reports == run[i].reports + {acts[i].g}
    ensures !acts[i].Send? ==> run[i + 1].reports == run[i].reports
  {
    RunKeeps(run, acts, i);
    assert Step(run[i], acts[i], run[i + 1]);
    if acts[i].Send? {
      BelowCount(run[i].reports, |run[i].components|);
    }
  }
}
