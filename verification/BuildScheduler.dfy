/**
  * The background build scheduler: schedules coalesce into one pending run, which starts once a fixed
  * debounce window is over, compiles the collected targets and reingests.
  *
  * The message loop and the worker share their state under one mutex, so a run of the system is a
  * sequence of the critical sections. Clock readings and compile outcomes come with the steps.
  */
module BuildSchedulers {
  import opened Options

  /** What one run was started with. */
  datatype Job = Job(targets: set<string>, compile: bool, reindex: bool)

  datatype Shared = Shared(
    scheduled: bool,
    dueAt: Option<nat>,
    shuttingDown: bool,
    pendingTargets: set<string>,
    pendingCompile: bool,
    pendingReindex: bool,
    runsCompleted: nat,
    reingestsAttempted: nat,
    worker: Option<Job>) // the job the worker is at, if any

  const INITIAL := Shared(false, None, false, {}, false, false, 0, 0, None)

  datatype Step =
    | Schedule(targets: seq<string>, compileFirst: bool, now: nat)
    | Begin(now: nat)
    | Finish(compiled: bool) // the answer of the compiler, if it is asked
    | Shutdown

  function Elements(s: seq<string>): set<string> {
    set x | x in s
  }

  predicate Enabled(s: Shared, step: Step) {
    match step
    case Begin(now) => s.worker.None? && !s.shuttingDown && s.scheduled && s.dueAt.Some? && s.dueAt.value < now
    case Finish(_) => s.worker.Some?
    case _ => true
  }

  /** The compiler is asked only if there is something to compile. */
  predicate CompileOk(job: Job, compiled: bool) {
    job.compile && job.targets != {} ==> compiled
  }

  predicate Reingests(job: Job, compiled: bool) {
    CompileOk(job, compiled) || job.reindex
  }

  function JobOf(s: Shared): Job {
    Job(s.pendingTargets, s.pendingCompile, s.pendingReindex)
  }

  function Apply(debounce: nat, s: Shared, step: Step): Shared
    requires Enabled(s, step)
  {
    match step
    case Schedule(targets, compileFirst, now) =>
      if s.shuttingDown then s
      else
        s.(pendingTargets := if compileFirst then s.pendingTargets + Elements(targets) else s.pendingTargets,
           pendingCompile := s.pendingCompile || compileFirst,
           pendingReindex := s.pendingReindex || !compileFirst,
           scheduled := true,
           dueAt := if s.scheduled then s.dueAt else Some(now + debounce))
    case Begin(_) =>
      s.(worker := Some(JobOf(s)), pendingTargets := {}, pendingCompile := false, pendingReindex := false,
         scheduled := false, dueAt := None)
    case Finish(compiled) =>
      s.(worker := None,
         runsCompleted := s.runsCompleted + 1,
         reingestsAttempted := s.reingestsAttempted + if Reingests(s.worker.value, compiled) then 1 else 0)
    case Shutdown => s.(shuttingDown := true)
  }

  /** The state after a sequence of steps; `None` if one of them was not possible. */
  function Run(debounce: nat, steps: seq<Step>): Option<Shared>
    decreases |steps|
  {
    if steps == [] then Some(INITIAL)
    else
      match Run(debounce, steps[..|steps| - 1])
      case None => None
      case Some(s) =>
        var step := steps[|steps| - 1];
        if Enabled(s, step) then Some(Apply(debounce, s, step)) else None
  }

  // ---------------------------------------------------------------------------
  // What is pending, told from the steps alone
  // ---------------------------------------------------------------------------

  ghost predicate NoShutdownBefore(steps: seq<Step>, i: nat) {
    forall j | 0 <= j < i && j < |steps| :: !steps[j].Shutdown?
  }

  ghost predicate NoBeginAfter(steps: seq<Step>, i: int) {
    forall j | i < j < |steps| && 0 <= j :: !steps[j].Begin?
  }

  ghost predicate Accepted(steps: seq<Step>, i: nat) {
    i < |steps| && steps[i].Schedule? && NoShutdownBefore(steps, i)
  }

  /** Schedule `i` was accepted and no run has started since. */
  ghost predicate InWindow(steps: seq<Step>, i: nat) {
    Accepted(steps, i) && NoBeginAfter(steps, i)
  }

  ghost predicate Asks(steps: seq<Step>, i: nat, compileFirst: bool) {
    InWindow(steps, i) && steps[i].compileFirst == compileFirst
  }

  ghost predicate AsksFor(steps: seq<Step>, i: nat, t: string) {
    Asks(steps, i, true) && t in steps[i].targets
  }

  /** Schedule `i` is the one that armed the pending run. */
  ghost predicate Arms(steps: seq<Step>, i: nat) {
    InWindow(steps, i) && forall j: nat | j < i :: !InWindow(steps, j)
  }

  ghost predicate TargetsAre(steps: seq<Step>, targets: set<string>) {
    forall t :: t in targets <==> exists i: nat :: AsksFor(steps, i, t)
  }

  ghost predicate IntentIs(steps: seq<Step>, compileFirst: bool, intent: bool) {
    intent <==> exists i: nat :: Asks(steps, i, compileFirst)
  }

  ghost predicate DueIs(debounce: nat, steps: seq<Step>, scheduled: bool, dueAt: Option<nat>) {
    && (scheduled <==> exists i: nat :: InWindow(steps, i))
    && (dueAt.Some? <==> scheduled)
    && (scheduled ==> exists i: nat :: Arms(steps, i) && dueAt == Some(steps[i].now + debounce))
  }

  ghost predicate PendingIs(debounce: nat, steps: seq<Step>, s: Shared) {
    && TargetsAre(steps, s.pendingTargets)
    && IntentIs(steps, true, s.pendingCompile)
    && IntentIs(steps, false, s.pendingReindex)
    && DueIs(debounce, steps, s.scheduled, s.dueAt)
    && (s.shuttingDown <==> !NoShutdownBefore(steps, |steps|))
  }

  /** What one more step does to the window. */
  lemma WindowNext(steps: seq<Step>, step: Step, i: nat)
    ensures InWindow(steps + [step], i) <==>
            if i < |steps| then InWindow(steps, i) && !step.Begin?
            else i == |steps| && step.Schedule? && NoShutdownBefore(steps, |steps|)
  {
    var next := steps + [step];
    assert next[|steps|] == step;
    assert forall j | 0 <= j < |steps| :: next[j] == steps[j];
    if i < |steps| && InWindow(next, i) {
      assert forall j | 0 <= j < i :: !next[j].Shutdown?;
      assert forall j | i < j < |steps| :: !next[j].Begin?;
    }
  }

  lemma ShutdownNext(steps: seq<Step>, step: Step)
    ensures NoShutdownBefore(steps + [step], |steps| + 1) <==> NoShutdownBefore(steps, |steps|) && !step.Shutdown?
  {
    var next := steps + [step];
    assert next[|steps|] == step;
    assert forall j | 0 <= j < |steps| :: next[j] == steps[j];
  }

  lemma BeginClears(debounce: nat, steps: seq<Step>, s: Shared, step: Step)
    requires PendingIs(debounce, steps, s) && step.Begin? && Enabled(s, step)
    ensures PendingIs(debounce, steps + [step], Apply(debounce, s, step))
  {
    ShutdownNext(steps, step);
    forall i: nat ensures !InWindow(steps + [step], i) {
      WindowNext(steps, step, i);
    }
  }

  /** The window of `steps` is also that of a longer run. */
  ghost predicate Stays(steps: seq<Step>, next: seq<Step>) {
    steps <= next && forall i: nat :: InWindow(next, i) <==> InWindow(steps, i)
  }

  /** One more schedule has joined the window of `steps`. */
  ghost predicate Joins(steps: seq<Step>, step: Step, next: seq<Step>) {
    && step.Schedule? && next == steps + [step]
    && (forall i: nat :: InWindow(next, i) <==> InWindow(steps, i) || i == |steps|)
  }

  lemma TargetsStay(steps: seq<Step>, next: seq<Step>, targets: set<string>)
    requires Stays(steps, next) && TargetsAre(steps, targets)
    ensures TargetsAre(next, targets)
  {
    assert forall i: nat, t :: AsksFor(next, i, t) <==> AsksFor(steps, i, t);
  }

  lemma IntentStays(steps: seq<Step>, next: seq<Step>, compileFirst: bool, intent: bool)
    requires Stays(steps, next) && IntentIs(steps, compileFirst, intent)
    ensures IntentIs(next, compileFirst, intent)
  {
    assert forall i: nat :: Asks(next, i, compileFirst) <==> Asks(steps, i, compileFirst);
  }

  lemma DueStays(debounce: nat, steps: seq<Step>, next: seq<Step>, scheduled: bool, dueAt: Option<nat>)
    requires Stays(steps, next) && DueIs(debounce, steps, scheduled, dueAt)
    ensures DueIs(debounce, next, scheduled, dueAt)
  {
    if scheduled {
      var i: nat :| Arms(steps, i) && dueAt == Some(steps[i].now + debounce);
      assert Arms(next, i) && dueAt == Some(next[i].now + debounce);
    }
  }

  lemma OtherKeeps(debounce: nat, steps: seq<Step>, s: Shared, step: Step)
    requires PendingIs(debounce, steps, s) && Enabled(s, step)
    requires step.Finish? || step.Shutdown? || (step.Schedule? && s.shuttingDown)
    ensures PendingIs(debounce, steps + [step], Apply(debounce, s, step))
  {
    var next := steps + [step];
    ShutdownNext(steps, step);
    forall i: nat ensures InWindow(next, i) <==> InWindow(steps, i) {
      WindowNext(steps, step, i);
    }
    TargetsStay(steps, next, s.pendingTargets);
    IntentStays(steps, next, true, s.pendingCompile);
    IntentStays(steps, next, false, s.pendingReindex);
    DueStays(debounce, steps, next, s.scheduled, s.dueAt);
  }

  lemma TargetsJoin(steps: seq<Step>, step: Step, next: seq<Step>, targets: set<string>)
    requires Joins(steps, step, next) && TargetsAre(steps, targets)
    ensures TargetsAre(next, if step.compileFirst then targets + Elements(step.targets) else targets)
  {
    var n := |steps|;
    forall i: nat, t ensures AsksFor(next, i, t) <==> AsksFor(steps, i, t) || (i == n && step.compileFirst && t in step.targets) {
    }
    forall t | t in targets || (step.compileFirst && t in step.targets) ensures exists i: nat :: AsksFor(next, i, t) {
      if t in targets {
        var i: nat :| AsksFor(steps, i, t);
        assert AsksFor(next, i, t);
      } else {
        assert AsksFor(next, n, t);
      }
    }
  }

  lemma IntentJoins(steps: seq<Step>, step: Step, next: seq<Step>, compileFirst: bool, intent: bool)
    requires Joins(steps, step, next) && IntentIs(steps, compileFirst, intent)
    ensures IntentIs(next, compileFirst, intent || step.compileFirst == compileFirst)
  {
    forall i: nat ensures Asks(next, i, compileFirst) <==>
                          Asks(steps, i, compileFirst) || (i == |steps| && step.compileFirst == compileFirst) {
    }
    if intent {
      var i: nat :| Asks(steps, i, compileFirst);
      assert Asks(next, i, compileFirst);
    } else if step.compileFirst == compileFirst {
      assert Asks(next, |steps|, compileFirst);
    }
  }

  lemma DueJoins(debounce: nat, steps: seq<Step>, step: Step, next: seq<Step>, scheduled: bool, dueAt: Option<nat>)
    requires Joins(steps, step, next) && DueIs(debounce, steps, scheduled, dueAt)
    ensures DueIs(debounce, next, true, if scheduled then dueAt else Some(step.now + debounce))
  {
    assert InWindow(next, |steps|);
    if scheduled {
      var i: nat :| Arms(steps, i) && dueAt == Some(steps[i].now + debounce);
      assert Arms(next, i) && dueAt == Some(next[i].now + debounce);
    } else {
      assert Arms(next, |steps|);
    }
  }

  lemma ScheduleJoins(debounce: nat, steps: seq<Step>, s: Shared, step: Step)
    requires PendingIs(debounce, steps, s) && step.Schedule? && !s.shuttingDown
    ensures PendingIs(debounce, steps + [step], Apply(debounce, s, step))
  {
    var next := steps + [step];
    ShutdownNext(steps, step);
    forall i: nat ensures InWindow(next, i) <==> InWindow(steps, i) || i == |steps| {
      WindowNext(steps, step, i);
    }
    TargetsJoin(steps, step, next, s.pendingTargets);
    IntentJoins(steps, step, next, true, s.pendingCompile);
    IntentJoins(steps, step, next, false, s.pendingReindex);
    DueJoins(debounce, steps, step, next, s.scheduled, s.dueAt);
  }

  /** After every run: the pending targets and intents are exactly those of the schedules accepted since
      the last run started, a run is pending iff there is one, and the deadline is that of the first. */
  lemma {:induction false} PendingIsTheWindow(debounce: nat, steps: seq<Step>)
    requires Run(debounce, steps).Some?
    ensures PendingIs(debounce, steps, Run(debounce, steps).value)
    decreases |steps|
  {
    if steps != [] {
      var before, step := steps[..|steps| - 1], steps[|steps| - 1];
      PendingIsTheWindow(debounce, before);
      assert steps == before + [step];
      var s := Run(debounce, before).value;
      match step
      case Begin(_) => BeginClears(debounce, before, s, step);
      case Schedule(_, _, _) =>
        if s.shuttingDown {
          OtherKeeps(debounce, before, s, step);
        } else {
          ScheduleJoins(debounce, before, s, step);
        }
      case _ => OtherKeeps(debounce, before, s, step);
    }
  }

  /** No run starts within the debounce window of the schedule that armed it. */
  lemma RunsWaitForTheirDeadline(debounce: nat, steps: seq<Step>, j: nat) returns (i: nat)
    requires Run(debounce, steps).Some? && j < |steps| && steps[j].Begin?
    ensures i < j && Arms(steps[..j], i) && steps[j].now > steps[i].now + debounce
  {
    WasEnabled(debounce, steps, j);
    PendingIsTheWindow(debounce, steps[..j]);
    i := DeadlineIsArmed(debounce, steps[..j], Run(debounce, steps[..j]).value);
  }

  lemma WasEnabled(debounce: nat, steps: seq<Step>, j: nat)
    requires Run(debounce, steps).Some? && j < |steps|
    ensures Run(debounce, steps[..j]).Some? && Enabled(Run(debounce, steps[..j]).value, steps[j])
  {
    RunPrefix(debounce, steps, j);
    RunPrefix(debounce, steps, j + 1);
    assert steps[..j + 1][..j] == steps[..j];
  }

  lemma DeadlineIsArmed(debounce: nat, steps: seq<Step>, s: Shared) returns (i: nat)
    requires PendingIs(debounce, steps, s) && s.scheduled
    ensures i < |steps| && Arms(steps, i) && s.dueAt == Some(steps[i].now + debounce)
  {
    i :| Arms(steps, i) && s.dueAt == Some(steps[i].now + debounce);
  }

  /** A pending run can start as soon as that window is over, the worker is idle and nothing shuts down. */
  lemma DueRunsCanStart(debounce: nat, steps: seq<Step>, i: nat, now: nat)
    requires Run(debounce, steps).Some? && Arms(steps, i)
    requires Run(debounce, steps).value.worker.None? && NoShutdownBefore(steps, |steps|)
    ensures Run(debounce, steps + [Begin(now)]).Some? <==> now > steps[i].now + debounce
  {
    PendingIsTheWindow(debounce, steps);
    var s := Run(debounce, steps).value;
    assert InWindow(steps, i);
    var k: nat :| Arms(steps, k) && s.dueAt == Some(steps[k].now + debounce);
    assert k == i;
    assert (steps + [Begin(now)])[..|steps|] == steps;
  }

  /** A run is pending iff some intent is, and targets are pending only with a compile. */
  lemma {:induction false} PendingMeansIntent(debounce: nat, steps: seq<Step>)
    requires Run(debounce, steps).Some?
    ensures var s := Run(debounce, steps).value;
            (s.scheduled <==> s.pendingCompile || s.pendingReindex) && (s.pendingTargets != {} ==> s.pendingCompile)
  {
    PendingIsTheWindow(debounce, steps);
    var s := Run(debounce, steps).value;
    if i: nat :| InWindow(steps, i) {
      assert Asks(steps, i, steps[i].compileFirst);
    }
    if t :| t in s.pendingTargets {
      var i: nat :| AsksFor(steps, i, t);
      assert Asks(steps, i, true);
    }
  }

  // ---------------------------------------------------------------------------
  // Nothing is lost
  // ---------------------------------------------------------------------------

  lemma {:induction false} RunPrefix(debounce: nat, steps: seq<Step>, n: nat)
    requires Run(debounce, steps).Some? && n <= |steps|
    ensures Run(debounce, steps[..n]).Some?
    decreases |steps|
  {
    if n < |steps| {
      var before := steps[..|steps| - 1];
      RunPrefix(debounce, before, n);
      assert before[..n] == steps[..n];
    } else {
      assert steps[..n] == steps;
    }
  }

  /** The job that the run starting at step `j` is given. */
  ghost function JobAt(debounce: nat, steps: seq<Step>, j: nat): Job
    requires Run(debounce, steps).Some? && j < |steps|
  {
    RunPrefix(debounce, steps, j);
    JobOf(Run(debounce, steps[..j]).value)
  }

  lemma {:induction false} FirstBegin(steps: seq<Step>, i: int) returns (j: nat)
    requires -1 <= i < |steps| && !NoBeginAfter(steps, i)
    ensures i < j < |steps| && steps[j].Begin? && forall k | i < k < j :: !steps[k].Begin?
    decreases |steps| - i
  {
    if steps[i + 1].Begin? {
      j := i + 1;
    } else {
      j := FirstBegin(steps, i + 1);
    }
  }

  lemma WindowAtBegin(steps: seq<Step>, i: nat, j: nat)
    requires Accepted(steps, i) && i < j <= |steps| && forall k | i < k < j :: !steps[k].Begin?
    ensures InWindow(steps[..j], i)
  {
    assert forall k | 0 <= k < j :: steps[..j][k] == steps[k];
  }

  /** An accepted request is still pending, or the next run to start was given it: a compile-first
      request with all its targets, a reindex request as an intent of its own. */
  lemma NothingIsLost(debounce: nat, steps: seq<Step>, i: nat) returns (j: nat)
    requires Run(debounce, steps).Some? && Accepted(steps, i)
    ensures i < j <= |steps| && forall k | i < k < j :: !steps[k].Begin?
    ensures j < |steps| ==> steps[j].Begin?
    ensures var job := if j < |steps| then JobAt(debounce, steps, j) else JobOf(Run(debounce, steps).value);
            if steps[i].compileFirst then job.compile && Elements(steps[i].targets) <= job.targets else job.reindex
  {
    if NoBeginAfter(steps, i) {
      j := |steps|;
      assert steps[..j] == steps;
    } else {
      j := FirstBegin(steps, i);
    }
    WindowAtBegin(steps, i, j);
    RunPrefix(debounce, steps, j);
    PendingIsTheWindow(debounce, steps[..j]);
    var s := Run(debounce, steps[..j]).value;
    assert steps[..j][i] == steps[i];
    assert Asks(steps[..j], i, steps[i].compileFirst);
    if steps[i].compileFirst {
      forall t | t in steps[i].targets ensures t in s.pendingTargets {
        assert AsksFor(steps[..j], i, t);
      }
    }
  }

  /** A run keeps its job until it finishes. */
  lemma {:induction false} JobIsKept(debounce: nat, steps: seq<Step>, j: nat, k: nat)
    requires Run(debounce, steps).Some? && j < k <= |steps| && steps[j].Begin?
    requires forall m | j < m < k :: !steps[m].Finish?
    ensures Run(debounce, steps[..k]).Some? && Run(debounce, steps[..k]).value.worker == Some(JobAt(debounce, steps, j))
    decreases k
  {
    RunPrefix(debounce, steps, k);
    assert steps[..k][..k - 1] == steps[..k - 1];
    if j < k - 1 {
      JobIsKept(debounce, steps, j, k - 1);
      var s := Run(debounce, steps[..k - 1]).value;
      assert Enabled(s, steps[k - 1]) && !steps[k - 1].Finish? && !steps[k - 1].Begin?;
    }
  }

  /** A reindex request that is no longer pending went to a run which, when it finishes, attempts the
      reingest whatever the compiler said. */
  lemma ReindexIsHonoured(debounce: nat, steps: seq<Step>, i: nat, k: nat) returns (j: nat)
    requires Run(debounce, steps).Some? && Accepted(steps, i) && !steps[i].compileFirst
    requires i < k < |steps| && steps[k].Finish? && !NoBeginAfter(steps[..k], i)
    requires forall b, m | i < b < m < k && steps[b].Begin? :: !steps[m].Finish?
    ensures i < j < k && steps[j].Begin? && JobAt(debounce, steps, j).reindex
    ensures Run(debounce, steps[..k]).Some? && Run(debounce, steps[..k + 1]).Some?
    ensures Run(debounce, steps[..k + 1]).value.reingestsAttempted == Run(debounce, steps[..k]).value.reingestsAttempted + 1
  {
    j := NothingIsLost(debounce, steps, i);
    var b :| i < b < k && steps[..k][b].Begin?;
    assert steps[b].Begin? && j <= b;
    JobIsKept(debounce, steps, j, k);
    RunPrefix(debounce, steps, k + 1);
    assert steps[..k + 1][..k] == steps[..k] && steps[..k + 1][k] == steps[k];
  }

  /** When a run skips the reingest: exactly if it asked for a compile of something, the compile failed, and
      no reindex request was accepted in the window that the run drained. */
  lemma SkipsExactly(debounce: nat, steps: seq<Step>, j: nat, compiled: bool)
    requires Run(debounce, steps).Some? && j < |steps| && steps[j].Begin?
    ensures !Reingests(JobAt(debounce, steps, j), compiled) <==>
            && !compiled
            && (exists i: nat, t :: AsksFor(steps[..j], i, t))
            && !(exists i: nat :: Asks(steps[..j], i, false))
  {
    RunPrefix(debounce, steps, j);
    PendingIsTheWindow(debounce, steps[..j]);
    var job := JobAt(debounce, steps, j);
    if i: nat, t :| AsksFor(steps[..j], i, t) {
      assert Asks(steps[..j], i, true) && t in job.targets;
    }
    if t :| t in job.targets {
      var i: nat :| AsksFor(steps[..j], i, t);
    }
  }

  lemma RunNext(debounce: nat, steps: seq<Step>, step: Step)
    requires Run(debounce, steps).Some? && Enabled(Run(debounce, steps).value, step)
    ensures Run(debounce, steps + [step]) == Some(Apply(debounce, Run(debounce, steps).value, step))
  {
    assert (steps + [step])[..|steps|] == steps;
  }

  /** A failed compile that shares its run with a reindex request does not skip the reingest. */
  lemma FailedCompileStillReingests()
    ensures var run := Run(0, [Step.Schedule(["a"], true, 0), Step.Schedule([], false, 0), Begin(1), Finish(false)]);
            run.Some? && run.value.reingestsAttempted == 1
  {
    var compile, reindex := Step.Schedule(["a"], true, 0), Step.Schedule([], false, 0);
    assert [] + [compile] == [compile] && [compile] + [reindex] == [compile, reindex];
    assert [compile, reindex] + [Begin(1)] == [compile, reindex, Begin(1)];
    assert [compile, reindex, Begin(1)] + [Finish(false)] == [compile, reindex, Begin(1), Finish(false)];
    RunNext(0, [], compile);
    RunNext(0, [compile], reindex);
    RunNext(0, [compile, reindex], Begin(1));
    RunNext(0, [compile, reindex, Begin(1)], Finish(false));
  }

  // ---------------------------------------------------------------------------
  // Counts
  // ---------------------------------------------------------------------------

  /** Schedules that found nothing pending and armed a run. */
  ghost function ArmedCount(debounce: nat, steps: seq<Step>): nat
    decreases |steps|
  {
    if steps == [] then 0
    else
      var before := Run(debounce, steps[..|steps| - 1]);
      ArmedCount(debounce, steps[..|steps| - 1])
      + if before.Some? && steps[|steps| - 1].Schedule? && !before.value.shuttingDown && !before.value.scheduled then 1 else 0
  }

  function Begun(steps: seq<Step>): nat {
    if steps == [] then 0 else Begun(steps[..|steps| - 1]) + if steps[|steps| - 1].Begin? then 1 else 0
  }

  /** Every armed schedule is a run that started or the one that is pending; every run that started has
      completed or is the one at work. */
  lemma {:induction false} RunsBalance(debounce: nat, steps: seq<Step>)
    requires Run(debounce, steps).Some?
    ensures var s := Run(debounce, steps).value;
            && ArmedCount(debounce, steps) == Begun(steps) + (if s.scheduled then 1 else 0)
            && Begun(steps) == s.runsCompleted + (if s.worker.Some? then 1 else 0)
            && s.reingestsAttempted <= s.runsCompleted
    decreases |steps|
  {
    if steps != [] {
      RunsBalance(debounce, steps[..|steps| - 1]);
    }
  }

  /** After a shutdown nothing is accepted and no run starts. */
  lemma {:induction false} NothingAfterShutdown(debounce: nat, steps: seq<Step>, k: nat)
    requires Run(debounce, steps).Some? && k < |steps| && steps[k].Shutdown?
    ensures Run(debounce, steps[..k]).Some? && JobOf(Run(debounce, steps).value) == JobOf(Run(debounce, steps[..k]).value)
    ensures Run(debounce, steps).value.shuttingDown && forall j | k < j < |steps| :: !steps[j].Begin?
    decreases |steps|
  {
    var n := |steps| - 1;
    RunPrefix(debounce, steps, k);
    if k < n {
      assert steps[..n][..k] == steps[..k];
      NothingAfterShutdown(debounce, steps[..n], k);
      assert forall j | k < j < n :: steps[..n][j] == steps[j];
    }
  }

  // ---------------------------------------------------------------------------
  // The scheduler
  // ---------------------------------------------------------------------------

  class BuildScheduler {
    const debounce: nat
    var scheduled: bool
    var dueAt: Option<nat>
    var shuttingDown: bool
    var pendingTargets: set<string>
    var pendingCompile: bool
    var pendingReindex: bool
    var runsCompleted: nat
    var reingestsAttempted: nat
    var worker: Option<Job>

    ghost function View(): Shared
      reads this
    {
      Shared(scheduled, dueAt, shuttingDown, pendingTargets, pendingCompile, pendingReindex,
             runsCompleted, reingestsAttempted, worker)
    }

    constructor (debounce: nat)
      ensures View() == INITIAL && this.debounce == debounce
    {
      this.debounce := debounce;
      scheduled, dueAt, shuttingDown := false, None, false;
      pendingTargets, pendingCompile, pendingReindex := {}, false, false;
      runsCompleted, reingestsAttempted, worker := 0, 0, None;
    }

    method Schedule(targets: seq<string>, compileFirst: bool, now: nat)
      modifies this
      ensures View() == Apply(debounce, old(View()), Step.Schedule(targets, compileFirst, now))
    {
      if shuttingDown {
        return;
      }
      if compileFirst {
        pendingTargets := pendingTargets + Elements(targets);
        pendingCompile := true;
      } else {
        pendingReindex := true;
      }
      if !scheduled {
        scheduled := true;
        dueAt := Some(now + debounce);
      }
    }

    method ScheduleReindex(now: nat)
      modifies this
      ensures View() == Apply(debounce, old(View()), Step.Schedule([], false, now))
    {
      Schedule([], false, now);
    }

    /** The worker wakes up at `now`: it starts the pending run if it is due, and waits on otherwise. */
    method BeginRun(now: nat) returns (job: Option<Job>)
      requires worker.None?
      modifies this
      ensures job.Some? <==> old(scheduled && !shuttingDown && dueAt.Some? && dueAt.value < now)
      ensures job.Some? ==> View() == Apply(debounce, old(View()), Begin(now)) && job == worker
      ensures job.None? ==> View() == old(View())
    {
      if shuttingDown || !scheduled || dueAt.None? || dueAt.value >= now {
        return None;
      }
      job := Some(Job(pendingTargets, pendingCompile, pendingReindex));
      worker := job;
      pendingTargets, pendingCompile, pendingReindex := {}, false, false;
      scheduled, dueAt := false, None;
    }

    /** The compile (if any) has answered; reingest unless it failed and nobody asked for a reindex. */
    method FinishRun(compiled: bool) returns (reingested: bool)
      requires worker.Some?
      modifies this
      ensures View() == Apply(debounce, old(View()), Finish(compiled))
      ensures reingested <==> Reingests(old(worker).value, compiled)
    {
      var job := worker.value;
      var compileOk := if job.compile && job.targets != {} then compiled else true;
      reingested := compileOk || job.reindex;
      worker := None;
      runsCompleted := runsCompleted + 1;
      if reingested {
        reingestsAttempted := reingestsAttempted + 1;
      }
    }

    method Drop()
      modifies this
      ensures View() == Apply(debounce, old(View()), Shutdown)
    {
      shuttingDown := true;
    }
  }
}
