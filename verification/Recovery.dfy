/**
  * The recovery protocol on the dispatch lane: the supervisor sends one request at a time, waits for its
  * reply or gives up waiting, then probes the lane and either carries on or abandons the generation.
  *
  * Worker and staging steps interleave freely with the moves of the supervisor. A fatal outcome ends the
  * supervisor's part: the process exits.
  */
module Recovery {
  import opened Options
  import opened DispatchLane

  datatype Stage =
    | Ready
    | Awaiting(replay: bool) // a request is out; during the replay into a fresh generation a timeout is fatal
    | Recovering             // the request timed out
    | Replaying              // a fresh generation is being staged and filled
    | Lost

  datatype Joint = Joint(lane: Lane, stage: Stage)

  datatype Move =
    | Request
    | Answered
    | TimeOut
    | SeesIdle         // the probe says idle: keep the generation
    | Abandon          // the probe still says busy when the grace period ends
    | Accept           // the fresh generation has been filled
    | GiveUp
    | Work(step: Step) // a step of a worker, or a store of staging

  const START := Joint(INITIAL, Ready)

  /** Jobs of the generation that requests go to which have not returned. */
  function Outstanding(s: Lane): nat {
    Queued(s, s.routed) + if In(s, s.routed, Holding) || In(s, s.routed, Executing) then 1 else 0
  }

  /** A fresh generation is filled only after its worker has attached. */
  predicate Attached(s: Lane) {
    s.active in s.workers
  }

  /** The supervisor waits for the last request it sent, and workers take requests in order, so its reply
      has come once nothing is outstanding. */
  predicate Possible(j: Joint, m: Move) {
    match m
    case Request => (j.stage.Ready? || (j.stage.Replaying? && Attached(j.lane))) && Enabled(j.lane, Send)
    case Answered => j.stage.Awaiting? && Outstanding(j.lane) == 0
    case TimeOut => j.stage.Awaiting?
    case SeesIdle => j.stage.Recovering? && LaneIdle(j.lane)
    case Abandon => j.stage.Recovering? && !LaneIdle(j.lane) && Enabled(j.lane, SwapSender)
    case Accept => j.stage.Replaying? && j.lane.staging.Settled? && Attached(j.lane)
    case GiveUp => true
    case Work(step) => !step.Send? && !step.SwapSender? && Enabled(j.lane, step)
  }

  function Do(j: Joint, m: Move): Joint
    requires Possible(j, m)
  {
    match m
    case Request => Joint(Apply(j.lane, Send), Awaiting(j.stage.Replaying?))
    case Answered => j.(stage := if j.stage.replay then Replaying else Ready)
    case TimeOut => j.(stage := if j.stage.replay then Lost else Recovering)
    case SeesIdle => j.(stage := Ready)
    case Abandon => Joint(Apply(j.lane, SwapSender), Replaying)
    case Accept => j.(stage := Ready)
    case GiveUp => j.(stage := Lost)
    case Work(step) => j.(lane := Apply(j.lane, step))
  }

  /** An idle answer is honest if no job is on its way to being announced. */
  predicate Honest(j: Joint, m: Move) {
    m.SeesIdle? ==> NothingUnannounced(j.lane)
  }

  /** The last state of a run in which every idle answer was honest. */
  function Run(j: Joint, moves: seq<Move>): Option<Joint>
    decreases |moves|
  {
    if moves == [] then Some(j)
    else
      match Run(j, moves[..|moves| - 1])
      case None => None
      case Some(k) =>
        var m := moves[|moves| - 1];
        if Possible(k, m) && Honest(k, m) then Some(Do(k, m)) else None
  }

  ghost predicate Reaches(j: Joint, k: Joint) {
    exists moves :: Run(j, moves) == Some(k)
  }

  lemma ReachesSelf(j: Joint)
    ensures Reaches(j, j)
  {
    assert Run(j, []) == Some(j);
  }

  lemma ReachesNext(j: Joint, k: Joint, m: Move)
    requires Reaches(j, k) && Possible(k, m) && Honest(k, m)
    ensures Reaches(j, Do(k, m))
  {
    var moves :| Run(j, moves) == Some(k);
    assert (moves + [m])[..|moves|] == moves;
    assert Run(j, moves + [m]) == Some(Do(k, m));
  }

  // ---------------------------------------------------------------------------
  // Honest answers keep it safe
  // ---------------------------------------------------------------------------

  ghost predicate BusyMeansExecuting(s: Lane) {
    s.busy.Some? ==> In(s, s.busy.value, Executing)
  }

  ghost predicate StageFits(j: Joint) {
    match j.stage
    case Ready => j.lane.staging.Settled? && Outstanding(j.lane) == 0
    case Awaiting(_) => j.lane.staging.Settled? && Outstanding(j.lane) <= 1
    case Recovering => j.lane.staging.Settled? && Outstanding(j.lane) <= 1
    case Replaying => Outstanding(j.lane) == 0
    case Lost => true
  }

  ghost predicate Consistent(j: Joint) {
    DispatchLane.Invariant(j.lane) && BusyMeansExecuting(j.lane) && StageFits(j)
  }

  /** The generation that is abandoned executes the very request that timed out. */
  lemma AbandonIsClean(j: Joint)
    requires Consistent(j) && Possible(j, Abandon)
    ensures NothingUnannounced(j.lane)
  {
  }

  lemma WorkKeeps(s: Lane, step: Step)
    requires DispatchLane.Invariant(s) && BusyMeansExecuting(s) && Enabled(s, step) && !step.SwapSender?
    ensures BusyMeansExecuting(Apply(s, step))
    ensures !step.Send? ==> Outstanding(Apply(s, step)) <= Outstanding(s)
    ensures step.Send? ==> Outstanding(Apply(s, step)) == Outstanding(s) + 1
    ensures s.staging.Settled? ==> Apply(s, step).staging.Settled?
  {
  }

  lemma MoveKeeps(j: Joint, m: Move)
    requires Consistent(j) && Possible(j, m) && Honest(j, m)
    ensures Consistent(Do(j, m))
  {
    match m {
      case Request =>
        StepKeepsInvariant(j.lane, Send);
        WorkKeeps(j.lane, Send);
      case Work(step) =>
        StepKeepsInvariant(j.lane, step);
        WorkKeeps(j.lane, step);
      case Abandon =>
        AbandonIsClean(j);
        StepKeepsInvariant(j.lane, SwapSender);
      case _ =>
    }
  }

  lemma {:induction false} RunKeeps(j: Joint, moves: seq<Move>)
    requires Consistent(j) && Run(j, moves).Some?
    ensures Consistent(Run(j, moves).value)
    decreases |moves|
  {
    if moves != [] {
      var front := moves[..|moves| - 1];
      RunKeeps(j, front);
      MoveKeeps(Run(j, front).value, moves[|moves| - 1]);
    }
  }

  /** As long as the idle answers are honest, every abandonment is clean and no live operation looks idle. */
  lemma HonestRunsAreSafe(j: Joint, k: Joint)
    requires Consistent(j) && Reaches(j, k)
    ensures Consistent(k) && !LooksIdle(k.lane)
    ensures Possible(k, Abandon) ==> NothingUnannounced(k.lane)
  {
    var moves :| Run(j, moves) == Some(k);
    RunKeeps(j, moves);
    if Possible(k, Abandon) {
      AbandonIsClean(k);
    }
  }

  lemma StartIsConsistent()
    ensures Consistent(START)
  {
  }

  // ---------------------------------------------------------------------------
  // One dishonest answer is enough
  // ---------------------------------------------------------------------------

  /** The worker of the active generation is attached, and one of its jobs has not been announced. */
  ghost predicate HasMissed(j: Joint) {
    && DispatchLane.Invariant(j.lane) && j.lane.staging.Settled? && j.stage.Ready?
    && j.lane.active in j.lane.workers && !In(j.lane, j.lane.active, Executing) && !NothingUnannounced(j.lane)
  }

  lemma WorkerAttaches(start: Joint) returns (k: Joint)
    requires DispatchLane.Invariant(start.lane) && start.lane.staging.Settled? && start.stage.Ready?
    requires !In(start.lane, start.lane.active, Executing) && !NothingUnannounced(start.lane)
    ensures Reaches(start, k) && HasMissed(k)
  {
    ReachesSelf(start);
    k := start;
    if k.lane.active !in k.lane.workers {
      StepKeepsInvariant(k.lane, Attach);
      ReachesNext(start, k, Work(Attach));
      k := Do(k, Work(Attach));
    }
  }

  /** After a dishonest idle answer the next request queues up behind the one that was missed: it times out
      while the missed one executes, and the generation is abandoned with the request unannounced. */
  lemma MissedRequestIsAbandoned(start: Joint, j: Joint) returns (k: Joint)
    requires Reaches(start, j) && HasMissed(j)
    ensures Reaches(start, k) && DispatchLane.Invariant(k.lane) && Possible(k, Abandon)
    ensures In(k.lane, k.lane.active, Executing) && Queued(k.lane, k.lane.active) > 0
  {
    StepKeepsInvariant(j.lane, Send);
    ReachesNext(start, j, Request);
    k := Do(j, Request);
    if !In(k.lane, k.lane.active, Holding) {
      StepKeepsInvariant(k.lane, Receive(k.lane.active));
      ReachesNext(start, k, Work(Receive(k.lane.active)));
      k := Do(k, Work(Receive(k.lane.active)));
    }
    StepKeepsInvariant(k.lane, MarkBusy(k.lane.active));
    ReachesNext(start, k, Work(MarkBusy(k.lane.active)));
    k := Do(k, Work(MarkBusy(k.lane.active)));
    ReachesNext(start, k, TimeOut);
    k := Do(k, TimeOut);
  }

  /** The fresh generation is staged, accepted and given a request. */
  lemma FreshGenerationExecutes(start: Joint, j: Joint) returns (k: Joint)
    requires Reaches(start, j) && DispatchLane.Invariant(j.lane) && Possible(j, Abandon) && j.lane.active in j.lane.workers
    ensures Reaches(start, k) && k.lane.active == j.lane.active + 1 && In(k.lane, k.lane.active, Executing)
    ensures In(k.lane, j.lane.active, Executing) == In(j.lane, j.lane.active, Executing)
    ensures j.lane.active in k.lane.workers && Queued(k.lane, j.lane.active) == Queued(j.lane, j.lane.active)
  {
    ReachesNext(start, j, Abandon);
    k := Do(j, Abandon);
    ReachesNext(start, k, Work(OfferReceiver));
    k := Do(k, Work(OfferReceiver));
    ReachesNext(start, k, Work(Activate));
    k := Do(k, Work(Activate));
    ReachesNext(start, k, Work(Attach));
    k := Do(k, Work(Attach));
    ReachesNext(start, k, Accept);
    k := Do(k, Accept);
    k := FreshRequestExecutes(start, k);
  }

  lemma FreshRequestExecutes(start: Joint, j: Joint) returns (k: Joint)
    requires Reaches(start, j) && j.stage.Ready? && j.lane.staging.Settled? && j.lane.routed == j.lane.active
    requires In(j.lane, j.lane.active, Waiting) && Queued(j.lane, j.lane.active) == 0
    ensures Reaches(start, k) && k.lane.active == j.lane.active && In(k.lane, k.lane.active, Executing)
    ensures forall g | g != k.lane.active :: Queued(k.lane, g) == Queued(j.lane, g) && (g in k.lane.workers <==> g in j.lane.workers)
    ensures forall g | g != k.lane.active && g in k.lane.workers :: k.lane.workers[g] == j.lane.workers[g]
  {
    ReachesNext(start, j, Request);
    k := Do(j, Request);
    ReachesNext(start, k, Work(Receive(k.lane.active)));
    k := Do(k, Work(Receive(k.lane.active)));
    ReachesNext(start, k, Work(MarkBusy(k.lane.active)));
    k := Do(k, Work(MarkBusy(k.lane.active)));
  }

  /** The abandoned worker returns and announces the request it still had. */
  lemma LateAnnouncementHidesIt(start: Joint, j: Joint, gone: nat) returns (k: Joint)
    requires Reaches(start, j) && gone != j.lane.active && In(j.lane, j.lane.active, Executing)
    requires In(j.lane, gone, Executing) && Queued(j.lane, gone) > 0
    ensures Reaches(start, k) && LooksIdle(k.lane)
  {
    ReachesNext(start, j, Work(Return(gone)));
    k := Do(j, Work(Return(gone)));
    ReachesNext(start, k, Work(Receive(gone)));
    k := Do(k, Work(Receive(gone)));
    ReachesNext(start, k, Work(MarkBusy(gone)));
    k := Do(k, Work(MarkBusy(gone)));
  }

  lemma DishonestAnswerHidesLiveOperation(j: Joint) returns (k: Joint)
    requires Consistent(j) && Possible(j, SeesIdle) && !NothingUnannounced(j.lane)
    ensures Reaches(Do(j, SeesIdle), k) && LooksIdle(k.lane)
  {
    var start := Do(j, SeesIdle);
    var missed := WorkerAttaches(start);
    var abandoned := MissedRequestIsAbandoned(start, missed);
    k := FreshGenerationExecutes(start, abandoned);
    k := LateAnnouncementHidesIt(start, k, abandoned.lane.active);
  }

  /** For every state that honest runs reach in which the probe says idle after a timeout: carrying on is safe,
      whatever follows with honest answers, iff the request that timed out is not still on its way. */
  lemma IdleAnswerIsSafeIffHonest(j: Joint)
    requires Reaches(START, j) && Possible(j, SeesIdle)
    ensures NothingUnannounced(j.lane) <==> forall k | Reaches(Do(j, SeesIdle), k) :: !LooksIdle(k.lane)
  {
    StartIsConsistent();
    HonestRunsAreSafe(START, j);
    if NothingUnannounced(j.lane) {
      MoveKeeps(j, SeesIdle);
      forall k | Reaches(Do(j, SeesIdle), k) ensures !LooksIdle(k.lane) {
        HonestRunsAreSafe(Do(j, SeesIdle), k);
      }
    } else {
      var k := DishonestAnswerHidesLiveOperation(j);
    }
  }

  /** The probe looks at the busy marker only, so such an answer does happen: a request that times out
      before any worker has received it. */
  lemma IdleProbeMissesQueuedRequest() returns (j: Joint, k: Joint)
    ensures Reaches(START, j) && Possible(j, SeesIdle) && !NothingUnannounced(j.lane)
    ensures Reaches(Do(j, SeesIdle), k) && LooksIdle(k.lane)
  {
    ReachesSelf(START);
    ReachesNext(START, START, Work(Attach));
    j := Do(START, Work(Attach));
    ReachesNext(START, j, Request);
    j := Do(j, Request);
    ReachesNext(START, j, TimeOut);
    j := Do(j, TimeOut);
    StartIsConsistent();
    HonestRunsAreSafe(START, j);
    k := DishonestAnswerHidesLiveOperation(j);
  }
}
