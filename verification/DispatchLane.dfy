/**
  * The dispatch lane: one worker thread per generation, a marker that says which generation is
  * executing, and the staging of a fresh generation when the current one wedges.
  *
  * Threads interleave freely, so the lane is a state machine whose steps are the atomic actions of
  * the worker loop, of staging and of sending. A wedged operation is one whose `Return` never comes.
  */
module DispatchLane {
  import opened Options

  /** Where a worker is in its loop: waiting for a job, holding one it has not announced, or executing. */
  datatype Phase = Waiting | Holding | Executing

  /** What the supervisor thread is doing: staging a generation takes three separate stores. */
  datatype Staging = Settled | Swapped | Offered

  datatype Lane = Lane(
    active: nat,              // the generation that `lane_idle` answers for
    routed: nat,              // the generation whose channel requests are sent to
    staging: Staging,
    offered: Option<nat>,     // the receiver waiting for its worker
    busy: Option<nat>,        // the generation marked as executing
    workers: map<nat, Phase>, // the attached workers
    queues: map<nat, nat>)    // jobs sent and not yet received

  datatype Step =
    | Send                // the supervisor sends a request
    | SwapSender          // staging, first store: requests go to the next generation
    | OfferReceiver       // staging, second store
    | Activate            // staging, third store
    | Attach              // a loaned thread takes the offered receiver
    | Receive(g: nat)
    | MarkBusy(g: nat)
    | Return(g: nat)      // the operation comes back: the marker is cleared only if it is still ours

  const INITIAL := Lane(0, 0, Settled, Some(0), None, map[], map[])

  function Queued(s: Lane, g: nat): nat {
    if g in s.queues then s.queues[g] else 0
  }

  predicate In(s: Lane, g: nat, p: Phase) {
    g in s.workers && s.workers[g] == p
  }

  predicate Enabled(s: Lane, step: Step) {
    match step
    case Send => s.staging.Settled?
    case SwapSender => s.staging.Settled?
    case OfferReceiver => s.staging.Swapped?
    case Activate => s.staging.Offered?
    case Attach => s.offered.Some?
    case Receive(g) => In(s, g, Waiting) && Queued(s, g) > 0
    case MarkBusy(g) => In(s, g, Holding)
    case Return(g) => In(s, g, Executing)
  }

  function Apply(s: Lane, step: Step): Lane
    requires Enabled(s, step)
  {
    match step
    case Send => s.(queues := s.queues[s.routed := Queued(s, s.routed) + 1])
    case SwapSender => s.(routed := s.active + 1, staging := Swapped)
    case OfferReceiver => s.(offered := Some(s.routed), staging := Offered)
    case Activate => s.(active := s.routed, staging := Settled)
    case Attach => s.(offered := None, workers := s.workers[s.offered.value := Waiting])
    case Receive(g) => s.(workers := s.workers[g := Holding], queues := s.queues[g := Queued(s, g) - 1])
    case MarkBusy(g) => s.(workers := s.workers[g := Executing], busy := Some(g))
    case Return(g) => s.(workers := s.workers[g := Waiting], busy := if s.busy == Some(g) then None else s.busy)
  }

  /** The probe of the supervisor. */
  predicate LaneIdle(s: Lane) {
    s.busy != Some(s.active)
  }

  /** No job of the active generation is still unannounced. */
  predicate NothingUnannounced(s: Lane) {
    Queued(s, s.active) == 0 && !In(s, s.active, Holding)
  }

  /** A run, as the list of its steps; `None` if some step was not possible. */
  function Run(s: Lane, steps: seq<Step>): Option<Lane>
    decreases |steps|
  {
    if steps == [] then Some(s)
    else if Enabled(s, steps[0]) then Run(Apply(s, steps[0]), steps[1..])
    else None
  }

  /** Generations are only abandoned when nothing of theirs is unannounced. */
  predicate AbandonsCleanly(s: Lane, steps: seq<Step>)
    decreases |steps|
  {
    steps == [] || !Enabled(s, steps[0])
    || ((steps[0].SwapSender? ==> NothingUnannounced(s)) && AbandonsCleanly(Apply(s, steps[0]), steps[1..]))
  }

  // ---------------------------------------------------------------------------
  // Safety
  // ---------------------------------------------------------------------------

  ghost predicate Invariant(s: Lane) {
    && s.routed == (if s.staging.Settled? then s.active else s.active + 1)
    && (s.offered.Some? ==> s.offered.value == if s.staging.Swapped? then s.active else s.routed)
    && (s.offered.Some? ==> s.offered.value !in s.workers)
    && (s.staging.Offered? ==> s.offered == Some(s.routed) || s.routed in s.workers)
    && (s.staging.Settled? ==> s.offered == Some(s.active) || s.active in s.workers)
    && (s.staging.Swapped? ==> s.routed !in s.workers && (s.offered == Some(s.active) || s.active in s.workers))
    && (forall g | g in s.workers :: g <= s.routed)
    && (forall g | g in s.queues :: g <= s.routed)
    // only the generation that requests are routed to has unannounced jobs
    && (forall g: nat | g != s.routed :: Queued(s, g) == 0 && !In(s, g, Holding))
    && (!s.staging.Settled? ==> Queued(s, s.routed) == 0 && !In(s, s.routed, Holding) && !In(s, s.routed, Executing))
    // the marker belongs to the active generation while its operation lives
    && (In(s, s.active, Executing) ==> s.busy == Some(s.active))
  }

  lemma StepKeepsInvariant(s: Lane, step: Step)
    requires Invariant(s) && Enabled(s, step) && (step.SwapSender? ==> NothingUnannounced(s))
    ensures Invariant(Apply(s, step))
  {
    var t := Apply(s, step);
    forall g: nat | g != t.routed ensures Queued(t, g) == 0 && !In(t, g, Holding) {
      assert g != s.routed ==> Queued(s, g) == 0 && !In(s, g, Holding);
    }
  }

  lemma {:induction false} RunKeepsInvariant(s: Lane, steps: seq<Step>)
    requires Invariant(s) && AbandonsCleanly(s, steps) && Run(s, steps).Some?
    ensures Invariant(Run(s, steps).value)
    decreases |steps|
  {
    if steps != [] {
      StepKeepsInvariant(s, steps[0]);
      RunKeepsInvariant(Apply(s, steps[0]), steps[1..]);
    }
  }

  /** However workers, staging and sending interleave, the lane never looks idle while the active
      generation executes: late returns of abandoned workers cannot clear its marker. */
  lemma LiveOperationIsNeverIdle(steps: seq<Step>)
    requires AbandonsCleanly(INITIAL, steps) && Run(INITIAL, steps).Some?
    ensures var s := Run(INITIAL, steps).value;
            In(s, s.active, Executing) ==> s.busy == Some(s.active) && !LaneIdle(s)
  {
    RunKeepsInvariant(INITIAL, steps);
  }

  // ---------------------------------------------------------------------------
  // The hypothesis is exact
  // ---------------------------------------------------------------------------

  /** The active generation executes, and the probe says idle. */
  predicate LooksIdle(s: Lane) {
    In(s, s.active, Executing) && LaneIdle(s)
  }

  predicate NoSwap(steps: seq<Step>) {
    forall i | 0 <= i < |steps| :: !steps[i].SwapSender?
  }

  /** Without abandoning another generation, `s` can come to `t`. */
  ghost predicate Continues(s: Lane, t: Lane) {
    exists steps :: NoSwap(steps) && Run(s, steps) == Some(t)
  }

  lemma ContinuesSelf(s: Lane)
    ensures Continues(s, s)
  {
    assert NoSwap([]) && Run(s, []) == Some(s);
  }

  lemma ContinuesNext(s: Lane, t: Lane, step: Step)
    requires Continues(s, t) && Enabled(t, step) && !step.SwapSender?
    ensures Continues(s, Apply(t, step))
  {
    var steps :| NoSwap(steps) && Run(s, steps) == Some(t);
    RunNext(s, steps, t, step);
    assert NoSwap(steps + [step]);
  }

  lemma {:induction false} RunNext(s: Lane, steps: seq<Step>, t: Lane, step: Step)
    requires Run(s, steps) == Some(t) && Enabled(t, step)
    ensures Run(s, steps + [step]) == Some(Apply(t, step))
    decreases |steps|
  {
    var next := steps + [step];
    if steps == [] {
      assert next[1..] == [];
    } else {
      assert next[1..] == steps[1..] + [step];
      RunNext(Apply(s, steps[0]), steps[1..], t, step);
    }
  }

  lemma {:induction false} NoSwapIsClean(s: Lane, steps: seq<Step>)
    requires NoSwap(steps)
    ensures AbandonsCleanly(s, steps)
    decreases |steps|
  {
    if steps != [] && Enabled(s, steps[0]) {
      NoSwapIsClean(Apply(s, steps[0]), steps[1..]);
    }
  }

  /** A generation that was just abandoned, with its worker attached or about to be. */
  ghost predicate JustAbandoned(s: Lane) {
    && s.staging.Swapped? && s.routed == s.active + 1 && s.routed !in s.workers && Queued(s, s.routed) == 0
    && (s.active in s.workers || s.offered == Some(s.active))
  }

  /** The next generation is staged and executes a request; the abandoned one keeps its jobs. */
  lemma NextGenerationExecutes(s: Lane) returns (t: Lane)
    requires JustAbandoned(s)
    ensures Continues(s, t)
    ensures t.active == s.active + 1 && In(t, t.active, Executing) && t.busy == Some(t.active)
    ensures s.active in t.workers && t.workers[s.active] == (if s.active in s.workers then s.workers[s.active] else Waiting)
    ensures Queued(t, s.active) == Queued(s, s.active)
  {
    ContinuesSelf(s);
    t := s;
    if s.active !in s.workers {
      ContinuesNext(s, t, Attach);
      t := Apply(t, Attach);
    }
    ContinuesNext(s, t, OfferReceiver);
    t := Apply(t, OfferReceiver);
    ContinuesNext(s, t, Activate);
    t := Apply(t, Activate);
    ContinuesNext(s, t, Attach);
    t := Apply(t, Attach);
    t := NextRequestExecutes(s, t);
  }

  lemma NextRequestExecutes(s: Lane, t0: Lane) returns (t: Lane)
    requires Continues(s, t0) && t0.staging.Settled? && t0.routed == t0.active && In(t0, t0.active, Waiting)
    requires Queued(t0, t0.active) == 0
    ensures Continues(s, t) && t.active == t0.active && In(t, t.active, Executing) && t.busy == Some(t.active)
    ensures forall g | g != t.active :: Queued(t, g) == Queued(t0, g) && (g in t.workers <==> g in t0.workers)
    ensures forall g | g != t.active && g in t.workers :: t.workers[g] == t0.workers[g]
  {
    ContinuesNext(s, t0, Send);
    t := Apply(t0, Send);
    ContinuesNext(s, t, Receive(t.active));
    t := Apply(t, Receive(t.active));
    ContinuesNext(s, t, MarkBusy(t.active));
    t := Apply(t, MarkBusy(t.active));
  }

  /** The old worker announces a job that it still had when it was abandoned. */
  lemma LateAnnouncementHides(s: Lane, t0: Lane, gone: nat) returns (t: Lane)
    requires Continues(s, t0) && gone != t0.active && In(t0, t0.active, Executing)
    requires gone in t0.workers && (Queued(t0, gone) > 0 || In(t0, gone, Holding))
    ensures Continues(s, t) && LooksIdle(t)
  {
    t := t0;
    if In(t, gone, Executing) {
      ContinuesNext(s, t, Return(gone));
      t := Apply(t, Return(gone));
    }
    if !In(t, gone, Holding) {
      ContinuesNext(s, t, Receive(gone));
      t := Apply(t, Receive(gone));
    }
    ContinuesNext(s, t, MarkBusy(gone));
    t := Apply(t, MarkBusy(gone));
  }

  /** Abandoning a generation with an unannounced job has a continuation in which the lane looks idle during
      a live operation. */
  lemma UnannouncedJobHidesLiveOperation(s: Lane) returns (t: Lane)
    requires Invariant(s) && s.staging.Settled? && !NothingUnannounced(s)
    ensures Continues(Apply(s, SwapSender), t) && LooksIdle(t)
  {
    var abandoned := Apply(s, SwapSender);
    t := NextGenerationExecutes(abandoned);
    t := LateAnnouncementHides(abandoned, t, s.active);
  }

  /** In every state that clean runs reach, abandoning the active generation is safe, whatever follows up to
      the next abandonment, iff none of its jobs is unannounced. */
  lemma AbandonIsSafeIffClean(steps: seq<Step>)
    requires AbandonsCleanly(INITIAL, steps) && Run(INITIAL, steps).Some? && Run(INITIAL, steps).value.staging.Settled?
    ensures var s := Run(INITIAL, steps).value;
            NothingUnannounced(s) <==> forall t | Continues(Apply(s, SwapSender), t) :: !LooksIdle(t)
  {
    RunKeepsInvariant(INITIAL, steps);
    var s := Run(INITIAL, steps).value;
    if NothingUnannounced(s) {
      StepKeepsInvariant(s, SwapSender);
      forall t | Continues(Apply(s, SwapSender), t) ensures !LooksIdle(t) {
        var more :| NoSwap(more) && Run(Apply(s, SwapSender), more) == Some(t);
        NoSwapIsClean(Apply(s, SwapSender), more);
        RunKeepsInvariant(Apply(s, SwapSender), more);
      }
    } else {
      var t := UnannouncedJobHidesLiveOperation(s);
    }
  }

  // ---------------------------------------------------------------------------
  // The shared runtime: each method is one atomic action on the shared fields
  // ---------------------------------------------------------------------------

  class IslandRuntime {
    var active: nat
    var routed: nat
    var staging: Staging
    var offered: Option<nat>
    var busy: Option<nat>
    var workers: map<nat, Phase>
    var queues: map<nat, nat>

    ghost function View(): Lane
      reads this
    {
      Lane(active, routed, staging, offered, busy, workers, queues)
    }

    constructor ()
      ensures View() == INITIAL && Invariant(View())
    {
      active, routed, staging, offered, busy, workers, queues := 0, 0, Settled, Some(0), None, map[], map[];
    }

    /** Staging stores the sender, the receiver and the active generation, in this order. */
    method StoreSender(generation: nat)
      requires Enabled(View(), SwapSender) && generation == active + 1
      modifies this
      ensures View() == Apply(old(View()), SwapSender)
      ensures old(Invariant(View()) && NothingUnannounced(View())) ==> Invariant(View())
    {
      if Invariant(View()) && NothingUnannounced(View()) {
        StepKeepsInvariant(View(), SwapSender);
      }
      routed, staging := generation, Swapped;
    }

    method StoreReceiver()
      requires Enabled(View(), OfferReceiver)
      modifies this
      ensures View() == Apply(old(View()), OfferReceiver)
      ensures old(Invariant(View())) ==> Invariant(View())
    {
      if Invariant(View()) {
        StepKeepsInvariant(View(), OfferReceiver);
      }
      offered, staging := Some(routed), Offered;
    }

    method StoreActive()
      requires Enabled(View(), Activate)
      modifies this
      ensures View() == Apply(old(View()), Activate)
      ensures old(Invariant(View())) ==> Invariant(View())
    {
      if Invariant(View()) {
        StepKeepsInvariant(View(), Activate);
      }
      active, staging := routed, Settled;
    }

    method MarkBusy(generation: nat)
      requires Enabled(View(), Step.MarkBusy(generation))
      modifies this
      ensures View() == Apply(old(View()), Step.MarkBusy(generation))
      ensures old(Invariant(View())) ==> Invariant(View())
    {
      if Invariant(View()) {
        StepKeepsInvariant(View(), Step.MarkBusy(generation));
      }
      busy := Some(generation);
      workers := workers[generation := Executing];
    }

    /** The compare-exchange: clear the marker only if it is still this generation's. */
    method ClearBusy(generation: nat)
      requires Enabled(View(), Return(generation))
      modifies this
      ensures View() == Apply(old(View()), Return(generation))
      ensures old(Invariant(View())) ==> Invariant(View())
      ensures old(Invariant(View()) && In(View(), active, Executing)) && generation != old(active) ==> busy == Some(active)
    {
      if Invariant(View()) {
        StepKeepsInvariant(View(), Return(generation));
      }
      if busy == Some(generation) {
        busy := None;
      }
      workers := workers[generation := Waiting];
    }

    method Probe() returns (idle: bool)
      requires Invariant(View())
      ensures idle == LaneIdle(View())
      ensures In(View(), active, Executing) ==> !idle
    {
      idle := busy != Some(active);
    }
  }
}
