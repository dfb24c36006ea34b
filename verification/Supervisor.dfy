/**
  * The recovery ladder: a request that outlives its deadline is recorded, the instances are reset and,
  * if that does not free the dispatch lane, a fresh generation is spawned and the mirror replayed into it.
  *
  * What the lanes answer (outcomes, statuses, whether the lane became idle in time) is given with each
  * request; everything else is computed.
  */
module Supervision {
  import opened Options
  import opened Words
  import opened Lookup
  import opened Slices
  import opened Mirror

  const STATUS_OK := 0
  const STATUS_INTERNAL := -6

  datatype DispatchOutcome = Done(reply: seq<byte>) | Status(code: int) | Wedged

  /** A status outcome is never the success status: that one is `Done`. */
  type Outcome = o: DispatchOutcome | o.Status? ==> o.code != STATUS_OK witness Wedged

  /** The answers a spawn gets: the control slot, the attach wait, and each replayed request. */
  datatype SpawnAnswers = SpawnAnswers(slot: int, attached: bool, replies: nat -> Outcome)

  /** One request with all the answers of the lanes to it. */
  datatype Event = Event(request: Request, outcome: Outcome, restart: int, idle: bool, spawn: SpawnAnswers)

  datatype PcError = RequestTimeout | Backend(code: int)

  datatype Advance = Spawned(generation: nat) | Fatal

  datatype State = State(
    plan: ReplayPlan,
    current: nat,
    abandoned: nat,
    max: nat,
    fatal: bool,
    spawned: seq<(nat, ReplayPlan)>) // the calls made to `spawn_generation`

  // ---------------------------------------------------------------------------
  // One request
  // ---------------------------------------------------------------------------

  /** Reply `j` is the first one that is not accepted, and it explains the status: a wedge is an internal error. */
  ghost predicate FailsAt(replies: nat -> Outcome, i: nat, j: nat, status: int) {
    && i <= j && (forall k | i <= k < j :: replies(k).Done?)
    && (replies(j) == Status(status) || (replies(j).Wedged? && status == STATUS_INTERNAL))
  }

  function ReplayStatus(n: nat, replies: nat -> Outcome, i: nat): (status: int)
    requires i <= n
    ensures status == STATUS_OK <==> forall j | i <= j < n :: replies(j).Done?
    decreases n - i
  {
    if i == n then STATUS_OK
    else
      match replies(i)
      case Done(_) => ReplayStatus(n, replies, i + 1)
      case Status(code) => code
      case Wedged => STATUS_INTERNAL
  }

  function SpawnStatus(plan: ReplayPlan, answers: SpawnAnswers): int {
    if answers.slot != STATUS_OK then answers.slot
    else if !answers.attached then STATUS_INTERNAL
    else ReplayStatus(|ReplayOf(plan)|, answers.replies, 0)
  }

  function Recover(s: State, e: Event): State {
    if e.restart != STATUS_OK then s.(fatal := true)
    else if e.idle then s
    else if s.abandoned >= s.max then s.(fatal := true)
    else s.(abandoned := s.abandoned + 1,
            current := s.current + 1,
            fatal := s.fatal || SpawnStatus(s.plan, e.spawn) != STATUS_OK,
            spawned := s.spawned + [(s.current + 1, s.plan)])
  }

  function Step(s: State, e: Event): State {
    match e.outcome
    case Done(_) => s.(plan := Observe(s.plan, e.request))
    case Status(_) => s
    case Wedged => Recover(s.(plan := Observe(s.plan, e.request)), e)
  }

  function Initial(max: nat): State {
    State(EMPTY, 0, 0, max, false, [])
  }

  function Run(max: nat, events: seq<Event>): State
    decreases |events|
  {
    if events == [] then Initial(max) else Step(Run(max, events[..|events| - 1]), events[|events| - 1])
  }

  // ---------------------------------------------------------------------------
  // What a run amounts to
  // ---------------------------------------------------------------------------

  /** The requests that ended `Done` or `Wedged`. */
  function Mirrored(events: seq<Event>): seq<Request>
    decreases |events|
  {
    if events == [] then []
    else
      var n := |events| - 1;
      Mirrored(events[..n]) + if events[n].outcome.Status? then [] else [events[n].request]
  }

  /** They are the requests of exactly those events, in order. */
  lemma {:induction false} MirroredMeans(events: seq<Event>)
    ensures ListsPicked(Mirrored(events), events, IsMirrored, IsRequestOf)
    decreases |events|
  {
    if events == [] {
      NothingPicked(IsMirrored, IsRequestOf);
    } else {
      var front, last := events[..|events| - 1], events[|events| - 1];
      assert front + [last] == events;
      MirroredMeans(front);
      MirroredStep(front, last);
      OneMoreMirrored(Mirrored(front), Mirrored(events), front, last);
    }
  }

  lemma OneMoreMirrored(h: seq<Request>, h': seq<Request>, events: seq<Event>, e: Event)
    requires ListsPicked(h, events, IsMirrored, IsRequestOf) && h' == h + if e.outcome.Status? then [] else [e.request]
    ensures ListsPicked(h', events + [e], IsMirrored, IsRequestOf)
  {
    ListsPickedNext(h, events, IsMirrored, IsRequestOf, e, e.request);
    if e.outcome.Status? {
      assert h' == h;
    }
  }

  predicate IsMirrored(e: Event) {
    e.outcome.Done? || e.outcome.Wedged?
  }

  predicate IsRequestOf(r: Request, e: Event) {
    r == e.request
  }

  /** A wedge that resetting the instances did not resolve. */
  predicate Stuck(e: Event) {
    e.outcome.Wedged? && e.restart == STATUS_OK && !e.idle
  }

  /** When they happened. */
  function StuckAt(events: seq<Event>): (at: seq<nat>)
    ensures forall k | 0 <= k < |at| :: at[k] < |events|
    decreases |events|
  {
    if events == [] then []
    else
      var n := |events| - 1;
      StuckAt(events[..n]) + if Stuck(events[n]) then [n] else []
  }

  lemma {:induction false} StuckAtMeans(events: seq<Event>)
    ensures var at := StuckAt(events);
            && (forall k, l | 0 <= k < l < |at| :: at[k] < at[l])
            && (forall i | 0 <= i < |events| :: Stuck(events[i]) <==> i in at)
    decreases |events|
  {
    if events != [] {
      var n := |events| - 1;
      StuckAtMeans(events[..n]);
      assert forall i | 0 <= i < n :: events[i] == events[..n][i];
    }
  }

  /** The mirror right after event `i` was observed. */
  function PlanAt(events: seq<Event>, i: nat): ReplayPlan
    requires i < |events|
  {
    Fold(Mirrored(events[..i + 1]))
  }

  /** The wedges that leave the island beyond recovery. */
  predicate Loses(max: nat, events: seq<Event>, i: nat)
    requires i < |events|
  {
    var e := events[i];
    e.outcome.Wedged?
    && (|| e.restart != STATUS_OK
        || (!e.idle && |StuckAt(events[..i])| >= max)
        || (!e.idle && SpawnStatus(PlanAt(events, i), e.spawn) != STATUS_OK))
  }

  lemma MirroredStep(events: seq<Event>, e: Event)
    ensures Mirrored(events + [e]) == Mirrored(events) + if e.outcome.Status? then [] else [e.request]
    ensures StuckAt(events + [e]) == StuckAt(events) + if Stuck(e) then [|events|] else []
  {
    assert (events + [e])[..|events|] == events;
  }

  lemma FoldStep(h: seq<Request>, r: Request)
    ensures Fold(h + [r]) == Observe(Fold(h), r)
  {
    assert (h + [r])[..|h|] == h;
  }

  lemma PlanAtPrefix(events: seq<Event>, e: Event, i: nat)
    requires i < |events|
    ensures PlanAt(events + [e], i) == PlanAt(events, i)
  {
    assert (events + [e])[..i + 1] == events[..i + 1];
  }

  lemma LosesPrefix(max: nat, events: seq<Event>, e: Event, i: nat)
    requires i < |events|
    ensures Loses(max, events + [e], i) <==> Loses(max, events, i)
  {
    assert (events + [e])[..i] == events[..i];
    PlanAtPrefix(events, e, i);
  }

  /** Whether the island is lost after one more event. */
  lemma FatalStep(max: nat, events: seq<Event>, e: Event)
    ensures (exists i | 0 <= i < |events + [e]| :: Loses(max, events + [e], i)) <==>
            (exists i | 0 <= i < |events| :: Loses(max, events, i)) || Loses(max, events + [e], |events|)
  {
    forall i | 0 <= i < |events| ensures Loses(max, events + [e], i) <==> Loses(max, events, i) {
      LosesPrefix(max, events, e, i);
    }
    if i :| 0 <= i < |events| && Loses(max, events, i) {
      assert Loses(max, events + [e], i);
    }
  }

  /** The mirror after one more event. */
  function Observed(plan: ReplayPlan, e: Event): ReplayPlan {
    if e.outcome.Status? then plan else Observe(plan, e.request)
  }

  lemma FoldOptional(h: seq<Request>, h': seq<Request>, e: Event)
    requires h' == h + if e.outcome.Status? then [] else [e.request]
    ensures Fold(h') == Observed(Fold(h), e)
  {
    if e.outcome.Status? {
      assert h' == h;
    } else {
      FoldStep(h, e.request);
    }
  }

  lemma FullPlan(events: seq<Event>)
    requires events != []
    ensures PlanAt(events, |events| - 1) == Fold(Mirrored(events))
  {
    assert events[..|events|] == events;
  }

  lemma PlanStep(events: seq<Event>, e: Event)
    ensures Fold(Mirrored(events + [e])) == Observed(Fold(Mirrored(events)), e)
    ensures PlanAt(events + [e], |events|) == Fold(Mirrored(events + [e]))
  {
    MirroredStep(events, e);
    FoldOptional(Mirrored(events), Mirrored(events + [e]), e);
    FullPlan(events + [e]);
  }

  lemma LosesLast(max: nat, events: seq<Event>, e: Event)
    ensures Loses(max, events + [e], |events|) <==>
            e.outcome.Wedged?
            && (|| e.restart != STATUS_OK
                || (!e.idle && |StuckAt(events)| >= max)
                || (!e.idle && SpawnStatus(Fold(Mirrored(events + [e])), e.spawn) != STATUS_OK))
  {
    PlanStep(events, e);
    assert (events + [e])[..|events|] == events;
  }

  ghost predicate ExplainsSpawns(max: nat, events: seq<Event>, s: State) {
    var at := StuckAt(events);
    && s.max == max
    && s.current == s.abandoned == |s.spawned| == (if |at| < max then |at| else max)
    && HandedAt(events, at, s.spawned)
  }

  /** Generation `k + 1` was handed the mirror right after event `at[k]`. */
  ghost predicate HandedAt(events: seq<Event>, at: seq<nat>, spawned: seq<(nat, ReplayPlan)>) {
    && |spawned| <= |at|
    && (forall k | 0 <= k < |spawned| :: at[k] < |events| && spawned[k] == (k + 1, PlanAt(events, at[k])))
  }

  lemma HandedPrefix(events: seq<Event>, e: Event, at: seq<nat>, more: seq<nat>, spawned: seq<(nat, ReplayPlan)>)
    requires HandedAt(events, at, spawned)
    ensures HandedAt(events + [e], at + more, spawned)
  {
    forall k | 0 <= k < |spawned| ensures spawned[k] == (k + 1, PlanAt(events + [e], (at + more)[k])) {
      PlanAtPrefix(events, e, at[k]);
    }
  }

  lemma HandedNext(events: seq<Event>, at: seq<nat>, spawned: seq<(nat, ReplayPlan)>, i: nat)
    requires |at| == |spawned| && HandedAt(events, at, spawned) && i < |events|
    ensures HandedAt(events, at + [i], spawned + [(|spawned| + 1, PlanAt(events, i))])
  {
  }

  ghost predicate ExplainsFatal(max: nat, events: seq<Event>, s: State) {
    s.fatal <==> exists i | 0 <= i < |events| :: Loses(max, events, i)
  }

  /** What one event does to the parts of the state, in terms of the mirror after it. */
  lemma StepParts(s: State, e: Event)
    ensures var t, plan := Step(s, e), Observed(s.plan, e);
            && t.plan == plan && t.max == s.max
            && (if Stuck(e) && s.abandoned < s.max
                then t.current == s.current + 1 && t.abandoned == s.abandoned + 1 && t.spawned == s.spawned + [(s.current + 1, plan)]
                else t.current == s.current && t.abandoned == s.abandoned && t.spawned == s.spawned)
            && (t.fatal <==> s.fatal ||
                             (e.outcome.Wedged?
                              && (|| e.restart != STATUS_OK
                                  || (!e.idle && s.abandoned >= s.max)
                                  || (!e.idle && SpawnStatus(plan, e.spawn) != STATUS_OK))))
  {
  }

  /** The spawn log after one more event, from the effects of that event alone. */
  lemma SpawnsNext(max: nat, events: seq<Event>, at: seq<nat>, at': seq<nat>, s: State, t: State, e: Event, plan: ReplayPlan)
    requires s.max == max && s.current == s.abandoned == |s.spawned| == (if |at| < max then |at| else max)
    requires HandedAt(events, at, s.spawned) && plan == PlanAt(events + [e], |events|)
    requires at' == at + if Stuck(e) then [|events|] else []
    requires if Stuck(e) && s.abandoned < max
             then t.current == s.current + 1 && t.abandoned == s.abandoned + 1 && t.spawned == s.spawned + [(s.current + 1, plan)]
             else t.current == s.current && t.abandoned == s.abandoned && t.spawned == s.spawned
    ensures t.current == t.abandoned == |t.spawned| == (if |at'| < max then |at'| else max)
    ensures HandedAt(events + [e], at', t.spawned)
  {
    if Stuck(e) && s.abandoned < max {
      HandedPrefix(events, e, at, [], s.spawned);
      assert at + [] == at;
      HandedNext(events + [e], at, s.spawned, |events|);
    } else {
      HandedPrefix(events, e, at, if Stuck(e) then [|events|] else [], s.spawned);
    }
  }

  lemma StepSpawns(max: nat, events: seq<Event>, s: State, e: Event)
    requires ExplainsSpawns(max, events, s) && s.plan == Fold(Mirrored(events))
    ensures ExplainsSpawns(max, events + [e], Step(s, e))
  {
    MirroredStep(events, e);
    PlanStep(events, e);
    StepParts(s, e);
    SpawnsNext(max, events, StuckAt(events), StuckAt(events + [e]), s, Step(s, e), e, Observed(s.plan, e));
  }

  lemma StepFatal(max: nat, events: seq<Event>, s: State, e: Event)
    requires ExplainsFatal(max, events, s) && s.plan == Fold(Mirrored(events))
    requires s.max == max && (s.abandoned >= max <==> |StuckAt(events)| >= max)
    ensures ExplainsFatal(max, events + [e], Step(s, e))
  {
    PlanStep(events, e);
    StepParts(s, e);
    FatalStep(max, events, e);
    LosesLast(max, events, e);
  }

  ghost predicate Explained(max: nat, events: seq<Event>, s: State) {
    s.plan == Fold(Mirrored(events)) && ExplainsSpawns(max, events, s) && ExplainsFatal(max, events, s)
  }

  lemma StepExplained(max: nat, events: seq<Event>, s: State, e: Event)
    requires Explained(max, events, s)
    ensures Explained(max, events + [e], Step(s, e))
  {
    StepSpawns(max, events, s, e);
    StepFatal(max, events, s, e);
    PlanStep(events, e);
    StepParts(s, e);
  }

  /** Over every run: the mirror is the fold of exactly the requests that ended `Done` or `Wedged`; the
      generations spawned are 1, 2, ... up to the cap, one for each unresolved wedge and each with the
      mirror of that moment, the wedged request included; and `fatal` says whether some wedge was lost. */
  lemma {:induction false} RunExplained(max: nat, events: seq<Event>)
    ensures Explained(max, events, Run(max, events))
    decreases |events|
  {
    if events != [] {
      var n := |events| - 1;
      RunExplained(max, events[..n]);
      StepExplained(max, events[..n], Run(max, events[..n]), events[n]);
      assert events[..n] + [events[n]] == events;
    }
  }

  /** Every plan handed to a generation rebuilds, from nothing, the targets and buffers it came from. */
  lemma SpawnedPlansReplay(max: nat, events: seq<Event>, k: nat)
    requires k < |Run(max, events).spawned|
    ensures var (generation, plan) := Run(max, events).spawned[k];
            && generation == k + 1 <= max && k < |StuckAt(events)|
            && Fold(ReplayOf(plan)) == plan == PlanAt(events, StuckAt(events)[k])
  {
    RunExplained(max, events);
    ReplayRebuilds(Mirrored(events[..StuckAt(events)[k] + 1]));
  }

  lemma {:induction false} FatalNeverClears(max: nat, events: seq<Event>, n: nat)
    requires n <= |events| && Run(max, events[..n]).fatal
    ensures Run(max, events).fatal
    decreases |events|
  {
    var m := |events| - 1;
    if n < |events| {
      assert events[..m][..n] == events[..n];
      FatalNeverClears(max, events[..m], n);
    } else {
      assert events[..n] == events;
    }
  }

  // ---------------------------------------------------------------------------
  // The objects
  // ---------------------------------------------------------------------------

  class GenerationState {
    var current: nat
    var abandoned: nat
    const max: nat

    constructor (max: nat)
      ensures this.current == 0 && this.abandoned == 0 && this.max == max
    {
      this.current, this.abandoned, this.max := 0, 0, max;
    }

    method Advance() returns (r: Advance)
      modifies this
      ensures old(abandoned) >= max ==> r == Fatal && current == old(current) && abandoned == old(abandoned)
      ensures old(abandoned) < max ==>
                r == Spawned(current) && current == old(current) + 1 && abandoned == old(abandoned) + 1 <= max
    {
      if abandoned >= max {
        return Fatal;
      }
      abandoned := abandoned + 1;
      current := current + 1;
      r := Spawned(current);
    }
  }

  /** Sends requests until one is not accepted. */
  method Replay(requests: seq<Request>, replies: nat -> Outcome) returns (status: int, accepted: seq<Request>)
    ensures status == ReplayStatus(|requests|, replies, 0)
    ensures accepted <= requests && forall j | 0 <= j < |accepted| :: replies(j).Done?
    ensures if status == STATUS_OK then accepted == requests
            else |accepted| < |requests| && FailsAt(replies, 0, |accepted|, status)
  {
    accepted := [];
    var i := 0;
    while i < |requests|
      invariant i <= |requests| && accepted == requests[..i]
      invariant forall j | 0 <= j < i :: replies(j).Done?
      invariant ReplayStatus(|requests|, replies, 0) == ReplayStatus(|requests|, replies, i)
      decreases |requests| - i
    {
      match replies(i) {
        case Done(_) => accepted := accepted + [requests[i]];
        case Status(code) => return code, accepted;
        case Wedged => return STATUS_INTERNAL, accepted;
      }
      i := i + 1;
    }
    return STATUS_OK, accepted;
  }

  /** Stages the generation and replays the plan, stopping at the first request that is not accepted.
      A generation that is accepted holds the whole plan. */
  method SpawnGeneration(plan: ReplayPlan, answers: SpawnAnswers) returns (status: int, accepted: seq<Request>)
    ensures status == SpawnStatus(plan, answers)
    ensures accepted <= ReplayOf(plan)
    ensures forall j | 0 <= j < |accepted| :: answers.replies(j).Done?
    ensures answers.slot != STATUS_OK ==> status == answers.slot && accepted == []
    ensures answers.slot == STATUS_OK && !answers.attached ==> status == STATUS_INTERNAL && accepted == []
    ensures answers.slot == STATUS_OK && answers.attached && status != STATUS_OK ==>
              |accepted| < |ReplayOf(plan)| && FailsAt(answers.replies, 0, |accepted|, status)
    ensures status == STATUS_OK ==> accepted == ReplayOf(plan)
    ensures status == STATUS_OK && Distinct(TargetIds(plan.targets)) && Distinct(BufferUris(plan.buffers)) ==>
              Fold(accepted) == plan
  {
    if answers.slot != STATUS_OK {
      return answers.slot, [];
    }
    if !answers.attached {
      return STATUS_INTERNAL, [];
    }
    var requests := ReplayRequests(plan);
    status, accepted := Replay(requests, answers.replies);
    if status == STATUS_OK && Distinct(TargetIds(plan.targets)) && Distinct(BufferUris(plan.buffers)) {
      ReplayPrefix(plan, |requests|);
      assert requests[..|requests|] == requests;
    }
  }

  class Supervisor {
    const mirror: TargetMirror
    const generations: GenerationState
    var fatal: bool
    var spawned: seq<(nat, ReplayPlan)>

    ghost function View(): State
      reads this, mirror, generations
    {
      State(mirror.Plan(), generations.current, generations.abandoned, generations.max, fatal, spawned)
    }

    constructor (max: nat)
      ensures View() == Run(max, [])
      ensures fresh(mirror) && fresh(generations)
    {
      mirror := new TargetMirror();
      generations := new GenerationState(max);
      fatal, spawned := false, [];
    }

    /** Mirrors the lifecycle effect of a request; queries have none. */
    method Mirror(request: Request)
      modifies mirror
      ensures mirror.Plan() == Observe(old(mirror.Plan()), request)
    {
      match request
      case RegisterTarget(id, config) => mirror.Register(id, config);
      case DidOpen(targetId, uri, text) => mirror.Open(targetId, uri, text);
      case DidChange(uri, text) => mirror.Change(uri, text);
      case DidClose(uri) => mirror.Close(uri);
      case _ =>
    }

    method Ladder(e: Event)
      modifies this, generations
      ensures View() == Recover(old(View()), e)
    {
      if e.restart != STATUS_OK {
        fatal := true;
        return;
      }
      if e.idle {
        return;
      }
      var advance := generations.Advance();
      match advance
      case Spawned(generation) =>
        var plan := mirror.Plan();
        spawned := spawned + [(generation, plan)];
        var status, _ := SpawnGeneration(plan, e.spawn);
        if status != STATUS_OK {
          fatal := true;
        }
      case Fatal =>
        fatal := true;
    }

    method Request(e: Event) returns (r: Result<seq<byte>, PcError>)
      modifies this, mirror, generations
      ensures View() == Step(old(View()), e)
      ensures forall max, events | old(View()) == Run(max, events) :: View() == Run(max, events + [e])
      ensures r == match e.outcome
                   case Done(reply) => Ok(reply)
                   case Status(code) => Err(Backend(code))
                   case Wedged => Err(RequestTimeout)
    {
      forall max, events ensures Run(max, events + [e]) == Step(Run(max, events), e) {
        assert (events + [e])[..|events|] == events;
      }
      match e.outcome
      case Done(reply) =>
        Mirror(e.request);
        r := Ok(reply);
      case Status(code) =>
        r := Err(Backend(code));
      case Wedged =>
        Mirror(e.request);
        Ladder(e);
        r := Err(RequestTimeout);
    }
  }
}
