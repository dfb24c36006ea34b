/**
  * The replay mirror: registered targets and open buffers, kept in order so that a fresh dispatch
  * generation can be rebuilt from them.
  */
module Mirror {
  import opened Options
  import opened Lookup

  datatype TargetConfig = TargetConfig(
    bspId: string,
    scalaVersion: string,
    classpath: seq<string>,
    scalacOptions: seq<string>,
    sourceDirs: seq<string>)

  /** Lifecycle requests and queries; what a query carries is nothing to the mirror. */
  datatype Request =
    | RegisterTarget(id: string, config: TargetConfig)
    | DidOpen(targetId: string, uri: string, text: string)
    | DidChange(uri: string, text: string)
    | DidClose(uri: string)
    | Query
    | PayloadQuery
    | Resolve

  datatype OpenBuffer = OpenBuffer(targetId: string, uri: string, text: string)

  datatype ReplayPlan = ReplayPlan(targets: seq<(string, TargetConfig)>, buffers: seq<OpenBuffer>)

  const EMPTY := ReplayPlan([], [])

  // ---------------------------------------------------------------------------
  // One request, as an update of the two lists
  // ---------------------------------------------------------------------------

  function TargetIds(targets: seq<(string, TargetConfig)>): seq<string> {
    seq(|targets|, i requires 0 <= i < |targets| => targets[i].0)
  }

  function BufferUris(buffers: seq<OpenBuffer>): seq<string> {
    seq(|buffers|, i requires 0 <= i < |buffers| => buffers[i].uri)
  }

  function Without(buffers: seq<OpenBuffer>, uri: string): seq<OpenBuffer>
    decreases |buffers|
  {
    if buffers == [] then []
    else
      var last := buffers[|buffers| - 1];
      Without(buffers[..|buffers| - 1], uri) + if last.uri == uri then [] else [last]
  }

  function Observe(p: ReplayPlan, request: Request): ReplayPlan {
    match request
    case RegisterTarget(id, config) =>
      (match Find(TargetIds(p.targets), id)
       case Some(i) => p.(targets := p.targets[i := (id, config)])
       case None => p.(targets := p.targets + [(id, config)]))
    case DidOpen(targetId, uri, text) =>
      (match Find(BufferUris(p.buffers), uri)
       case Some(i) => p.(buffers := p.buffers[i := OpenBuffer(targetId, uri, text)])
       case None => p.(buffers := p.buffers + [OpenBuffer(targetId, uri, text)]))
    case DidChange(uri, text) =>
      (match Find(BufferUris(p.buffers), uri)
       case Some(i) => p.(buffers := p.buffers[i := p.buffers[i].(text := text)])
       case None => p)
    case DidClose(uri) => p.(buffers := Without(p.buffers, uri))
    case _ => p
  }

  /** The mirror after a history of observed requests. */
  function Fold(h: seq<Request>): ReplayPlan
    decreases |h|
  {
    if h == [] then EMPTY else Observe(Fold(h[..|h| - 1]), h[|h| - 1])
  }

  // ---------------------------------------------------------------------------
  // What the history says about one key, without any list
  // ---------------------------------------------------------------------------

  datatype Kind = Target | Buffer

  predicate Opens(kind: Kind, r: Request, key: string) {
    match kind
    case Target => r.RegisterTarget? && r.id == key
    case Buffer => r.DidOpen? && r.uri == key
  }

  predicate Closes(kind: Kind, r: Request, key: string) {
    kind.Buffer? && r.DidClose? && r.uri == key
  }

  /** When the key was opened, if it is open. */
  function OpenedAt(kind: Kind, h: seq<Request>, key: string): (r: Option<nat>)
    ensures r.Some? ==> r.value < |h|
    decreases |h|
  {
    if h == [] then None
    else
      var n := |h| - 1;
      var before := OpenedAt(kind, h[..n], key);
      if Closes(kind, h[n], key) then None
      else if before.Some? then before
      else if Opens(kind, h[n], key) then Some(n)
      else None
  }

  /** It is the first opening since the last closing, and a key that is not open has none. */
  lemma {:induction false} OpenedAtMeans(kind: Kind, h: seq<Request>, key: string)
    ensures var r := OpenedAt(kind, h, key);
            && (r.Some? ==>
                  && Opens(kind, h[r.value], key)
                  && (forall j | r.value < j < |h| :: !Closes(kind, h[j], key))
                  && (forall j | 0 <= j < r.value && Opens(kind, h[j], key) ::
                        exists k | j < k < r.value :: Closes(kind, h[k], key)))
            && (r.None? ==>
                  forall j | 0 <= j < |h| && Opens(kind, h[j], key) :: exists k | j < k < |h| :: Closes(kind, h[k], key))
    decreases |h|
  {
    if h != [] {
      var n := |h| - 1;
      OpenedAtMeans(kind, h[..n], key);
      assert forall j | 0 <= j < n :: h[..n][j] == h[j];
    }
  }

  datatype Aspect = ConfigOf | OwnerOf | TextOf

  predicate Sets(aspect: Aspect, r: Request, key: string) {
    match aspect
    case ConfigOf => Opens(Target, r, key)
    case OwnerOf => Opens(Buffer, r, key)
    case TextOf => Opens(Buffer, r, key) || (r.DidChange? && r.uri == key)
  }

  /** The last request that set an aspect of a key. */
  function Latest(aspect: Aspect, h: seq<Request>, key: string): (r: Option<nat>)
    ensures r.Some? ==> r.value < |h| && Sets(aspect, h[r.value], key)
    decreases |h|
  {
    if h == [] then None
    else if Sets(aspect, h[|h| - 1], key) then Some(|h| - 1)
    else Latest(aspect, h[..|h| - 1], key)
  }

  lemma {:induction false} LatestMeans(aspect: Aspect, h: seq<Request>, key: string)
    ensures var r := Latest(aspect, h, key);
            && (r.Some? ==> forall j | r.value < j < |h| :: !Sets(aspect, h[j], key))
            && (r.None? ==> forall j | 0 <= j < |h| :: !Sets(aspect, h[j], key))
    decreases |h|
  {
    if h != [] {
      LatestMeans(aspect, h[..|h| - 1], key);
      assert forall j | 0 <= j < |h| - 1 :: h[..|h| - 1][j] == h[j];
    }
  }

  function Openings(kind: Kind, h: seq<Request>): string -> Option<nat> {
    key => OpenedAt(kind, h, key)
  }

  /** The keys are exactly those that are open, in the order in which they were opened. */
  ghost predicate InOpenOrder(kind: Kind, h: seq<Request>, keys: seq<string>) {
    OrderedBy(Openings(kind, h), keys)
  }

  ghost predicate LatestTarget(h: seq<Request>, target: (string, TargetConfig)) {
    var config := Latest(ConfigOf, h, target.0);
    config.Some? && target.1 == h[config.value].config
  }

  ghost predicate LatestBuffer(h: seq<Request>, b: OpenBuffer) {
    var owner, text := Latest(OwnerOf, h, b.uri), Latest(TextOf, h, b.uri);
    && owner.Some? && b.targetId == h[owner.value].targetId
    && text.Some? && b.text == h[text.value].text
  }

  ghost predicate HoldsLatest(h: seq<Request>, p: ReplayPlan) {
    && (forall i | 0 <= i < |p.targets| :: LatestTarget(h, p.targets[i]))
    && (forall i | 0 <= i < |p.buffers| :: LatestBuffer(h, p.buffers[i]))
  }

  /** Where the buffers that are kept come from. */
  function KeptAt(buffers: seq<OpenBuffer>, uri: string): (at: seq<nat>)
    ensures forall i | 0 <= i < |at| :: at[i] < |buffers|
    decreases |buffers|
  {
    if buffers == [] then []
    else
      var n := |buffers| - 1;
      KeptAt(buffers[..n], uri) + if buffers[n].uri == uri then [] else [n]
  }

  lemma {:induction false} KeptAscend(buffers: seq<OpenBuffer>, uri: string)
    ensures Ascending(KeptAt(buffers, uri))
    decreases |buffers|
  {
    if buffers != [] {
      var n := |buffers| - 1;
      var front := KeptAt(buffers[..n], uri);
      KeptAscend(buffers[..n], uri);
      AscendingNext(front, n);
      assert front + [] == front;
    }
  }

  lemma {:induction false} KeptAreThese(buffers: seq<OpenBuffer>, uri: string)
    ensures var at, kept := KeptAt(buffers, uri), Without(buffers, uri);
            |at| == |kept| && forall i | 0 <= i < |at| :: kept[i] == buffers[at[i]] && kept[i].uri != uri
    decreases |buffers|
  {
    if buffers != [] {
      KeptAreThese(buffers[..|buffers| - 1], uri);
    }
  }

  lemma {:induction false} KeptHas(buffers: seq<OpenBuffer>, uri: string, k: nat) returns (i: nat)
    requires k < |buffers| && buffers[k].uri != uri
    ensures i < |KeptAt(buffers, uri)| && KeptAt(buffers, uri)[i] == k
    decreases |buffers|
  {
    var n := |buffers| - 1;
    if k < n {
      i := KeptHas(buffers[..n], uri, k);
    } else {
      i := |KeptAt(buffers[..n], uri)|;
    }
  }

  /** A subsequence: each element, in order, and none left out. */
  lemma WithoutIsSubsequence(buffers: seq<OpenBuffer>, uri: string) returns (at: seq<nat>)
    ensures var kept := Without(buffers, uri);
            && |at| == |kept|
            && (forall i | 0 <= i < |at| :: at[i] < |buffers| && kept[i] == buffers[at[i]] && kept[i].uri != uri)
            && (forall i, j | 0 <= i < j < |at| :: at[i] < at[j])
            && (forall k | 0 <= k < |buffers| && buffers[k].uri != uri :: exists i | 0 <= i < |at| :: at[i] == k)
  {
    at := KeptAt(buffers, uri);
    KeptAscend(buffers, uri);
    KeptAreThese(buffers, uri);
    forall k | 0 <= k < |buffers| && buffers[k].uri != uri ensures exists i | 0 <= i < |at| :: at[i] == k {
      var i := KeptHas(buffers, uri, k);
    }
  }

  lemma Opened(kind: Kind, h: seq<Request>, r: Request, key: string)
    ensures var before, after := OpenedAt(kind, h, key), OpenedAt(kind, h + [r], key);
            after == if Closes(kind, r, key) then None
                     else if before.Some? then before
                     else if Opens(kind, r, key) then Some(|h|)
                     else None
  {
    assert (h + [r])[..|h|] == h;
  }

  lemma Set(aspect: Aspect, h: seq<Request>, r: Request, key: string)
    ensures Latest(aspect, h + [r], key) == if Sets(aspect, r, key) then Some(|h|) else Latest(aspect, h, key)
  {
    assert (h + [r])[..|h|] == h;
  }

  lemma RemoveKeepsOrder(before: string -> Option<nat>, after: string -> Option<nat>, buffers: seq<OpenBuffer>, uri: string)
    requires OrderedBy(before, BufferUris(buffers))
    requires forall k :: after(k) == if k == uri then None else before(k)
    ensures OrderedBy(after, BufferUris(Without(buffers, uri)))
  {
    var keys, next := BufferUris(buffers), BufferUris(Without(buffers, uri));
    var at := WithoutIsSubsequence(buffers, uri);
    assert forall i | 0 <= i < |next| :: next[i] == keys[at[i]];
    forall k | after(k).Some? ensures Has(next, k) {
      var j :| 0 <= j < |keys| && keys[j] == k;
      assert buffers[j].uri == k;
      var i :| 0 <= i < |at| && at[i] == j;
      assert next[i] == k;
    }
  }

  /** Keys after a request that opens one: unchanged if it is there already, else at the end. */
  lemma OpeningKeepsOrder(kind: Kind, h: seq<Request>, r: Request, keys: seq<string>, key: string)
    requires InOpenOrder(kind, h, keys) && Opens(kind, r, key)
    ensures InOpenOrder(kind, h + [r], WithKey(keys, key))
  {
    var before, after := Openings(kind, h), Openings(kind, h + [r]);
    forall k ensures after(k) == if before(k).None? && k == key then Some(|h|) else before(k) {
      Opened(kind, h, r, k);
    }
    if Has(keys, key) {
      SameOrder(before, after, keys);
    } else {
      AppendKeepsOrder(before, after, keys, key, |h|);
    }
  }

  lemma ClosingKeepsOrder(h: seq<Request>, buffers: seq<OpenBuffer>, uri: string)
    requires InOpenOrder(Buffer, h, BufferUris(buffers))
    ensures InOpenOrder(Buffer, h + [DidClose(uri)], BufferUris(Without(buffers, uri)))
  {
    var before, after := Openings(Buffer, h), Openings(Buffer, h + [DidClose(uri)]);
    forall k ensures after(k) == if k == uri then None else before(k) {
      Opened(Buffer, h, DidClose(uri), k);
    }
    RemoveKeepsOrder(before, after, buffers, uri);
  }

  lemma OtherKeepsOrder(kind: Kind, h: seq<Request>, r: Request, keys: seq<string>)
    requires InOpenOrder(kind, h, keys) && (forall key :: !Opens(kind, r, key) && !Closes(kind, r, key))
    ensures InOpenOrder(kind, h + [r], keys)
  {
    var before, after := Openings(kind, h), Openings(kind, h + [r]);
    forall k ensures after(k) == before(k) {
      Opened(kind, h, r, k);
    }
    SameOrder(before, after, keys);
  }

  lemma ObservedIds(p: ReplayPlan, r: Request)
    ensures TargetIds(Observe(p, r).targets)
            == if r.RegisterTarget? then WithKey(TargetIds(p.targets), r.id) else TargetIds(p.targets)
  {
  }

  lemma ObservedUris(p: ReplayPlan, r: Request)
    requires !r.DidClose?
    ensures BufferUris(Observe(p, r).buffers)
            == if r.DidOpen? then WithKey(BufferUris(p.buffers), r.uri) else BufferUris(p.buffers)
  {
  }

  lemma ObserveTargets(h: seq<Request>, p: ReplayPlan, r: Request)
    requires InOpenOrder(Target, h, TargetIds(p.targets))
    ensures InOpenOrder(Target, h + [r], TargetIds(Observe(p, r).targets))
  {
    ObservedIds(p, r);
    if r.RegisterTarget? {
      OpeningKeepsOrder(Target, h, r, TargetIds(p.targets), r.id);
    } else {
      OtherKeepsOrder(Target, h, r, TargetIds(p.targets));
    }
  }

  lemma ObserveBuffers(h: seq<Request>, p: ReplayPlan, r: Request)
    requires InOpenOrder(Buffer, h, BufferUris(p.buffers))
    ensures InOpenOrder(Buffer, h + [r], BufferUris(Observe(p, r).buffers))
  {
    if r.DidClose? {
      ClosingKeepsOrder(h, p.buffers, r.uri);
    } else {
      ObservedUris(p, r);
      if r.DidOpen? {
        OpeningKeepsOrder(Buffer, h, r, BufferUris(p.buffers), r.uri);
      } else {
        OtherKeepsOrder(Buffer, h, r, BufferUris(p.buffers));
      }
    }
  }

  lemma TargetStays(h: seq<Request>, r: Request, target: (string, TargetConfig))
    requires LatestTarget(h, target) && !Sets(ConfigOf, r, target.0)
    ensures LatestTarget(h + [r], target)
  {
    Set(ConfigOf, h, r, target.0);
  }

  lemma BufferStays(h: seq<Request>, r: Request, b: OpenBuffer)
    requires LatestBuffer(h, b) && !Sets(TextOf, r, b.uri)
    ensures LatestBuffer(h + [r], b)
  {
    Set(OwnerOf, h, r, b.uri);
    Set(TextOf, h, r, b.uri);
  }

  lemma TargetSet(h: seq<Request>, r: Request)
    requires r.RegisterTarget?
    ensures LatestTarget(h + [r], (r.id, r.config))
  {
    Set(ConfigOf, h, r, r.id);
  }

  lemma BufferSet(h: seq<Request>, r: Request, b: OpenBuffer)
    requires (r.DidOpen? && b == OpenBuffer(r.targetId, r.uri, r.text)) || (r.DidChange? && LatestBuffer(h, b))
    requires r.DidChange? ==> r.uri == b.uri
    ensures LatestBuffer(h + [r], b.(text := r.text))
  {
    Set(OwnerOf, h, r, b.uri);
    Set(TextOf, h, r, b.uri);
  }

  lemma ObserveTargetContents(h: seq<Request>, p: ReplayPlan, r: Request)
    requires HoldsLatest(h, p) && Distinct(TargetIds(p.targets))
    ensures var q := Observe(p, r); forall i | 0 <= i < |q.targets| :: LatestTarget(h + [r], q.targets[i])
  {
    var q, ids := Observe(p, r), TargetIds(p.targets);
    forall i | 0 <= i < |q.targets| ensures LatestTarget(h + [r], q.targets[i]) {
      if r.RegisterTarget? && (i == |ids| || ids[i] == r.id) {
        TargetSet(h, r);
      } else {
        TargetStays(h, r, p.targets[i]);
      }
    }
  }

  lemma ObserveBufferContents(h: seq<Request>, p: ReplayPlan, r: Request)
    requires HoldsLatest(h, p) && Distinct(BufferUris(p.buffers))
    ensures var q := Observe(p, r); forall i | 0 <= i < |q.buffers| :: LatestBuffer(h + [r], q.buffers[i])
  {
    var q, uris := Observe(p, r), BufferUris(p.buffers);
    var at: seq<nat> := [];
    if r.DidClose? {
      at := WithoutIsSubsequence(p.buffers, r.uri);
    }
    forall i | 0 <= i < |q.buffers| ensures LatestBuffer(h + [r], q.buffers[i]) {
      if r.DidClose? {
        BufferStays(h, r, p.buffers[at[i]]);
      } else if r.DidOpen? && (i == |uris| || uris[i] == r.uri) {
        BufferSet(h, r, OpenBuffer(r.targetId, r.uri, r.text));
      } else if r.DidChange? && uris[i] == r.uri {
        BufferSet(h, r, p.buffers[i]);
      } else {
        BufferStays(h, r, p.buffers[i]);
      }
    }
  }

  /** The mirror is what the history says: every registered target with its last configuration, in order
      of first registration, and every open buffer with its last target and text, in order of opening. */
  ghost predicate ReflectsHistory(h: seq<Request>, p: ReplayPlan) {
    && InOpenOrder(Target, h, TargetIds(p.targets))
    && InOpenOrder(Buffer, h, BufferUris(p.buffers))
    && HoldsLatest(h, p)
    && Distinct(TargetIds(p.targets)) && Distinct(BufferUris(p.buffers))
  }

  lemma ObserveReflects(h: seq<Request>, p: ReplayPlan, r: Request)
    requires ReflectsHistory(h, p)
    ensures ReflectsHistory(h + [r], Observe(p, r))
  {
    ObserveTargets(h, p, r);
    ObserveBuffers(h, p, r);
    ObserveTargetContents(h, p, r);
    ObserveBufferContents(h, p, r);
    OrderedIsDistinct(Openings(Target, h + [r]), TargetIds(Observe(p, r).targets));
    OrderedIsDistinct(Openings(Buffer, h + [r]), BufferUris(Observe(p, r).buffers));
  }

  lemma {:induction false} MirrorReflectsHistory(h: seq<Request>)
    ensures ReflectsHistory(h, Fold(h))
    decreases |h|
  {
    if h != [] {
      var before, r := h[..|h| - 1], h[|h| - 1];
      assert before + [r] == h;
      MirrorReflectsHistory(before);
      ObserveReflects(before, Fold(before), r);
    }
  }

  // ---------------------------------------------------------------------------
  // Replay
  // ---------------------------------------------------------------------------

  function ReplayOf(p: ReplayPlan): seq<Request> {
    seq(|p.targets|, i requires 0 <= i < |p.targets| => RegisterTarget(p.targets[i].0, p.targets[i].1))
    + seq(|p.buffers|, i requires 0 <= i < |p.buffers| => DidOpen(p.buffers[i].targetId, p.buffers[i].uri, p.buffers[i].text))
  }

  /** Registers every target, then opens every buffer. */
  method ReplayRequests(replay: ReplayPlan) returns (requests: seq<Request>)
    ensures requests == ReplayOf(replay)
    ensures |requests| == |replay.targets| + |replay.buffers|
    ensures forall i | 0 <= i < |replay.targets| ::
              requests[i] == RegisterTarget(replay.targets[i].0, replay.targets[i].1)
    ensures forall i | 0 <= i < |replay.buffers| ::
              var b := replay.buffers[i]; requests[|replay.targets| + i] == DidOpen(b.targetId, b.uri, b.text)
  {
    requests := [];
    for i := 0 to |replay.targets|
      invariant requests == ReplayOf(ReplayPlan(replay.targets[..i], []))
    {
      var (id, config) := replay.targets[i];
      requests := requests + [RegisterTarget(id, config)];
    }
    assert replay.targets[..|replay.targets|] == replay.targets;
    for i := 0 to |replay.buffers|
      invariant requests == ReplayOf(ReplayPlan(replay.targets, replay.buffers[..i]))
    {
      var b := replay.buffers[i];
      requests := requests + [DidOpen(b.targetId, b.uri, b.text)];
    }
    assert replay.buffers[..|replay.buffers|] == replay.buffers;
  }

  lemma RegisterNew(p: ReplayPlan, k: nat)
    requires Distinct(TargetIds(p.targets)) && k < |p.targets|
    ensures Observe(ReplayPlan(p.targets[..k], []), RegisterTarget(p.targets[k].0, p.targets[k].1))
            == ReplayPlan(p.targets[..k + 1], [])
  {
    var ids, done := TargetIds(p.targets), TargetIds(p.targets[..k]);
    assert forall i | 0 <= i < k :: done[i] == ids[i] && ids[i] != ids[k];
  }

  lemma OpenNew(p: ReplayPlan, k: nat)
    requires Distinct(BufferUris(p.buffers)) && k < |p.buffers|
    ensures var b := p.buffers[k];
            Observe(ReplayPlan(p.targets, p.buffers[..k]), DidOpen(b.targetId, b.uri, b.text))
            == ReplayPlan(p.targets, p.buffers[..k + 1])
  {
    var uris, done := BufferUris(p.buffers), BufferUris(p.buffers[..k]);
    assert forall i | 0 <= i < k :: done[i] == uris[i] && uris[i] != uris[k];
  }

  /** The mirror after the first `k` replayed requests. */
  function Rebuilt(p: ReplayPlan, k: nat): ReplayPlan
    requires k <= |p.targets| + |p.buffers|
  {
    if k <= |p.targets| then ReplayPlan(p.targets[..k], []) else ReplayPlan(p.targets, p.buffers[..k - |p.targets|])
  }

  lemma FoldLast(h: seq<Request>, k: nat)
    requires 0 < k <= |h|
    ensures Fold(h[..k]) == Observe(Fold(h[..k - 1]), h[k - 1])
  {
    assert h[..k][..k - 1] == h[..k - 1];
  }

  lemma RebuiltNext(p: ReplayPlan, k: nat)
    requires Distinct(TargetIds(p.targets)) && Distinct(BufferUris(p.buffers)) && k < |p.targets| + |p.buffers|
    ensures Observe(Rebuilt(p, k), ReplayOf(p)[k]) == Rebuilt(p, k + 1)
  {
    var n := |p.targets|;
    if k < n {
      RegisterNew(p, k);
    } else {
      assert p.targets[..n] == p.targets && p.buffers[..0] == [];
      OpenNew(p, k - n);
    }
  }

  lemma {:induction false} ReplayPrefix(p: ReplayPlan, k: nat)
    requires Distinct(TargetIds(p.targets)) && Distinct(BufferUris(p.buffers)) && k <= |p.targets| + |p.buffers|
    ensures Fold(ReplayOf(p)[..k]) == Rebuilt(p, k)
  {
    if k > 0 {
      ReplayPrefix(p, k - 1);
      FoldLast(ReplayOf(p), k);
      RebuiltNext(p, k - 1);
    }
  }

  /** Replaying the mirror of any history into an empty one rebuilds it, order included. */
  lemma ReplayRebuilds(h: seq<Request>)
    ensures Fold(ReplayOf(Fold(h))) == Fold(h)
  {
    var p := Fold(h);
    MirrorReflectsHistory(h);
    ReplayPrefix(p, |ReplayOf(p)|);
    assert ReplayOf(p)[..|ReplayOf(p)|] == ReplayOf(p);
  }

  // ---------------------------------------------------------------------------
  // The mirror itself
  // ---------------------------------------------------------------------------

  class TargetMirror {
    var targets: seq<(string, TargetConfig)>
    var buffers: seq<OpenBuffer>

    function Plan(): ReplayPlan
      reads this
    {
      ReplayPlan(targets, buffers)
    }

    constructor ()
      ensures Plan() == Fold([])
    {
      targets, buffers := [], [];
    }

    method Register(id: string, config: TargetConfig)
      modifies this
      ensures Plan() == Observe(old(Plan()), RegisterTarget(id, config))
    {
      var slot := FindKey(TargetIds(targets), id);
      if slot.Some? {
        targets := targets[slot.value := (targets[slot.value].0, config)];
      } else {
        targets := targets + [(id, config)];
      }
    }

    method Open(targetId: string, uri: string, text: string)
      modifies this
      ensures Plan() == Observe(old(Plan()), DidOpen(targetId, uri, text))
    {
      var slot := FindKey(BufferUris(buffers), uri);
      if slot.Some? {
        buffers := buffers[slot.value := buffers[slot.value].(targetId := targetId, text := text)];
      } else {
        buffers := buffers + [OpenBuffer(targetId, uri, text)];
      }
    }

    method Change(uri: string, text: string)
      modifies this
      ensures Plan() == Observe(old(Plan()), DidChange(uri, text))
    {
      var slot := FindKey(BufferUris(buffers), uri);
      if slot.Some? {
        buffers := buffers[slot.value := buffers[slot.value].(text := text)];
      }
    }

    method Close(uri: string)
      modifies this
      ensures Plan() == Observe(old(Plan()), DidClose(uri))
    {
      buffers := Without(buffers, uri);
    }
  }
}
