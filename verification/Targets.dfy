/**
  * The target graph of a workspace: which targets can see, or be seen from, a given one, and the set of
  * snapshot ordinals in which references to a definition may occur.
  */
module Targets {
  import opened Options
  import opened Words
  import opened Lookup
  import opened Bitsets

  datatype TargetSpec = TargetSpec(id: string, deps: seq<string>)

  datatype Workspace = Workspace(targets: seq<TargetSpec>, byId: map<string, nat>, reverseEdges: map<string, seq<string>>)

  // ---------------------------------------------------------------------------
  // The graph
  // ---------------------------------------------------------------------------

  ghost predicate DistinctIds(targets: seq<TargetSpec>) {
    forall i, j | 0 <= i < j < |targets| :: targets[i].id != targets[j].id
  }

  ghost predicate Knows(targets: seq<TargetSpec>, id: string) {
    exists i | 0 <= i < |targets| :: targets[i].id == id
  }

  ghost predicate Declares(t: TargetSpec, id: string, dep: string) {
    t.id == id && dep in t.deps
  }

  /** One of the first `n` targets is `id` and declares a dependency on a known target `dep`. */
  ghost predicate DependsWithin(targets: seq<TargetSpec>, n: nat, id: string, dep: string) {
    Knows(targets, dep) && exists i | 0 <= i < n && i < |targets| :: Declares(targets[i], id, dep)
  }

  ghost predicate DependsOn(targets: seq<TargetSpec>, id: string, dep: string) {
    DependsWithin(targets, |targets|, id, dep)
  }

  function EdgesOf(edges: map<string, seq<string>>, id: string): seq<string> {
    if id in edges then edges[id] else []
  }

  function DependentsOf(ws: Workspace, id: string): seq<string> {
    EdgesOf(ws.reverseEdges, id)
  }

  /** The declared dependencies that are known. */
  function KnownOf(byId: map<string, nat>, deps: seq<string>): (r: seq<string>)
    ensures forall d :: d in r <==> d in deps && d in byId
  {
    if deps == [] then [] else (if deps[0] in byId then [deps[0]] else []) + KnownOf(byId, deps[1..])
  }

  function DependenciesOf(ws: Workspace, id: string): seq<string> {
    if id in ws.byId && ws.byId[id] < |ws.targets| then KnownOf(ws.byId, ws.targets[ws.byId[id]].deps) else []
  }

  ghost predicate IndexesIds(targets: seq<TargetSpec>, byId: map<string, nat>) {
    && (forall id :: id in byId <==> Knows(targets, id))
    && (forall id | id in byId :: byId[id] < |targets| && targets[byId[id]].id == id)
  }

  ghost predicate ListsDependents(targets: seq<TargetSpec>, n: nat, edges: map<string, seq<string>>) {
    && (forall x, y :: y in EdgesOf(edges, x) <==> DependsWithin(targets, n, y, x))
    && (forall x :: Distinct(EdgesOf(edges, x)))
  }

  ghost predicate Valid(ws: Workspace) {
    && DistinctIds(ws.targets)
    && IndexesIds(ws.targets, ws.byId)
    && ListsDependents(ws.targets, |ws.targets|, ws.reverseEdges)
  }

  // ---------------------------------------------------------------------------
  // Building the workspace
  // ---------------------------------------------------------------------------

  method IndexIds(targets: seq<TargetSpec>) returns (byId: map<string, nat>)
    requires DistinctIds(targets)
    ensures IndexesIds(targets, byId)
  {
    byId := map[];
    for i := 0 to |targets|
      invariant forall id :: id in byId <==> Knows(targets[..i], id)
      invariant forall id | id in byId :: byId[id] < i && targets[byId[id]].id == id
    {
      KnowsNext(targets, i);
      byId := byId[targets[i].id := i];
    }
    assert targets[..|targets|] == targets;
  }

  lemma KnowsNext(targets: seq<TargetSpec>, i: nat)
    requires i < |targets|
    ensures forall id :: Knows(targets[..i + 1], id) <==> Knows(targets[..i], id) || id == targets[i].id
  {
    forall id | Knows(targets[..i], id) || id == targets[i].id ensures Knows(targets[..i + 1], id) {
      if id == targets[i].id {
        assert targets[..i + 1][i].id == id;
      } else {
        var j :| 0 <= j < i && targets[..i][j].id == id;
        assert targets[..i + 1][j].id == id;
      }
    }
  }

  /** The edges after the first `k` dependencies of target `n` have been entered. */
  ghost predicate Entered(targets: seq<TargetSpec>, n: nat, k: nat, edges: map<string, seq<string>>)
    requires n < |targets| && k <= |targets[n].deps|
  {
    && (forall x, y :: y in EdgesOf(edges, x) <==>
          DependsWithin(targets, n, y, x) || (y == targets[n].id && x in targets[n].deps[..k] && Knows(targets, x)))
    && (forall x :: Distinct(EdgesOf(edges, x)))
  }

  lemma IdIsNew(targets: seq<TargetSpec>, n: nat, dep: string)
    requires DistinctIds(targets) && n < |targets|
    ensures !DependsWithin(targets, n, targets[n].id, dep)
  {
  }

  lemma DistinctNext(s: seq<string>, x: string)
    requires Distinct(s) && x !in s
    ensures Distinct(s + [x])
  {
  }

  method EnterTarget(targets: seq<TargetSpec>, byId: map<string, nat>, n: nat, edges: map<string, seq<string>>)
    returns (out: map<string, seq<string>>)
    requires DistinctIds(targets) && IndexesIds(targets, byId) && n < |targets| && ListsDependents(targets, n, edges)
    ensures ListsDependents(targets, n + 1, out)
  {
    var t := targets[n];
    var seen: set<string> := {};
    out := edges;
    for k := 0 to |t.deps|
      invariant Entered(targets, n, k, out)
      invariant forall d :: d in seen <==> d in t.deps[..k]
    {
      var dep := t.deps[k];
      assert t.deps[..k + 1] == t.deps[..k] + [dep];
      if dep !in seen {
        seen := seen + {dep};
        if dep in byId {
          out := EnterEdge(targets, n, k, out);
        }
      }
    }
    EnteredAll(targets, n, out);
  }

  method EnterEdge(targets: seq<TargetSpec>, n: nat, k: nat, edges: map<string, seq<string>>) returns (out: map<string, seq<string>>)
    requires DistinctIds(targets) && n < |targets| && k < |targets[n].deps| && Entered(targets, n, k, edges)
    requires var dep := targets[n].deps[k]; Knows(targets, dep) && dep !in targets[n].deps[..k]
    ensures Entered(targets, n, k + 1, out)
  {
    var id, dep := targets[n].id, targets[n].deps[k];
    IdIsNew(targets, n, dep);
    var list := EdgesOf(edges, dep);
    assert id !in list;
    DistinctNext(list, id);
    out := edges[dep := list + [id]];
    assert targets[n].deps[..k + 1] == targets[n].deps[..k] + [dep];
    forall x ensures Distinct(EdgesOf(out, x)) && forall y :: y in EdgesOf(out, x) <==> y in EdgesOf(edges, x) || (x == dep && y == id) {
      if x != dep {
        assert EdgesOf(out, x) == EdgesOf(edges, x);
      } else {
        assert EdgesOf(out, x) == list + [id];
      }
    }
  }

  lemma EnteredAll(targets: seq<TargetSpec>, n: nat, edges: map<string, seq<string>>)
    requires n < |targets| && Entered(targets, n, |targets[n].deps|, edges)
    ensures ListsDependents(targets, n + 1, edges)
  {
    var deps := targets[n].deps;
    assert deps[..|deps|] == deps;
    forall x, y ensures DependsWithin(targets, n + 1, y, x) <==>
                        DependsWithin(targets, n, y, x) || (y == targets[n].id && x in deps && Knows(targets, x)) {
      if y == targets[n].id && x in deps {
        assert Declares(targets[n], y, x);
      }
    }
  }

  /** Indexes the targets and reverses their dependencies. The original aborts on a duplicate id. */
  method NewWorkspace(targets: seq<TargetSpec>) returns (ws: Workspace)
    requires DistinctIds(targets)
    ensures ws.targets == targets && Valid(ws)
  {
    var byId := IndexIds(targets);
    var edges: map<string, seq<string>> := map[];
    for n := 0 to |targets|
      invariant ListsDependents(targets, n, edges)
    {
      edges := EnterTarget(targets, byId, n, edges);
    }
    ws := Workspace(targets, byId, edges);
  }

  // ---------------------------------------------------------------------------
  // Reachability
  // ---------------------------------------------------------------------------

  predicate Steps(next: string -> seq<string>, x: string, y: string) {
    y in next(x)
  }

  ghost predicate IsPath(next: string -> seq<string>, p: seq<string>) {
    p != [] && forall i, j | 0 <= i && j == i + 1 < |p| :: Steps(next, p[i], p[j])
  }

  ghost predicate Leads(next: string -> seq<string>, p: seq<string>, a: string, b: string) {
    IsPath(next, p) && p[0] == a && p[|p| - 1] == b
  }

  /** Reflexive and transitive: some path leads from `a` to `b`. */
  ghost predicate Reaches(next: string -> seq<string>, a: string, b: string) {
    exists p :: Leads(next, p, a, b)
  }

  lemma ReachesSelf(next: string -> seq<string>, a: string)
    ensures Reaches(next, a, a)
  {
    assert Leads(next, [a], a, a);
  }

  lemma ReachesNext(next: string -> seq<string>, a: string, b: string, c: string)
    requires Reaches(next, a, b) && c in next(b)
    ensures Reaches(next, a, c)
  {
    var p :| Leads(next, p, a, b);
    var q := p + [c];
    forall i, j | 0 <= i && j == i + 1 < |q| ensures Steps(next, q[i], q[j]) {
      if j < |p| {
        assert Steps(next, p[i], p[j]);
      }
    }
    assert Leads(next, q, a, c);
  }

  ghost predicate ClosedUnder(next: string -> seq<string>, s: set<string>) {
    forall x, y | x in s && Steps(next, x, y) :: y in s
  }

  lemma {:induction false} PathStaysInside(next: string -> seq<string>, p: seq<string>, s: set<string>, k: nat)
    requires IsPath(next, p) && p[0] in s && ClosedUnder(next, s) && k < |p|
    ensures p[k] in s
  {
    if k > 0 {
      PathStaysInside(next, p, s, k - 1);
      var i := k - 1;
      assert Steps(next, p[i], p[k]);
    }
  }

  lemma ReachedIsInside(next: string -> seq<string>, a: string, b: string, s: set<string>)
    requires Reaches(next, a, b) && a in s && ClosedUnder(next, s)
    ensures b in s
  {
    var p :| Leads(next, p, a, b);
    PathStaysInside(next, p, s, |p| - 1);
  }

  function Backwards(p: seq<string>): (r: seq<string>)
    ensures |r| == |p| && forall i | 0 <= i < |p| :: r[i] == p[|p| - 1 - i]
  {
    seq(|p|, i requires 0 <= i < |p| => p[|p| - 1 - i])
  }

  /** Turning every step around turns every path around. */
  lemma ReachesBackwards(f: string -> seq<string>, g: string -> seq<string>, a: string, b: string)
    requires forall x, y :: Steps(f, x, y) ==> Steps(g, y, x)
    requires Reaches(f, a, b)
    ensures Reaches(g, b, a)
  {
    var p :| Leads(f, p, a, b);
    var r := Backwards(p);
    forall i, j | 0 <= i && j == i + 1 < |r| ensures Steps(g, r[i], r[j]) {
      var m, n := |p| - 1 - j, |p| - 1 - i;
      assert Steps(f, p[m], p[n]);
    }
    assert Leads(g, r, b, a);
  }

  // ---------------------------------------------------------------------------
  // Closures
  // ---------------------------------------------------------------------------

  method Visit(successors: seq<string>, seen0: set<string>, queue0: seq<string>) returns (seen: set<string>, queue: seq<string>)
    ensures forall x :: x in seen <==> x in seen0 || x in successors
    ensures forall x | x in queue :: x in queue0 || x in successors
    ensures forall x | x in queue0 :: x in queue
    ensures forall x | x in seen && x !in seen0 :: x in queue
    ensures seen == seen0 ==> queue == queue0
  {
    seen, queue := seen0, queue0;
    for i := 0 to |successors|
      invariant forall x :: x in seen <==> x in seen0 || x in successors[..i]
      invariant forall x | x in queue :: x in queue0 || x in successors
      invariant forall x | x in queue0 :: x in queue
      invariant forall x | x in seen && x !in seen0 :: x in queue
      invariant seen == seen0 ==> queue == queue0
    {
      var x := successors[i];
      assert successors[..i + 1] == successors[..i] + [x];
      if x !in seen {
        seen, queue := seen + {x}, queue + [x];
      }
    }
  }

  /** Nodes already taken off the queue have had their successors entered. */
  ghost predicate Expanded(next: string -> seq<string>, seen: set<string>, queue: seq<string>) {
    forall x, y | x in seen && x !in queue && Steps(next, x, y) :: y in seen
  }

  /** Breadth-first search from a known target. */
  method Closure(known: set<string>, id: string, next: string -> seq<string>) returns (seen: set<string>)
    requires ClosedUnder(next, known)
    ensures id !in known ==> seen == {}
    ensures id in known ==> seen <= known && forall y :: y in seen <==> Reaches(next, id, y)
  {
    if id !in known {
      return {};
    }
    seen := {id};
    var queue := [id];
    ReachesSelf(next, id);
    while queue != []
      invariant id in seen && seen <= known
      invariant forall x | x in queue :: x in seen
      invariant forall x | x in seen :: Reaches(next, id, x)
      invariant Expanded(next, seen, queue)
      decreases known - seen, |queue|
    {
      var cur := queue[0];
      ghost var before, waiting := seen, queue;
      seen, queue := Visit(next(cur), seen, queue[1..]);
      Expand(next, id, cur, known, before, waiting, seen, queue);
    }
    forall y | Reaches(next, id, y) ensures y in seen {
      ReachedIsInside(next, id, y, seen);
    }
  }

  lemma Expand(next: string -> seq<string>, id: string, cur: string, known: set<string>,
               before: set<string>, waiting: seq<string>, seen: set<string>, queue: seq<string>)
    requires ClosedUnder(next, known) && before <= known && waiting != [] && waiting[0] == cur && cur in before
    requires (forall x | x in waiting :: x in before) && (forall x | x in before :: Reaches(next, id, x))
    requires Expanded(next, before, waiting)
    requires forall x :: x in seen <==> x in before || x in next(cur)
    requires (forall x | x in queue :: x in waiting[1..] || x in next(cur)) && (forall x | x in waiting[1..] :: x in queue)
    requires forall x | x in seen && x !in before :: x in queue
    ensures seen <= known && (forall x | x in queue :: x in seen) && (forall x | x in seen :: Reaches(next, id, x))
    ensures Expanded(next, seen, queue)
    ensures known - seen <= known - before && (known - seen == known - before ==> seen == before)
  {
    forall x | x in next(cur) ensures x in known && Reaches(next, id, x) {
      assert Steps(next, cur, x);
      ReachesNext(next, id, cur, x);
    }
    forall x, y | x in seen && x !in queue && Steps(next, x, y) ensures y in seen {
      if x != cur {
        assert x in before && x !in waiting;
      }
    }
    if known - seen == known - before {
      forall x | x in seen ensures x in before {
        assert x in known;
        assert x !in known - seen;
      }
      assert seen == before;
    }
  }

  function Reverse(ws: Workspace): string -> seq<string> {
    id => DependentsOf(ws, id)
  }

  function Forward(ws: Workspace): string -> seq<string> {
    id => DependenciesOf(ws, id)
  }

  lemma ForwardStep(ws: Workspace, x: string, y: string)
    requires Valid(ws)
    ensures Steps(Forward(ws), x, y) <==> DependsOn(ws.targets, x, y)
  {
    if DependsOn(ws.targets, x, y) {
      var i :| 0 <= i < |ws.targets| && Declares(ws.targets[i], x, y);
      assert Knows(ws.targets, x);
      assert x in ws.byId && ws.byId[x] == i;
    } else if Steps(Forward(ws), x, y) {
      assert Declares(ws.targets[ws.byId[x]], x, y);
    }
  }

  lemma ReverseStep(ws: Workspace, x: string, y: string)
    requires Valid(ws)
    ensures Steps(Reverse(ws), x, y) <==> DependsOn(ws.targets, y, x)
  {
  }

  lemma StepsStayKnown(ws: Workspace)
    requires Valid(ws)
    ensures ClosedUnder(Forward(ws), ws.byId.Keys) && ClosedUnder(Reverse(ws), ws.byId.Keys)
  {
    forall x, y | x in ws.byId.Keys && Steps(Forward(ws), x, y) ensures y in ws.byId.Keys {
      ForwardStep(ws, x, y);
    }
    forall x, y | x in ws.byId.Keys && Steps(Reverse(ws), x, y) ensures y in ws.byId.Keys {
      ReverseStep(ws, x, y);
      var i :| 0 <= i < |ws.targets| && Declares(ws.targets[i], y, x);
      assert Knows(ws.targets, y);
    }
  }

  /** The targets that transitively depend on `id`, and `id` itself; none for an unknown one. */
  method ReverseDependencyClosure(ws: Workspace, id: string) returns (seen: set<string>)
    requires Valid(ws)
    ensures forall y :: y in seen <==> Knows(ws.targets, id) && Reaches(Reverse(ws), id, y)
    ensures id in seen <==> Knows(ws.targets, id)
  {
    StepsStayKnown(ws);
    seen := Closure(ws.byId.Keys, id, Reverse(ws));
    ReachesSelf(Reverse(ws), id);
  }

  /** The targets that `id` transitively depends on, and `id` itself; none for an unknown one. */
  method ForwardDependencyClosure(ws: Workspace, id: string) returns (seen: set<string>)
    requires Valid(ws)
    ensures forall y :: y in seen <==> Knows(ws.targets, id) && Reaches(Forward(ws), id, y)
    ensures id in seen <==> Knows(ws.targets, id)
  {
    StepsStayKnown(ws);
    seen := Closure(ws.byId.Keys, id, Forward(ws));
    ReachesSelf(Forward(ws), id);
  }

  /** The closures are dual: `y` sees `x` exactly if `x` is seen from `y`. */
  lemma ClosuresAreDual(ws: Workspace, x: string, y: string)
    requires Valid(ws)
    ensures Knows(ws.targets, x) && Reaches(Reverse(ws), x, y) <==> Knows(ws.targets, y) && Reaches(Forward(ws), y, x)
  {
    StepsStayKnown(ws);
    forall a, b ensures Steps(Reverse(ws), a, b) <==> Steps(Forward(ws), b, a) {
      ReverseStep(ws, a, b);
      ForwardStep(ws, b, a);
    }
    if Knows(ws.targets, x) && Reaches(Reverse(ws), x, y) {
      ReachedIsInside(Reverse(ws), x, y, ws.byId.Keys);
      ReachesBackwards(Reverse(ws), Forward(ws), x, y);
    }
    if Knows(ws.targets, y) && Reaches(Forward(ws), y, x) {
      ReachedIsInside(Forward(ws), y, x, ws.byId.Keys);
      ReachesBackwards(Forward(ws), Reverse(ws), y, x);
    }
  }

  // ---------------------------------------------------------------------------
  // Allowed targets
  // ---------------------------------------------------------------------------

  /** The ordinal that an id is looked up as: its last one. */
  ghost predicate IsLast(ids: seq<string>, o: nat) {
    o < |ids| && forall p | o < p < |ids| :: ids[p] != ids[o]
  }

  method OrdinalMap(ids: seq<string>) returns (ords: map<string, nat>)
    ensures forall id | id in ords :: IsLast(ids, ords[id]) && ids[ords[id]] == id
    ensures forall o | 0 <= o < |ids| :: ids[o] in ords
  {
    ords := map[];
    for i := 0 to |ids|
      invariant forall id | id in ords :: ords[id] < i && ids[ords[id]] == id && forall p | ords[id] < p < i :: ids[p] != id
      invariant forall o | 0 <= o < i :: ids[o] in ords
    {
      ords := ords[ids[i] := i];
    }
  }

  method CollectOrdinals(closure: set<string>, ords: map<string, nat>, limit: u32) returns (out: seq<u32>)
    requires forall id | id in ords :: ords[id] < limit
    ensures forall o: nat :: o in out <==> exists id | id in closure && id in ords :: ords[id] == o
    ensures forall i | 0 <= i < |out| :: out[i] < limit
  {
    out := [];
    var left := closure;
    while left != {}
      invariant left <= closure
      invariant forall o: nat :: o in out <==> exists id | id in closure && id !in left && id in ords :: ords[id] == o
      invariant forall i | 0 <= i < |out| :: out[i] < limit
      decreases left
    {
      var id :| id in left;
      ghost var before := left;
      left := left - {id};
      assert forall x :: x in closure && x !in left <==> (x in closure && x !in before) || x == id;
      if id in ords {
        out := out + [ords[id]];
      }
    }
  }

  /** The members are exactly the ordinals of the targets that are reached. */
  ghost predicate IsTheClosure(b: TargetBitset, ids: seq<string>, next: string -> seq<string>, start: string) {
    forall o: nat | o < |ids| :: Holds(b.words, o) <==> Reaches(next, start, ids[o])
  }

  /** Where references to a symbol may be: in every target, unless its definition target is known to the
      workspace; then in that target and those that transitively depend on it. */
  method AllowedTargets(ids: seq<string>, defOrd: int, workspace: Option<Workspace>) returns (b: TargetBitset)
    requires |ids| < 0x1_0000_0000 && defOrd < |ids|
    requires workspace.Some? ==> Valid(workspace.value)
    ensures Normal(b) && b.size == |ids|
    ensures defOrd < 0 || workspace.None? || !Knows(workspace.value.targets, ids[defOrd]) ==>
              forall o: nat :: Holds(b.words, o) <==> o < |ids|
    ensures defOrd >= 0 && workspace.Some? && Knows(workspace.value.targets, ids[defOrd]) ==>
              forall o: nat :: Holds(b.words, o) <==>
                               o == defOrd || (IsLast(ids, o) && Reaches(Reverse(workspace.value), ids[defOrd], ids[o]))
    ensures defOrd >= 0 && workspace.Some? && Knows(workspace.value.targets, ids[defOrd]) ==>
              (IsTheClosure(b, ids, Reverse(workspace.value), ids[defOrd]) <==>
               forall o: nat | o < |ids| && Reaches(Reverse(workspace.value), ids[defOrd], ids[o]) :: o == defOrd || IsLast(ids, o))
    ensures defOrd >= 0 && workspace.Some? && Knows(workspace.value.targets, ids[defOrd]) && Distinct(ids) ==>
              IsTheClosure(b, ids, Reverse(workspace.value), ids[defOrd])
  {
    if defOrd < 0 || workspace.None? {
      b := All(|ids|);
      return;
    }
    var ws := workspace.value;
    var closure := ReverseDependencyClosure(ws, ids[defOrd]);
    if closure == {} {
      b := All(|ids|);
      return;
    }
    var ords := OrdinalMap(ids);
    var out := CollectOrdinals(closure, ords, |ids|);
    b := Of(|ids|, out + [defOrd]);
    forall o: nat ensures o in out <==> IsLast(ids, o) && Reaches(Reverse(ws), ids[defOrd], ids[o]) {
      CollectedMeans(ws, ids, ids[defOrd], closure, ords, o);
    }
    ReachesSelf(Reverse(ws), ids[defOrd]);
    assert Distinct(ids) ==> forall o: nat | o < |ids| :: IsLast(ids, o);
  }

  lemma CollectedMeans(ws: Workspace, ids: seq<string>, def: string, closure: set<string>, ords: map<string, nat>, o: nat)
    requires forall y :: y in closure <==> Knows(ws.targets, def) && Reaches(Reverse(ws), def, y)
    requires Knows(ws.targets, def)
    requires forall id | id in ords :: IsLast(ids, ords[id]) && ids[ords[id]] == id
    requires forall o | 0 <= o < |ids| :: ids[o] in ords
    ensures (exists id | id in closure && id in ords :: ords[id] == o) <==>
            IsLast(ids, o) && Reaches(Reverse(ws), def, ids[o])
  {
    if IsLast(ids, o) && Reaches(Reverse(ws), def, ids[o]) {
      var id := ids[o];
      assert id in ords && id in closure;
      var p := ords[id];
      assert IsLast(ids, p) && ids[p] == ids[o];
      assert p == o;
    }
  }
}
