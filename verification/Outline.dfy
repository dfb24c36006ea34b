/**
  * The outline of a document: the selected definitions as a forest. It is built as an arena of nodes with
  * child indices while the postings stream by, then materialized bottom-up by moving entries out of the
  * arena.
  */
module Outline {
  import opened Options
  import opened Lookup
  import opened Words
  import opened Symbols
  import opened IndexModel
  import opened Definitions

  datatype DocSymbol = DocSymbol(name: string, kind: SymKind, span: Span, children: seq<DocSymbol>)

  datatype Node = Node(entry: DocSymbol, children: seq<nat>)

  /** What a move leaves behind. */
  const PLACEHOLDER := DocSymbol("", UnknownKind, Span(0, 0, 0, 0), [])

  // ---------------------------------------------------------------------------
  // The forest that a parent assignment describes
  // ---------------------------------------------------------------------------

  /** Parents come before their children. */
  ghost predicate Upward(parents: seq<Option<nat>>) {
    forall k | 0 <= k < |parents| :: parents[k].Some? ==> parents[k].value < k
  }

  /** The nodes below `n` with a given parent (or with none), in source order. */
  function ChildrenOf(parents: seq<Option<nat>>, p: Option<nat>, n: nat): (ks: seq<nat>)
    requires n <= |parents|
    ensures forall i | 0 <= i < |ks| :: ks[i] < n && parents[ks[i]] == p
  {
    if n == 0 then []
    else ChildrenOf(parents, p, n - 1) + if parents[n - 1] == p then [n - 1] else []
  }

  lemma {:induction false} ChildrenInOrder(parents: seq<Option<nat>>, p: Option<nat>, n: nat)
    requires n <= |parents|
    ensures Ascending(ChildrenOf(parents, p, n))
  {
    if n > 0 {
      var front := ChildrenOf(parents, p, n - 1);
      ChildrenInOrder(parents, p, n - 1);
      AscendingNext(front, n - 1);
      assert front + [] == front;
    }
  }

  lemma {:induction false} ChildIsThere(parents: seq<Option<nat>>, p: Option<nat>, n: nat, k: nat)
    requires k < n <= |parents| && parents[k] == p
    ensures k in ChildrenOf(parents, p, n)
  {
    if k < n - 1 {
      ChildIsThere(parents, p, n - 1, k);
    }
  }

  /** They are all there, in order. */
  lemma ChildrenMeans(parents: seq<Option<nat>>, p: Option<nat>, n: nat)
    requires n <= |parents|
    ensures Ascending(ChildrenOf(parents, p, n))
    ensures forall k: nat | k < n :: k in ChildrenOf(parents, p, n) <==> parents[k] == p
  {
    ChildrenInOrder(parents, p, n);
    forall k: nat | k < n && parents[k] == p ensures k in ChildrenOf(parents, p, n) {
      ChildIsThere(parents, p, n, k);
    }
  }

  /** Node `k` with everything below it. */
  ghost function Tree(bare: seq<DocSymbol>, parents: seq<Option<nat>>, k: nat): DocSymbol
    requires |bare| == |parents| && Upward(parents) && k < |parents|
    decreases |parents| - k
  {
    var ks := ChildrenOf(parents, Some(k), |parents|);
    bare[k].(children := seq(|ks|, i requires 0 <= i < |ks| => Tree(bare, parents, ks[i])))
  }

  ghost function Trees(bare: seq<DocSymbol>, parents: seq<Option<nat>>, ks: seq<nat>): seq<DocSymbol>
    requires |bare| == |parents| && Upward(parents) && forall i | 0 <= i < |ks| :: ks[i] < |parents|
  {
    seq(|ks|, i requires 0 <= i < |ks| => Tree(bare, parents, ks[i]))
  }

  ghost function Forest(bare: seq<DocSymbol>, parents: seq<Option<nat>>): seq<DocSymbol>
    requires |bare| == |parents| && Upward(parents)
  {
    Trees(bare, parents, ChildrenOf(parents, None, |parents|))
  }

  // ---------------------------------------------------------------------------
  // Every node is in the forest exactly once
  // ---------------------------------------------------------------------------

  /** All entries of a tree, without their children. */
  ghost function Labels(t: DocSymbol): multiset<DocSymbol>
    decreases t
  {
    multiset{t.(children := [])} + AllLabels(t.children)
  }

  ghost function AllLabels(ts: seq<DocSymbol>): multiset<DocSymbol>
    decreases ts
  {
    if ts == [] then multiset{} else AllLabels(ts[..|ts| - 1]) + Labels(ts[|ts| - 1])
  }

  /** The parts of the nodes below `n` that have parent `p`. */
  ghost function ChildSum(parents: seq<Option<nat>>, part: seq<multiset<DocSymbol>>, p: Option<nat>, n: nat): multiset<DocSymbol>
    requires n <= |parents| == |part|
  {
    if n == 0 then multiset{}
    else ChildSum(parents, part, p, n - 1) + if parents[n - 1] == p then part[n - 1] else multiset{}
  }

  /** Not yet taken by its parent once the nodes from `i` on are complete. */
  predicate Live(parent: Option<nat>, i: nat) {
    parent.Some? ==> parent.value < i
  }

  /** The parts of the nodes from `i` up to `n` that are still to be taken. */
  ghost function LiveSum(parents: seq<Option<nat>>, part: seq<multiset<DocSymbol>>, i: nat, n: nat): multiset<DocSymbol>
    requires n <= |parents| == |part|
  {
    if n <= i then multiset{}
    else LiveSum(parents, part, i, n - 1) + if Live(parents[n - 1], i) then part[n - 1] else multiset{}
  }

  lemma {:induction false} NoEarlyChildren(parents: seq<Option<nat>>, part: seq<multiset<DocSymbol>>, i: nat, n: nat)
    requires Upward(parents) && n <= i + 1 && n <= |parents| == |part|
    ensures ChildSum(parents, part, Some(i), n) == multiset{}
  {
    if n > 0 {
      NoEarlyChildren(parents, part, i, n - 1);
    }
  }

  lemma Interleave<T>(a: multiset<T>, b: multiset<T>, c: multiset<T>, d: multiset<T>,
                      x: multiset<T>, y: multiset<T>, z: multiset<T>)
    requires a + b == c + d && x + y == z
    ensures (a + x) + (b + y) == (c + z) + d
  {
    assert (a + x) + (b + y) == (a + b) + (x + y);
  }

  /** Completing node `i` takes its children out and puts itself in. */
  lemma {:induction false} TakeStep(parents: seq<Option<nat>>, part: seq<multiset<DocSymbol>>, i: nat, n: nat)
    requires Upward(parents) && i < n <= |parents| == |part|
    ensures LiveSum(parents, part, i, n) + ChildSum(parents, part, Some(i), n) == LiveSum(parents, part, i + 1, n) + part[i]
  {
    if n == i + 1 {
      NoEarlyChildren(parents, part, i, n);
      assert LiveSum(parents, part, i, i) == multiset{} && Live(parents[i], i);
    } else {
      TakeStep(parents, part, i, n - 1);
      var here, none := part[n - 1], multiset{};
      var parent := parents[n - 1];
      Interleave(LiveSum(parents, part, i, n - 1), ChildSum(parents, part, Some(i), n - 1),
                 LiveSum(parents, part, i + 1, n - 1), part[i],
                 if Live(parent, i) then here else none, if parent == Some(i) then here else none,
                 if Live(parent, i + 1) then here else none);
    }
  }

  lemma {:induction false} RootsAreLive(parents: seq<Option<nat>>, part: seq<multiset<DocSymbol>>, n: nat)
    requires n <= |parents| == |part|
    ensures LiveSum(parents, part, 0, n) == ChildSum(parents, part, None, n)
  {
    if n > 0 {
      RootsAreLive(parents, part, n - 1);
    }
  }

  lemma CompletesOne<T>(a: multiset<T>, b: multiset<T>, taken: multiset<T>, part: multiset<T>, own: T)
    requires a + taken == b + part && part == multiset{own} + taken
    ensures a == b + multiset{own}
  {
    forall x ensures a[x] == (b + multiset{own})[x] {
      assert (a + taken)[x] == (b + part)[x];
    }
  }

  ghost function Parts(bare: seq<DocSymbol>, parents: seq<Option<nat>>): (part: seq<multiset<DocSymbol>>)
    requires |bare| == |parents| && Upward(parents)
    ensures |part| == |parents|
  {
    seq(|parents|, k requires 0 <= k < |parents| => Labels(Tree(bare, parents, k)))
  }

  lemma TreesSnoc(bare: seq<DocSymbol>, parents: seq<Option<nat>>, ks: seq<nat>, k: nat)
    requires |bare| == |parents| && Upward(parents) && k < |parents| && forall i | 0 <= i < |ks| :: ks[i] < |parents|
    ensures AllLabels(Trees(bare, parents, ks + [k])) == AllLabels(Trees(bare, parents, ks)) + Parts(bare, parents)[k]
  {
    var ts, t := Trees(bare, parents, ks), Tree(bare, parents, k);
    assert Trees(bare, parents, ks + [k]) == ts + [t];
    assert (ts + [t])[..|ts|] == ts;
  }

  ghost function SumOver(part: seq<multiset<DocSymbol>>, ks: seq<nat>): multiset<DocSymbol>
    requires forall i | 0 <= i < |ks| :: ks[i] < |part|
  {
    if ks == [] then multiset{} else SumOver(part, ks[..|ks| - 1]) + part[ks[|ks| - 1]]
  }

  lemma SumSnoc(part: seq<multiset<DocSymbol>>, ks: seq<nat>, k: nat)
    requires k < |part| && forall i | 0 <= i < |ks| :: ks[i] < |part|
    ensures SumOver(part, ks + [k]) == SumOver(part, ks) + part[k]
  {
    assert (ks + [k])[..|ks|] == ks;
  }

  lemma NextTree(bare: seq<DocSymbol>, parents: seq<Option<nat>>, ks: seq<nat>, front: seq<nat>, last: nat)
    requires |bare| == |parents| && Upward(parents) && ks == front + [last] && forall i | 0 <= i < |ks| :: ks[i] < |parents|
    requires last < |parents| && forall i | 0 <= i < |front| :: front[i] < |parents|
    requires AllLabels(Trees(bare, parents, front)) == SumOver(Parts(bare, parents), front)
    ensures AllLabels(Trees(bare, parents, ks)) == SumOver(Parts(bare, parents), ks)
  {
    TreesSnoc(bare, parents, front, last);
    SumSnoc(Parts(bare, parents), front, last);
  }

  lemma {:induction false} SumOverTrees(bare: seq<DocSymbol>, parents: seq<Option<nat>>, ks: seq<nat>)
    requires |bare| == |parents| && Upward(parents) && forall i | 0 <= i < |ks| :: ks[i] < |parents|
    ensures AllLabels(Trees(bare, parents, ks)) == SumOver(Parts(bare, parents), ks)
  {
    if ks != [] {
      var front, last := ks[..|ks| - 1], ks[|ks| - 1];
      assert ks == front + [last];
      SumOverTrees(bare, parents, front);
      NextTree(bare, parents, ks, front, last);
    }
  }

  lemma {:induction false} SumOverChildren(parents: seq<Option<nat>>, part: seq<multiset<DocSymbol>>, p: Option<nat>, n: nat)
    requires n <= |parents| == |part|
    ensures SumOver(part, ChildrenOf(parents, p, n)) == ChildSum(parents, part, p, n)
  {
    if n > 0 {
      SumOverChildren(parents, part, p, n - 1);
      var front := ChildrenOf(parents, p, n - 1);
      if parents[n - 1] == p {
        SumSnoc(part, front, n - 1);
      } else {
        assert ChildrenOf(parents, p, n) == front;
      }
    }
  }

  lemma LabelsOfTrees(bare: seq<DocSymbol>, parents: seq<Option<nat>>, p: Option<nat>)
    requires |bare| == |parents| && Upward(parents)
    ensures AllLabels(Trees(bare, parents, ChildrenOf(parents, p, |parents|)))
            == ChildSum(parents, Parts(bare, parents), p, |parents|)
  {
    SumOverTrees(bare, parents, ChildrenOf(parents, p, |parents|));
    SumOverChildren(parents, Parts(bare, parents), p, |parents|);
  }

  lemma LabelsOfTree(bare: seq<DocSymbol>, parents: seq<Option<nat>>, k: nat)
    requires |bare| == |parents| && Upward(parents) && k < |parents| && bare[k].children == []
    ensures Parts(bare, parents)[k] == multiset{bare[k]} + ChildSum(parents, Parts(bare, parents), Some(k), |parents|)
  {
    var t := Tree(bare, parents, k);
    assert t.children == Trees(bare, parents, ChildrenOf(parents, Some(k), |parents|));
    LabelsOfTrees(bare, parents, Some(k));
    assert t.(children := []) == bare[k];
  }

  ghost predicate AreBare(bare: seq<DocSymbol>) {
    forall k | 0 <= k < |bare| :: bare[k].children == []
  }

  lemma LiveStep(bare: seq<DocSymbol>, parents: seq<Option<nat>>, part: seq<multiset<DocSymbol>>, i: nat)
    requires i < |bare| == |parents| == |part| && Upward(parents)
    requires part[i] == multiset{bare[i]} + ChildSum(parents, part, Some(i), |parents|)
    requires LiveSum(parents, part, i + 1, |parents|) == multiset(bare[i + 1..])
    ensures LiveSum(parents, part, i, |parents|) == multiset(bare[i..])
  {
    var n := |parents|;
    assert bare[i..] == [bare[i]] + bare[i + 1..];
    TakeStep(parents, part, i, n);
    CompletesOne(LiveSum(parents, part, i, n), LiveSum(parents, part, i + 1, n), ChildSum(parents, part, Some(i), n),
                 part[i], bare[i]);
  }

  lemma {:induction false} LiveFrom(bare: seq<DocSymbol>, parents: seq<Option<nat>>, i: nat)
    requires |bare| == |parents| && Upward(parents) && AreBare(bare) && i <= |parents|
    ensures LiveSum(parents, Parts(bare, parents), i, |parents|) == multiset(bare[i..])
    decreases |parents| - i
  {
    var part, n := Parts(bare, parents), |parents|;
    if i < n {
      LiveFrom(bare, parents, i + 1);
      LabelsOfTree(bare, parents, i);
      LiveStep(bare, parents, part, i);
    }
  }

  /** Whatever the parents, the forest holds every node exactly once and nothing else. */
  lemma ForestHoldsEachOnce(bare: seq<DocSymbol>, parents: seq<Option<nat>>)
    requires |bare| == |parents| && Upward(parents) && AreBare(bare)
    ensures AllLabels(Forest(bare, parents)) == multiset(bare)
  {
    LiveFrom(bare, parents, 0);
    RootsAreLive(parents, Parts(bare, parents), |parents|);
    LabelsOfTrees(bare, parents, None);
    assert bare[0..] == bare;
  }

  // ---------------------------------------------------------------------------
  // Materializing the arena
  // ---------------------------------------------------------------------------

  function Moved(nodes: seq<Node>, ks: seq<nat>): seq<DocSymbol>
    requires forall i | 0 <= i < |ks| :: ks[i] < |nodes|
  {
    seq(|ks|, i requires 0 <= i < |ks| => nodes[ks[i]].entry)
  }

  ghost predicate AscendingWithin(ks: seq<nat>, low: nat, high: nat) {
    Ascending(ks) && forall i | 0 <= i < |ks| :: low <= ks[i] < high
  }

  ghost predicate Among(ks: seq<nat>, k: nat) {
    exists i | 0 <= i < |ks| :: ks[i] == k
  }

  lemma AmongNext(ks: seq<nat>, m: nat)
    requires m < |ks|
    ensures forall k: nat :: Among(ks[..m + 1], k) <==> Among(ks[..m], k) || k == ks[m]
  {
    forall k: nat | Among(ks[..m], k) || k == ks[m] ensures Among(ks[..m + 1], k) {
      if k == ks[m] {
        assert ks[..m + 1][m] == k;
      } else {
        var i :| 0 <= i < m && ks[..m][i] == k;
        assert ks[..m + 1][i] == k;
      }
    }
  }

  lemma AscendingIsNew(ks: seq<nat>, m: nat, low: nat, high: nat)
    requires AscendingWithin(ks, low, high) && m < |ks|
    ensures !Among(ks[..m], ks[m])
  {
  }

  /** Moves the entries at the given places out of the arena, in order. */
  method TakeAll(nodes: seq<Node>, ks: seq<nat>) returns (out: seq<Node>, taken: seq<DocSymbol>)
    requires AscendingWithin(ks, 0, |nodes|)
    ensures taken == Moved(nodes, ks)
    ensures |out| == |nodes|
    ensures forall j: nat | j < |nodes| :: out[j] == if Among(ks, j) then nodes[j].(entry := PLACEHOLDER) else nodes[j]
  {
    out, taken := nodes, [];
    for m := 0 to |ks|
      invariant |out| == |nodes| && taken == Moved(nodes, ks[..m])
      invariant forall j: nat | j < |nodes| :: out[j] == if Among(ks[..m], j) then nodes[j].(entry := PLACEHOLDER) else nodes[j]
    {
      AmongNext(ks, m);
      AscendingIsNew(ks, m, 0, |nodes|);
      var c := ks[m];
      taken := taken + [out[c].entry];
      out := out[c := out[c].(entry := PLACEHOLDER)];
    }
    assert ks[..|ks|] == ks;
  }

  /** The arena when the nodes from `i` on are complete: each of them is a whole tree or has been moved. */
  ghost function Expected(bare: seq<DocSymbol>, parents: seq<Option<nat>>, i: nat, j: nat): Node
    requires |bare| == |parents| && Upward(parents) && j < |parents|
  {
    if j < i then Node(bare[j], ChildrenOf(parents, Some(j), |parents|))
    else Node(if Live(parents[j], i) then Tree(bare, parents, j) else PLACEHOLDER, [])
  }

  ghost predicate CompleteFrom(bare: seq<DocSymbol>, parents: seq<Option<nat>>, i: nat, nodes: seq<Node>) {
    && |bare| == |parents| == |nodes| && Upward(parents)
    && forall j: nat | j < |nodes| :: nodes[j] == Expected(bare, parents, i, j)
  }

  lemma ChildrenAscend(parents: seq<Option<nat>>, p: Option<nat>)
    requires Upward(parents)
    ensures AscendingWithin(ChildrenOf(parents, p, |parents|), 0, |parents|)
    ensures forall k: nat | k < |parents| :: Among(ChildrenOf(parents, p, |parents|), k) <==> parents[k] == p
  {
    ChildrenMeans(parents, p, |parents|);
  }

  /** The trees of the children are what the arena holds for them. */
  lemma {:induction false} ChildrenAreComplete(bare: seq<DocSymbol>, parents: seq<Option<nat>>, i: nat, p: Option<nat>, nodes: seq<Node>)
    requires CompleteFrom(bare, parents, i, nodes) && Live(p, i) && (p.Some? ==> p.value + 1 == i) && (p.None? ==> i == 0)
    ensures var ks := ChildrenOf(parents, p, |parents|); Moved(nodes, ks) == Trees(bare, parents, ks)
  {
    var ks := ChildrenOf(parents, p, |parents|);
    forall m | 0 <= m < |ks| ensures nodes[ks[m]].entry == Tree(bare, parents, ks[m]) {
      assert parents[ks[m]] == p;
      assert nodes[ks[m]] == Expected(bare, parents, i, ks[m]);
    }
  }

  lemma {:induction false} CompleteNext(bare: seq<DocSymbol>, parents: seq<Option<nat>>, i: nat, nodes: seq<Node>, out: seq<Node>)
    requires CompleteFrom(bare, parents, i + 1, nodes) && i < |nodes| == |out| && AreBare(bare)
    requires out[i] == Node(bare[i].(children := Moved(nodes, ChildrenOf(parents, Some(i), |parents|))), [])
    requires forall j: nat | j < |nodes| && j != i ::
               out[j] == if parents[j] == Some(i) then nodes[j].(entry := PLACEHOLDER) else nodes[j]
    ensures CompleteFrom(bare, parents, i, out)
  {
    ChildrenAreComplete(bare, parents, i + 1, Some(i), nodes);
    forall j: nat | j < |out| ensures out[j] == Expected(bare, parents, i, j) {
      assert nodes[j] == Expected(bare, parents, i + 1, j);
    }
  }

  /** Moves the children of a node out of the arena and into it. */
  method TakeInto(nodes: seq<Node>, i: nat) returns (out: seq<Node>)
    requires i < |nodes| && AscendingWithin(nodes[i].children, 0, |nodes|) && !Among(nodes[i].children, i)
    requires nodes[i].entry.children == []
    ensures |out| == |nodes|
    ensures out[i] == Node(nodes[i].entry.(children := Moved(nodes, nodes[i].children)), [])
    ensures forall j: nat | j < |nodes| && j != i ::
              out[j] == if Among(nodes[i].children, j) then nodes[j].(entry := PLACEHOLDER) else nodes[j]
  {
    var children := nodes[i].children;
    var emptied := nodes[i := nodes[i].(children := [])];
    var taken;
    out, taken := TakeAll(emptied, children);
    assert Moved(emptied, children) == Moved(nodes, children);
    out := out[i := out[i].(entry := out[i].entry.(children := out[i].entry.children + taken))];
  }

  /** One step of the reverse walk: node `i` takes its children, which are complete. */
  method TakeChildren(nodes: seq<Node>, i: nat, ghost bare: seq<DocSymbol>, ghost parents: seq<Option<nat>>)
    returns (out: seq<Node>)
    requires CompleteFrom(bare, parents, i + 1, nodes) && i < |nodes| && AreBare(bare)
    ensures CompleteFrom(bare, parents, i, out)
  {
    assert nodes[i] == Expected(bare, parents, i + 1, i);
    ChildrenAscend(parents, Some(i));
    out := TakeInto(nodes, i);
    CompleteNext(bare, parents, i, nodes, out);
  }

  /** Completes every node, the last one first, and moves the roots out: no placeholder is left in. */
  method Materialize(arena: seq<Node>, roots: seq<nat>, ghost bare: seq<DocSymbol>, ghost parents: seq<Option<nat>>)
    returns (forest: seq<DocSymbol>)
    requires CompleteFrom(bare, parents, |arena|, arena) && AreBare(bare) && roots == ChildrenOf(parents, None, |parents|)
    ensures forest == Forest(bare, parents)
  {
    var nodes := arena;
    for i := |arena| downto 0
      invariant |nodes| == |arena| && CompleteFrom(bare, parents, i, nodes)
    {
      nodes := TakeChildren(nodes, i, bare, parents);
    }
    ChildrenAscend(parents, None);
    var _, taken := TakeAll(nodes, roots);
    ChildrenAreComplete(bare, parents, 0, None, nodes);
    forest := taken;
  }

  // ---------------------------------------------------------------------------
  // Building the arena
  // ---------------------------------------------------------------------------

  function DescriptorName(symbol: string): string {
    var split := SplitLast(symbol);
    if split.Some? then split.value.1.name else ""
  }

  function BareOf(r: Record): DocSymbol {
    DocSymbol(
      if r.display == "" then DescriptorName(r.symbol) else r.display,
      r.kind,
      Span(Line(r.start), Character(r.start), Line(r.end), Character(r.end)),
      [])
  }

  /** Twelve bits of character below the line. */
  predicate IsPackedAs(packed: nat, line: nat, character: nat) {
    packed == 4096 * line + character && character < 4096
  }

  /** The display name, or without one the name of the last descriptor. */
  ghost predicate Names(r: Record, name: string) {
    if r.display != "" then name == r.display
    else if Decomposed(r.symbol) then exists owner, d, raw :: Decomposes(r.symbol, owner, d, raw) && name == d.name
    else name == ""
  }

  ghost predicate Decomposed(symbol: string) {
    exists owner, d, raw :: Decomposes(symbol, owner, d, raw)
  }

  /** An entry carries name, kind and span of a record. */
  ghost predicate Tells(t: DocSymbol, r: Record) {
    && Names(r, t.name) && t.kind == r.kind
    && IsPackedAs(r.start, t.span.startLine, t.span.startChar)
    && IsPackedAs(r.end, t.span.endLine, t.span.endChar)
  }

  lemma BareTells(r: Record)
    ensures Tells(BareOf(r), r)
  {
    if SplitLast(r.symbol).Some? {
      var (owner, d) := SplitLast(r.symbol).value;
      SplitMeans(r.symbol, owner, d);
    }
    forall owner, d, raw | Decomposes(r.symbol, owner, d, raw) ensures SplitLast(r.symbol) == Some((owner, d)) {
      SplitMeans(r.symbol, owner, d);
    }
  }

  /** All the nodes with a given parent, in order. */
  ghost predicate AreAllUnder(parents: seq<Option<nat>>, p: Option<nat>, ks: seq<nat>) {
    Ascending(ks) && forall k: nat :: k in ks <==> k < |parents| && parents[k] == p
  }

  /** A tree tells of node `k` and, in order, of every node below it. */
  ghost predicate Depicts(t: DocSymbol, sel: seq<Record>, parents: seq<Option<nat>>, k: nat)
    decreases t
  {
    k < |sel| && Tells(t, sel[k]) && DepictAll(t.children, sel, parents, Some(k))
  }

  ghost predicate DepictAll(ts: seq<DocSymbol>, sel: seq<Record>, parents: seq<Option<nat>>, p: Option<nat>)
    decreases ts
  {
    exists ks :: AreAllUnder(parents, p, ks) && |ks| == |ts| && forall i | 0 <= i < |ts| :: Depicts(ts[i], sel, parents, ks[i])
  }

  lemma {:induction false} TreeDepicts(sel: seq<Record>, parents: seq<Option<nat>>, k: nat)
    requires |sel| == |parents| && Upward(parents) && k < |parents|
    ensures Depicts(Tree(Bares(sel), parents, k), sel, parents, k)
    decreases |parents| - k
  {
    var ks := ChildrenOf(parents, Some(k), |parents|);
    BareTells(sel[k]);
    forall i | 0 <= i < |ks| ensures Depicts(Tree(Bares(sel), parents, ks[i]), sel, parents, ks[i]) {
      TreeDepicts(sel, parents, ks[i]);
    }
    ChildrenMeans(parents, Some(k), |parents|);
    assert AreAllUnder(parents, Some(k), ks);
  }

  /** The forest tells of every selected definition, in order and under its parent. */
  lemma ForestDepicts(sel: seq<Record>, parents: seq<Option<nat>>)
    requires |sel| == |parents| && Upward(parents)
    ensures DepictAll(Forest(Bares(sel), parents), sel, parents, None)
  {
    var ks := ChildrenOf(parents, None, |parents|);
    forall i | 0 <= i < |ks| ensures Depicts(Tree(Bares(sel), parents, ks[i]), sel, parents, ks[i]) {
      TreeDepicts(sel, parents, ks[i]);
    }
    ChildrenMeans(parents, None, |parents|);
    assert AreAllUnder(parents, None, ks);
  }

  function Bares(sel: seq<Record>): (bare: seq<DocSymbol>)
    ensures |bare| == |sel| && forall k | 0 <= k < |sel| :: bare[k] == BareOf(sel[k])
  {
    seq(|sel|, k requires 0 <= k < |sel| => BareOf(sel[k]))
  }

  function KeysOf(sel: seq<Record>): (keys: seq<string>)
    ensures |keys| == |sel| && forall k | 0 <= k < |sel| :: keys[k] == sel[k].symbol
  {
    seq(|sel|, k requires 0 <= k < |sel| => sel[k].symbol)
  }

  /** The parent of each definition: its nearest owner among the definitions before it. */
  function Parents(u: Unicode, keys: seq<string>): (parents: seq<Option<nat>>)
    ensures |parents| == |keys|
    ensures forall k | 0 <= k < |keys| :: parents[k] == Nearest(u, keys[..k], Owners(keys[k]))
  {
    seq(|keys|, k requires 0 <= k < |keys| => Nearest(u, keys[..k], Owners(keys[k])))
  }

  lemma NearestInRange(u: Unicode, keys: seq<string>, owners: seq<string>)
    ensures Nearest(u, keys, owners).Some? ==> Nearest(u, keys, owners).value < |keys|
  {
    NearestMeans(u, keys, owners);
  }

  lemma ParentsNext(u: Unicode, keys: seq<string>, key: string)
    ensures Parents(u, keys + [key]) == Parents(u, keys) + [Nearest(u, keys, Owners(key))]
  {
    var next := keys + [key];
    assert next[..|keys|] == keys;
    forall k | 0 <= k < |keys| ensures next[..k] == keys[..k] {
    }
  }

  lemma {:induction false} ChildrenPrefix(parents: seq<Option<nat>>, p: Option<nat>, q: Option<nat>, n: nat)
    requires n <= |parents|
    ensures ChildrenOf(parents + [p], q, n) == ChildrenOf(parents, q, n)
  {
    if n > 0 {
      ChildrenPrefix(parents, p, q, n - 1);
    }
  }

  lemma ChildrenNext(parents: seq<Option<nat>>, p: Option<nat>, q: Option<nat>)
    ensures ChildrenOf(parents + [p], q, |parents| + 1)
            == ChildrenOf(parents, q, |parents|) + if p == q then [|parents|] else []
  {
    ChildrenPrefix(parents, p, q, |parents|);
  }

  lemma {:induction false} NoneYet(parents: seq<Option<nat>>, n: nat)
    requires Upward(parents) && n <= |parents|
    ensures ChildrenOf(parents, Some(|parents|), n) == []
  {
    if n > 0 {
      NoneYet(parents, n - 1);
    }
  }

  function Indexed(nodeOf: map<string, nat>, symbol: string): Option<nat> {
    if symbol in nodeOf then Some(nodeOf[symbol]) else None
  }

  ghost predicate IndexOf(nodeOf: map<string, nat>, keys: seq<string>) {
    forall s :: Indexed(nodeOf, s) == Find(keys, s)
  }

  lemma IndexNext(nodeOf: map<string, nat>, keys: seq<string>, key: string)
    requires IndexOf(nodeOf, keys) && key !in nodeOf
    ensures IndexOf(nodeOf[key := |keys|], keys + [key])
  {
    var next := keys + [key];
    assert Indexed(nodeOf, key) == Find(keys, key);
    forall s ensures Indexed(nodeOf[key := |keys|], s) == Find(next, s) {
      FindNext(keys, key, s);
      assert Indexed(nodeOf, s) == Find(keys, s);
    }
  }

  lemma FindNext(keys: seq<string>, key: string, s: string)
    ensures Find(keys + [key], s) == if Has(keys, s) then Find(keys, s) else if s == key then Some(|keys|) else None
  {
    var next := keys + [key];
    if Has(keys, s) {
      assert next[Find(keys, s).value] == s;
    } else if s == key {
      assert next[|keys|] == s;
    }
  }

  function LocatedIn(u: Unicode, nodeOf: map<string, nat>, ancestor: string): Option<nat> {
    if ancestor in nodeOf then Some(nodeOf[ancestor])
    else
      match Companion(u, ancestor)
      case Some(c) => Indexed(nodeOf, c)
      case None => None
  }

  lemma {:induction false} InnermostAgrees(f: string -> Option<nat>, g: string -> Option<nat>, owners: seq<string>)
    requires forall s :: f(s) == g(s)
    ensures Innermost(f, owners) == Innermost(g, owners)
    decreases |owners|
  {
    if owners != [] {
      InnermostAgrees(f, g, owners[..|owners| - 1]);
    }
  }

  lemma ParentFound(u: Unicode, nodeOf: map<string, nat>, keys: seq<string>, owners: seq<string>)
    requires IndexOf(nodeOf, keys)
    ensures Innermost(a => LocatedIn(u, nodeOf, a), owners) == Nearest(u, keys, owners)
  {
    forall s ensures LocatedIn(u, nodeOf, s) == Located(u, keys, s) {
      assert Indexed(nodeOf, s) == Find(keys, s);
    }
    InnermostAgrees(a => LocatedIn(u, nodeOf, a), a => Located(u, keys, a), owners);
  }

  ghost predicate HoldsAt(node: Node, bare: seq<DocSymbol>, parents: seq<Option<nat>>, k: nat) {
    k < |bare| == |parents| && node == Node(bare[k], ChildrenOf(parents, Some(k), |parents|))
  }

  /** The arena holds the selected definitions with the children they have so far. */
  ghost predicate Holds(nodes: seq<Node>, roots: seq<nat>, bare: seq<DocSymbol>, parents: seq<Option<nat>>) {
    && |nodes| == |bare| == |parents| && Upward(parents)
    && (forall k: nat | k < |nodes| :: HoldsAt(nodes[k], bare, parents, k))
    && roots == ChildrenOf(parents, None, |parents|)
  }

  /** Appends a node and hangs it under its parent, or among the roots. */
  method AddNode(nodes: seq<Node>, roots: seq<nat>, entry: DocSymbol, parent: Option<nat>,
                 ghost bare: seq<DocSymbol>, ghost parents: seq<Option<nat>>)
    returns (nodes': seq<Node>, roots': seq<nat>)
    requires Holds(nodes, roots, bare, parents) && (parent.Some? ==> parent.value < |nodes|)
    ensures Holds(nodes', roots', bare + [entry], parents + [parent])
  {
    var idx := |nodes|;
    nodes', roots' := nodes + [Node(entry, [])], roots;
    match parent {
      case Some(p) => nodes' := nodes'[p := nodes'[p].(children := nodes'[p].children + [idx])];
      case None => roots' := roots' + [idx];
    }
    HoldsNext(nodes, roots, entry, parent, bare, parents, nodes', roots');
  }

  lemma HoldsNext(nodes: seq<Node>, roots: seq<nat>, entry: DocSymbol, parent: Option<nat>, bare: seq<DocSymbol>,
                  parents: seq<Option<nat>>, nodes': seq<Node>, roots': seq<nat>)
    requires Holds(nodes, roots, bare, parents) && (parent.Some? ==> parent.value < |nodes|) && |nodes'| == |nodes| + 1
    requires forall k: nat | k < |nodes| :: Gains(nodes[k], nodes'[k], parent == Some(k), |nodes|)
    requires nodes'[|nodes|] == Node(entry, []) && roots' == roots + if parent == None then [|nodes|] else []
    ensures Holds(nodes', roots', bare + [entry], parents + [parent])
  {
    forall k: nat | k < |nodes'| ensures HoldsAt(nodes'[k], bare + [entry], parents + [parent], k) {
      if k == |nodes| {
        NewNode(parents, parent);
      } else {
        assert HoldsAt(nodes[k], bare, parents, k);
        NodeNext(bare, parents, entry, parent, k, nodes[k], nodes'[k]);
      }
    }
    ChildrenNext(parents, parent, None);
  }

  /** Whether node `k` gains the new node as its last child. */
  ghost predicate Gains(before: Node, after: Node, gains: bool, idx: nat) {
    after == before.(children := before.children + if gains then [idx] else [])
  }

  lemma NewNode(parents: seq<Option<nat>>, parent: Option<nat>)
    requires Upward(parents) && (parent.Some? ==> parent.value < |parents|)
    ensures ChildrenOf(parents + [parent], Some(|parents|), |parents| + 1) == []
  {
    ChildrenNext(parents, parent, Some(|parents|));
    NoneYet(parents, |parents|);
  }

  lemma NodeNext(bare: seq<DocSymbol>, parents: seq<Option<nat>>, entry: DocSymbol, parent: Option<nat>, k: nat,
                 before: Node, after: Node)
    requires k < |bare| == |parents| && HoldsAt(before, bare, parents, k) && Gains(before, after, parent == Some(k), |parents|)
    ensures HoldsAt(after, bare + [entry], parents + [parent], k)
  {
    ChildrenNext(parents, parent, Some(k));
  }

  /** The selected definitions so far, in the arena and in the index by symbol. */
  ghost predicate InArena(u: Unicode, sel: seq<Record>, nodes: seq<Node>, nodeOf: map<string, nat>, roots: seq<nat>) {
    Holds(nodes, roots, Bares(sel), Parents(u, KeysOf(sel))) && IndexOf(nodeOf, KeysOf(sel))
  }

  lemma SelectedNext(records: seq<Record>, i: nat)
    requires i < |records|
    ensures var sel, r := Selected(records[..i]), records[i];
            Selected(records[..i + 1]) == if Selects(r) && !Has(KeysOf(sel), r.symbol) then sel + [r] else sel
  {
    assert records[..i + 1][..i] == records[..i];
    ContainsIsHas(Selected(records[..i]), records[i].symbol);
  }

  method AddRecord(u: Unicode, r: Record, nodes: seq<Node>, nodeOf: map<string, nat>, roots: seq<nat>, ghost sel: seq<Record>)
    returns (nodes': seq<Node>, nodeOf': map<string, nat>, roots': seq<nat>)
    requires InArena(u, sel, nodes, nodeOf, roots)
    ensures InArena(u, if Selects(r) && !Has(KeysOf(sel), r.symbol) then sel + [r] else sel, nodes', nodeOf', roots')
  {
    nodes', nodeOf', roots' := nodes, nodeOf, roots;
    assert Indexed(nodeOf, r.symbol) == Find(KeysOf(sel), r.symbol);
    if !Selects(r) || r.symbol in nodeOf {
      return;
    }
    var parent := Innermost(a => LocatedIn(u, nodeOf, a), Owners(r.symbol));
    Extend(u, nodeOf, sel, r);
    nodes', roots' := AddNode(nodes, roots, BareOf(r), parent, Bares(sel), Parents(u, KeysOf(sel)));
    nodeOf' := nodeOf[r.symbol := |nodes|];
  }

  /** The forest of a document: every selected definition once, under its nearest owner that comes
      earlier, siblings in source order; empty for a document that is not in the index. */
  method DocumentSymbols(u: Unicode, doc: Option<seq<Record>>) returns (forest: seq<DocSymbol>)
    ensures doc.None? ==> forest == []
    ensures doc.Some? ==>
              var sel := Selected(doc.value);
              var parents := Parents(u, KeysOf(sel));
              && Upward(parents) && forest == Forest(Bares(sel), parents)
              && AllLabels(forest) == multiset(Bares(sel))
              && DepictAll(forest, sel, parents, None)
  {
    if doc.None? {
      return [];
    }
    var records := doc.value;
    var nodes: seq<Node>, nodeOf: map<string, nat>, roots: seq<nat> := [], map[], [];
    for i := 0 to |records|
      invariant InArena(u, Selected(records[..i]), nodes, nodeOf, roots)
    {
      SelectedNext(records, i);
      nodes, nodeOf, roots := AddRecord(u, records[i], nodes, nodeOf, roots, Selected(records[..i]));
    }
    ghost var sel := Selected(records);
    assert records[..|records|] == records;
    forest := Materialize(nodes, roots, Bares(sel), Parents(u, KeysOf(sel)));
    ForestHoldsEachOnce(Bares(sel), Parents(u, KeysOf(sel)));
    ForestDepicts(sel, Parents(u, KeysOf(sel)));
  }

  lemma ContainsIsHas(sel: seq<Record>, symbol: string)
    ensures Contains(sel, symbol) <==> Has(KeysOf(sel), symbol)
  {
    if Contains(sel, symbol) {
      var i :| 0 <= i < |sel| && sel[i].symbol == symbol;
      assert KeysOf(sel)[i] == symbol;
    }
  }

  lemma Extend(u: Unicode, nodeOf: map<string, nat>, sel: seq<Record>, r: Record)
    requires IndexOf(nodeOf, KeysOf(sel)) && r.symbol !in nodeOf
    ensures var parent := Innermost(a => LocatedIn(u, nodeOf, a), Owners(r.symbol));
            && (parent.Some? ==> parent.value < |sel|)
            && Bares(sel + [r]) == Bares(sel) + [BareOf(r)]
            && Parents(u, KeysOf(sel + [r])) == Parents(u, KeysOf(sel)) + [parent]
            && IndexOf(nodeOf[r.symbol := |sel|], KeysOf(sel + [r]))
  {
    var keys := KeysOf(sel);
    assert KeysOf(sel + [r]) == keys + [r.symbol];
    assert Bares(sel + [r]) == Bares(sel) + [BareOf(r)];
    ParentFound(u, nodeOf, keys, Owners(r.symbol));
    NearestInRange(u, keys, Owners(r.symbol));
    ParentsNext(u, keys, r.symbol);
    IndexNext(nodeOf, keys, r.symbol);
  }

  /** A parent is the nearest owner, or companion of one, among the earlier definitions; a root has none. */
  lemma ParentIsNearest(u: Unicode, sel: seq<Record>, k: nat)
    requires k < |sel|
    ensures var keys := KeysOf(sel);
            var parent := Parents(u, keys)[k];
            && (parent.Some? ==> exists o: nat :: NearestAt(u, keys[..k], Owners(keys[k]), o, parent.value))
            && (parent.None? ==> forall o | 0 <= o < |Owners(keys[k])| :: NoneStandsFor(u, keys[..k], Owners(keys[k])[o]))
  {
    NearestMeans(u, KeysOf(sel)[..k], Owners(KeysOf(sel)[k]));
  }
}
