/**
  * Connectivity: two elements are connected when a chain of edges, read in either direction, leads
  * from one to the other. A union-find that is told every edge holds exactly this relation.
  */
module Chains {
  import opened UnionFinds

  ghost predicate Adjacent<T(!new)>(edges: set<(T, T)>, a: T, b: T) {
    (a, b) in edges || (b, a) in edges
  }

  /** A chain of `n` edges. */
  ghost predicate Chain<T(!new)>(edges: set<(T, T)>, n: nat, a: T, b: T) {
    if n == 0 then a == b else exists c :: Adjacent(edges, a, c) && Chain(edges, n - 1, c, b)
  }

  ghost predicate Connected<T(!new)>(edges: set<(T, T)>, a: T, b: T) {
    exists n: nat :: Chain(edges, n, a, b)
  }

  lemma {:induction false} ChainAppend<T(!new)>(edges: set<(T, T)>, n: nat, m: nat, a: T, b: T, c: T)
    requires Chain(edges, n, a, b) && Chain(edges, m, b, c)
    ensures Chain(edges, n + m, a, c)
  {
    if n > 0 {
      var x :| Adjacent(edges, a, x) && Chain(edges, n - 1, x, b);
      ChainAppend(edges, n - 1, m, x, b, c);
    }
  }

  lemma {:induction false} ChainReverse<T(!new)>(edges: set<(T, T)>, n: nat, a: T, b: T)
    requires Chain(edges, n, a, b)
    ensures Chain(edges, n, b, a)
  {
    if n > 0 {
      var x :| Adjacent(edges, a, x) && Chain(edges, n - 1, x, b);
      ChainReverse(edges, n - 1, x, b);
      assert Adjacent(edges, x, a) && Chain(edges, 0, a, a);
      assert Chain(edges, 1, x, a);
      ChainAppend(edges, n - 1, 1, b, x, a);
    }
  }

  lemma {:induction false} ChainGrows<T(!new)>(edges: set<(T, T)>, more: set<(T, T)>, n: nat, a: T, b: T)
    requires edges <= more && Chain(edges, n, a, b)
    ensures Chain(more, n, a, b)
  {
    if n > 0 {
      var x :| Adjacent(edges, a, x) && Chain(edges, n - 1, x, b);
      ChainGrows(edges, more, n - 1, x, b);
      assert Adjacent(more, a, x);
    }
  }

  lemma ConnectedEdge<T(!new)>(edges: set<(T, T)>, a: T, b: T)
    requires Adjacent(edges, a, b)
    ensures Connected(edges, a, b)
  {
    assert Chain(edges, 0, b, b);
    assert Chain(edges, 1, a, b);
  }

  lemma ConnectedVia<T(!new)>(edges: set<(T, T)>, a: T, b: T, c: T)
    requires Connected(edges, a, b) && Connected(edges, b, c)
    ensures Connected(edges, a, c)
  {
    var n: nat :| Chain(edges, n, a, b);
    var m: nat :| Chain(edges, m, b, c);
    ChainAppend(edges, n, m, a, b, c);
  }

  lemma ConnectedBack<T(!new)>(edges: set<(T, T)>, a: T, b: T)
    requires Connected(edges, a, b)
    ensures Connected(edges, b, a)
  {
    var n: nat :| Chain(edges, n, a, b);
    ChainReverse(edges, n, a, b);
  }

  ghost predicate IsEquivalence<T(!new)>(r: (T, T) -> bool) {
    && (forall a :: r(a, a))
    && (forall a, b :: r(a, b) ==> r(b, a))
    && (forall a, b, c :: r(a, b) && r(b, c) ==> r(a, c))
  }

  lemma {:induction false} ChainInside<T(!new)>(edges: set<(T, T)>, r: (T, T) -> bool, n: nat, a: T, b: T)
    requires IsEquivalence(r) && (forall e | e in edges :: r(e.0, e.1)) && Chain(edges, n, a, b)
    ensures r(a, b)
  {
    if n > 0 {
      var x :| Adjacent(edges, a, x) && Chain(edges, n - 1, x, b);
      ChainInside(edges, r, n - 1, x, b);
    }
  }

  /** Connectedness is the least equivalence that contains the edges: it is one, and every equivalence
      that contains the edges contains it. */
  lemma ConnectedIsLeastEquivalence<T(!new)>(edges: set<(T, T)>, a: T, b: T, c: T)
    ensures Connected(edges, a, a)
    ensures Connected(edges, a, b) ==> Connected(edges, b, a)
    ensures Connected(edges, a, b) && Connected(edges, b, c) ==> Connected(edges, a, c)
    ensures (a, b) in edges ==> Connected(edges, a, b)
    ensures Connected(edges, a, b) ==>
              forall r: (T, T) -> bool | IsEquivalence(r) && (forall e | e in edges :: r(e.0, e.1)) :: r(a, b)
  {
    assert Chain(edges, 0, a, a);
    if (a, b) in edges {
      ConnectedEdge(edges, a, b);
    }
    if Connected(edges, a, b) {
      ConnectedBack(edges, a, b);
      if Connected(edges, b, c) {
        ConnectedVia(edges, a, b, c);
      }
      var n: nat :| Chain(edges, n, a, b);
      forall r: (T, T) -> bool | IsEquivalence(r) && (forall e | e in edges :: r(e.0, e.1)) ensures r(a, b) {
        ChainInside(edges, r, n, a, b);
      }
    }
  }

  lemma ConnectedGrows<T(!new)>(edges: set<(T, T)>, more: set<(T, T)>, a: T, b: T)
    requires edges <= more && Connected(edges, a, b)
    ensures Connected(more, a, b)
  {
    var n: nat :| Chain(edges, n, a, b);
    ChainGrows(edges, more, n, a, b);
  }

  // ---------------------------------------------------------------------------
  // Representatives that hold exactly the connectivity of a set of edges
  // ---------------------------------------------------------------------------

  ghost predicate SameIffConnected<T(!new)>(reps: seq<nat>, keys: seq<T>, edges: set<(T, T)>, i: nat, j: nat)
    requires i < |keys| == |reps| && j < |keys|
  {
    reps[i] == reps[j] <==> Connected(edges, keys[i], keys[j])
  }

  ghost predicate Partitions<T(!new)>(reps: seq<nat>, keys: seq<T>, edges: set<(T, T)>) {
    && |reps| == |keys|
    && (forall i, j | 0 <= i < |keys| && 0 <= j < |keys| && i != j :: keys[i] != keys[j])
    && (forall e | e in edges :: e.0 in keys && e.1 in keys)
    && (forall i, j | 0 <= i < |keys| && 0 <= j < |keys| :: SameIffConnected(reps, keys, edges, i, j))
  }

  lemma NoEdges<T(!new)>(keys: seq<T>)
    requires forall i, j | 0 <= i < |keys| && 0 <= j < |keys| && i != j :: keys[i] != keys[j]
    ensures Partitions(seq(|keys|, i => i), keys, {})
  {
    var none: set<(T, T)> := {};
    var reps := seq(|keys|, i => i);
    forall i, j | 0 <= i < |keys| && 0 <= j < |keys| ensures SameIffConnected(reps, keys, none, i, j) {
      assert Chain(none, 0, keys[i], keys[i]);
      if n: nat :| Chain(none, n, keys[i], keys[j]) {
        assert forall c :: !Adjacent(none, keys[i], c);
      }
    }
  }

  /** The effect of one union: the edge is added, and nothing else changes. */
  lemma AddEdge<T(!new)>(reps: seq<nat>, keys: seq<T>, edges: set<(T, T)>, a: nat, b: nat, gone: nat, kept: nat)
    requires Partitions(reps, keys, edges) && a < |keys| && b < |keys|
    requires {gone, kept} == {reps[a], reps[b]}
    ensures Partitions(Merged(reps, gone, kept), keys, edges + {(keys[a], keys[b])})
  {
    var merged, more := Merged(reps, gone, kept), edges + {(keys[a], keys[b])};
    forall i, j | 0 <= i < |keys| && 0 <= j < |keys| ensures SameIffConnected(merged, keys, more, i, j) {
      if merged[i] == merged[j] {
        MergedAreConnected(reps, keys, edges, a, b, gone, kept, i, j);
      } else if n: nat :| Chain(more, n, keys[i], keys[j]) {
        var k := ChainsStayMerged(reps, keys, edges, a, b, gone, kept, n, i, keys[j]);
      }
    }
  }

  lemma MergedAreConnected<T(!new)>(reps: seq<nat>, keys: seq<T>, edges: set<(T, T)>, a: nat, b: nat,
                                    gone: nat, kept: nat, i: nat, j: nat)
    requires Partitions(reps, keys, edges) && a < |keys| && b < |keys| && i < |keys| && j < |keys|
    requires {gone, kept} == {reps[a], reps[b]}
    requires Merged(reps, gone, kept)[i] == Merged(reps, gone, kept)[j]
    ensures Connected(edges + {(keys[a], keys[b])}, keys[i], keys[j])
  {
    var more := edges + {(keys[a], keys[b])};
    assert gone in {reps[a], reps[b]} && kept in {reps[a], reps[b]} && reps[a] in {gone, kept} && reps[b] in {gone, kept};
    if reps[i] == reps[j] {
      assert SameIffConnected(reps, keys, edges, i, j);
      ConnectedGrows(edges, more, keys[i], keys[j]);
    } else {
      var (x, y) := if reps[i] == reps[a] then (a, b) else (b, a);
      assert SameIffConnected(reps, keys, edges, i, x) && SameIffConnected(reps, keys, edges, y, j);
      ConnectedGrows(edges, more, keys[i], keys[x]);
      ConnectedGrows(edges, more, keys[y], keys[j]);
      ConnectedEdge(more, keys[x], keys[y]);
      ConnectedVia(more, keys[i], keys[x], keys[y]);
      ConnectedVia(more, keys[i], keys[y], keys[j]);
    }
  }

  lemma {:induction false} ChainsStayMerged<T(!new)>(reps: seq<nat>, keys: seq<T>, edges: set<(T, T)>, a: nat, b: nat,
                                                     gone: nat, kept: nat, n: nat, i: nat, end: T) returns (j: nat)
    requires Partitions(reps, keys, edges) && a < |keys| && b < |keys| && i < |keys|
    requires {gone, kept} == {reps[a], reps[b]}
    requires Chain(edges + {(keys[a], keys[b])}, n, keys[i], end)
    ensures j < |keys| && keys[j] == end && Merged(reps, gone, kept)[i] == Merged(reps, gone, kept)[j]
    decreases n
  {
    if n == 0 {
      j := i;
    } else {
      var more := edges + {(keys[a], keys[b])};
      var c :| Adjacent(more, keys[i], c) && Chain(more, n - 1, c, end);
      assert reps[a] in {gone, kept} && reps[b] in {gone, kept};
      var k: nat :| k < |keys| && keys[k] == c;
      if Adjacent(edges, keys[i], c) {
        ConnectedEdge(edges, keys[i], c);
        assert SameIffConnected(reps, keys, edges, i, k);
      }
      j := ChainsStayMerged(reps, keys, edges, a, b, gone, kept, n - 1, k, end);
    }
  }
}
