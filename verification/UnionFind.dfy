/**
  * Union-find with path compression and union by rank, over parent and rank arrays that `Find`
  * and `Union` update in place.
  *
  * The abstract state is the sequence of representatives. Besides keeping it exact, every operation
  * keeps the rank discipline: ranks rise along parent links and a root of rank `r` stands for at
  * least `2^r` elements, so no walk to a root is longer than the logarithm of the size.
  */
module UnionFinds {
  import opened Bits

  // ---------------------------------------------------------------------------
  // Parent forests
  // ---------------------------------------------------------------------------

  ghost predicate Forest(parent: seq<nat>, rank: seq<nat>) {
    && |parent| == |rank|
    && (forall i {:trigger parent[i]} | 0 <= i < |parent| :: parent[i] < |parent|)
    && (forall i {:trigger rank[i]} | 0 <= i < |rank| :: rank[i] <= |rank|)
    && (forall i {:trigger parent[i]} | 0 <= i < |parent| && parent[i] != i :: rank[i] < rank[parent[i]])
  }

  /** The root that `i` leads to. */
  ghost function Root(parent: seq<nat>, rank: seq<nat>, i: nat): (r: nat)
    requires Forest(parent, rank) && i < |parent|
    ensures r < |parent| && parent[r] == r && rank[i] <= rank[r] && (i != r ==> rank[i] < rank[r])
    decreases |parent| - rank[i]
  {
    if parent[i] == i then i else Root(parent, rank, parent[i])
  }

  /** The number of links from `i` to its root. */
  ghost function Depth(parent: seq<nat>, rank: seq<nat>, i: nat): (d: nat)
    requires Forest(parent, rank) && i < |parent|
    ensures rank[i] + d <= rank[Root(parent, rank, i)]
    decreases |parent| - rank[i]
  {
    if parent[i] == i then 0 else 1 + Depth(parent, rank, parent[i])
  }

  ghost function Roots(parent: seq<nat>, rank: seq<nat>): (reps: seq<nat>)
    requires Forest(parent, rank)
    ensures |reps| == |parent| && forall i | 0 <= i < |reps| :: reps[i] == Root(parent, rank, i)
  {
    seq(|parent|, i requires 0 <= i < |parent| => Root(parent, rank, i))
  }

  ghost function Class(reps: seq<nat>, r: nat): set<nat> {
    set i: nat | i < |reps| && reps[i] == r
  }

  /** A root of rank `k` stands for at least `2^k` elements. */
  ghost predicate RankEarned(parent: seq<nat>, rank: seq<nat>, r: nat)
    requires Forest(parent, rank) && r < |parent|
  {
    parent[r] == r ==> Pow2(rank[r]) <= |Class(Roots(parent, rank), r)|
  }

  ghost predicate Balanced(parent: seq<nat>, rank: seq<nat>)
    requires Forest(parent, rank)
  {
    forall r | 0 <= r < |parent| :: RankEarned(parent, rank, r)
  }

  lemma {:induction false} SubsetSize(a: set<nat>, n: nat)
    requires forall i | i in a :: i < n
    ensures |a| <= n
  {
    if n > 0 {
      SubsetSize(a - {n - 1}, n - 1);
    } else {
      assert a == {};
    }
  }

  /** The logarithmic bound: no element is deeper than log2 of the size. */
  lemma DepthIsLogarithmic(parent: seq<nat>, rank: seq<nat>, i: nat)
    requires Forest(parent, rank) && Balanced(parent, rank) && i < |parent|
    ensures Pow2(Depth(parent, rank, i)) <= Pow2(rank[Root(parent, rank, i)]) <= |parent|
  {
    var r := Root(parent, rank, i);
    assert RankEarned(parent, rank, r);
    SubsetSize(Class(Roots(parent, rank), r), |parent|);
    PowerMonotone(Depth(parent, rank, i), rank[r]);
  }

  // ---------------------------------------------------------------------------
  // The two updates: pointing an element at its root, and linking two roots.
  // ---------------------------------------------------------------------------

  lemma {:induction false} CompressRoot(parent: seq<nat>, rank: seq<nat>, at: nat, j: nat)
    requires Forest(parent, rank) && at < |parent| && j < |parent| && parent[at] != at
    requires Forest(parent[at := Root(parent, rank, at)], rank)
    ensures Root(parent[at := Root(parent, rank, at)], rank, j) == Root(parent, rank, j)
    decreases |parent| - rank[j]
  {
    if j != at && parent[j] != j {
      CompressRoot(parent, rank, at, parent[j]);
    }
  }

  /** Path compression changes no representative. */
  lemma Compress(parent: seq<nat>, rank: seq<nat>, at: nat)
    requires Forest(parent, rank) && at < |parent| && parent[at] != at
    ensures var shorter := parent[at := Root(parent, rank, at)];
            && Forest(shorter, rank)
            && Roots(shorter, rank) == Roots(parent, rank)
            && (Balanced(parent, rank) ==> Balanced(shorter, rank))
  {
    var shorter := parent[at := Root(parent, rank, at)];
    forall j | 0 <= j < |parent| ensures Root(shorter, rank, j) == Root(parent, rank, j) {
      CompressRoot(parent, rank, at, j);
    }
    assert Roots(shorter, rank) == Roots(parent, rank);
    forall r | 0 <= r < |parent| && RankEarned(parent, rank, r) ensures RankEarned(shorter, rank, r) {
    }
  }

  ghost function Merged(reps: seq<nat>, gone: nat, kept: nat): seq<nat> {
    seq(|reps|, i requires 0 <= i < |reps| => if reps[i] == gone then kept else reps[i])
  }

  lemma {:induction false} LinkRoot(parent: seq<nat>, rank: seq<nat>, gone: nat, kept: nat, rank': seq<nat>, j: nat)
    requires Forest(parent, rank) && gone < |parent| && kept < |parent| && gone != kept && j < |parent|
    requires parent[gone] == gone && parent[kept] == kept
    requires Forest(parent[gone := kept], rank')
    ensures Root(parent[gone := kept], rank', j) ==
            if Root(parent, rank, j) == gone then kept else Root(parent, rank, j)
    decreases |parent| - rank[j]
  {
    if parent[j] == j {
      assert j == gone ==> Root(parent[gone := kept], rank', kept) == kept;
    } else {
      LinkRoot(parent, rank, gone, kept, rank', parent[j]);
    }
  }

  lemma MergedClasses(reps: seq<nat>, gone: nat, kept: nat)
    requires gone != kept
    ensures Class(Merged(reps, gone, kept), kept) == Class(reps, gone) + Class(reps, kept)
    ensures |Class(Merged(reps, gone, kept), kept)| == |Class(reps, gone)| + |Class(reps, kept)| <= |reps|
    ensures forall r | r != gone && r != kept :: Class(Merged(reps, gone, kept), r) == Class(reps, r)
  {
    assert Class(Merged(reps, gone, kept), kept) == Class(reps, gone) + Class(reps, kept);
    assert Class(reps, gone) !! Class(reps, kept);
    SubsetSize(Class(Merged(reps, gone, kept), kept), |reps|);
  }

  ghost predicate LinkedRanks(parent: seq<nat>, rank: seq<nat>, gone: nat, kept: nat, rank': seq<nat>) {
    && Forest(parent, rank)
    && gone < |parent| && kept < |parent| && gone != kept && parent[gone] == gone && parent[kept] == kept
    && rank[gone] <= rank[kept]
    && rank' == (if rank[gone] == rank[kept] then rank[kept := rank[kept] + 1] else rank)
  }

  /** The merged class is large enough for the rank of its root. */
  lemma LinkedRank(parent: seq<nat>, rank: seq<nat>, gone: nat, kept: nat, rank': seq<nat>)
    requires LinkedRanks(parent, rank, gone, kept, rank') && Balanced(parent, rank)
    ensures Pow2(rank'[kept]) <= |Class(Merged(Roots(parent, rank), gone, kept), kept)| <= |parent|
  {
    MergedClasses(Roots(parent, rank), gone, kept);
    assert RankEarned(parent, rank, gone) && RankEarned(parent, rank, kept);
  }

  lemma LinkForest(parent: seq<nat>, rank: seq<nat>, gone: nat, kept: nat, rank': seq<nat>)
    requires LinkedRanks(parent, rank, gone, kept, rank') && Balanced(parent, rank)
    ensures Forest(parent[gone := kept], rank')
    ensures Roots(parent[gone := kept], rank') == Merged(Roots(parent, rank), gone, kept)
  {
    LinkedRank(parent, rank, gone, kept, rank');
    forall j | 0 <= j < |parent|
      ensures Root(parent[gone := kept], rank', j) ==
              if Root(parent, rank, j) == gone then kept else Root(parent, rank, j)
    {
      LinkRoot(parent, rank, gone, kept, rank', j);
    }
  }

  /** Linking the root `gone` under the root `kept` merges exactly their two classes. */
  lemma Link(parent: seq<nat>, rank: seq<nat>, gone: nat, kept: nat, rank': seq<nat>)
    requires LinkedRanks(parent, rank, gone, kept, rank') && Balanced(parent, rank)
    ensures Forest(parent[gone := kept], rank') && Balanced(parent[gone := kept], rank')
    ensures Roots(parent[gone := kept], rank') == Merged(Roots(parent, rank), gone, kept)
  {
    var linked, reps := parent[gone := kept], Roots(parent, rank);
    LinkForest(parent, rank, gone, kept, rank');
    LinkedRank(parent, rank, gone, kept, rank');
    MergedClasses(reps, gone, kept);
    forall r | 0 <= r < |linked| ensures RankEarned(linked, rank', r) {
      assert RankEarned(parent, rank, r);
      assert r != gone && r != kept ==> Class(Roots(linked, rank'), r) == Class(reps, r);
    }
  }

  // ---------------------------------------------------------------------------
  // The mutable structure
  // ---------------------------------------------------------------------------

  class UnionFind {
    const parent: array<nat>
    const rank: array<nat>

    ghost predicate Valid()
      reads parent, rank
    {
      && parent != rank
      && Forest(parent[..], rank[..])
      && Balanced(parent[..], rank[..])
    }

    /** The representative of every element. */
    ghost function Reps(): seq<nat>
      requires Valid()
      reads parent, rank
    {
      Roots(parent[..], rank[..])
    }

    constructor (size: nat)
      ensures Valid() && fresh(parent) && fresh(rank)
      ensures parent.Length == size && Reps() == seq(size, i => i)
    {
      parent := new nat[size](i => i);
      rank := new nat[size](_ => 0);
      new;
      var reps := Roots(parent[..], rank[..]);
      assert reps == seq(size, i => i);
      forall r | 0 <= r < size ensures RankEarned(parent[..], rank[..], r) {
        assert r in Class(reps, r);
      }
    }

    /** Walks to the root, then points everything on the way at it. The walk follows `links` links,
        and two to that power is at most the number of elements. */
    method Find(i: nat) returns (root: nat, ghost links: nat)
      requires Valid() && i < parent.Length
      modifies parent
      ensures Valid() && Reps() == old(Reps())
      ensures root == Reps()[i] && Reps()[root] == root && parent[root] == root
      ensures links == old(Depth(parent[..], rank[..], i)) && Pow2(links) <= parent.Length
    {
      ghost var p, rk := parent[..], rank[..];
      DepthIsLogarithmic(p, rk, i);
      root, links := i, 0;
      while parent[root] != root
        invariant root < |p| && Root(p, rk, root) == Root(p, rk, i)
        invariant links + Depth(p, rk, root) == Depth(p, rk, i)
        decreases |p| - rk[root]
      {
        root := parent[root];
        links := links + 1;
      }
      ghost var reps := Roots(p, rk);
      var cur: nat := i;
      while parent[cur] != root
        invariant p == parent[..] && rk == rank[..]
        invariant Forest(p, rk) && Balanced(p, rk) && Roots(p, rk) == reps
        invariant cur < |p| && p[root] == root && Root(p, rk, cur) == root
        decreases |p| - rk[cur]
      {
        var next := parent[cur];
        Compress(p, rk, cur);
        parent[cur] := root;
        p := p[cur := root];
        assert reps[next] == root;
        cur := next;
      }
    }

    /** Merges the classes of `a` and `b` and no others. */
    method Union(a: nat, b: nat)
      requires Valid() && a < parent.Length && b < parent.Length
      modifies parent, rank
      ensures Valid()
      ensures var reps := old(Reps());
              exists gone, kept ::
                && {gone, kept} == {reps[a], reps[b]}
                && Reps() == Merged(reps, gone, kept)
    {
      var ra, _ := Find(a);
      var rb, _ := Find(b);
      ghost var gone, kept := LinkRoots(ra, rb);
    }

    /** Hangs the root of lower rank under the other; on a tie the kept root rises. */
    method LinkRoots(ra: nat, rb: nat) returns (ghost gone: nat, ghost kept: nat)
      requires Valid() && ra < parent.Length && rb < parent.Length && parent[ra] == ra && parent[rb] == rb
      modifies parent, rank
      ensures Valid() && {gone, kept} == {ra, rb} && Reps() == Merged(old(Reps()), gone, kept)
    {
      ghost var p, rk := parent[..], rank[..];
      ghost var reps := Roots(p, rk);
      gone, kept := rb, ra;
      if ra == rb {
        assert reps == Merged(reps, ra, ra);
      } else if rank[ra] < rank[rb] {
        Link(p, rk, ra, rb, rk);
        gone, kept := ra, rb;
        parent[ra] := rb;
        assert parent[..] == p[ra := rb];
      } else if rank[rb] < rank[ra] {
        Link(p, rk, rb, ra, rk);
        parent[rb] := ra;
        assert parent[..] == p[rb := ra];
      } else {
        Link(p, rk, rb, ra, rk[ra := rk[ra] + 1]);
        parent[rb] := ra;
        rank[ra] := rank[ra] + 1;
        assert parent[..] == p[rb := ra] && rank[..] == rk[ra := rk[ra] + 1];
      }
    }
  }
}
