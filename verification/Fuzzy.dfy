/**
  * The camel-hump matcher that filters method completions by name.
  *
  * `cls` stands for the Unicode case tests: every character is uppercase, lowercase or neither.
  * The matcher walks query and name together, lets an uppercase (or caseless) query character skip
  * ahead in the name, and on a lowercase mismatch restarts from the last aligned uppercase pair.
  */
module Fuzzy {
  import opened Options

  datatype Case = Upper | Lower | Caseless

  type Classifier = char -> Case

  // ---------------------------------------------------------------------------
  // What a match is: an increasing embedding of the query in the name in which a
  // lowercase query character sits directly after its predecessor.
  // ---------------------------------------------------------------------------

  /** The only place where query character `i` may sit when it is lowercase. */
  function Adjacent(pos: seq<nat>, i: nat): nat
    requires i <= |pos|
  {
    if i == 0 then 0 else pos[i - 1] + 1
  }

  /** Query character `i` sits at `pos[i]`: on an equal character, after its predecessor. */
  predicate Sits(cls: Classifier, q: string, s: string, pos: seq<nat>, i: nat)
    requires i < |pos| <= |q|
  {
    && Adjacent(pos, i) <= pos[i] < |s|
    && s[pos[i]] == q[i]
    && (cls(q[i]).Lower? ==> pos[i] == Adjacent(pos, i))
  }

  /** `pos` places the first `|pos|` characters of `q` in `s`. */
  predicate Places(cls: Classifier, q: string, s: string, pos: seq<nat>) {
    |pos| <= |q| && forall i | 0 <= i < |pos| :: Sits(cls, q, s, pos, i)
  }

  predicate IsEmbedding(cls: Classifier, q: string, s: string, pos: seq<nat>) {
    |pos| == |q| && Places(cls, q, s, pos)
  }

  ghost predicate Embeds(cls: Classifier, q: string, s: string) {
    exists pos :: IsEmbedding(cls, q, s, pos)
  }

  /** A caseless character sits on the first place after its predecessor that fits. */
  predicate SitsFirst(cls: Classifier, q: string, s: string, pos: seq<nat>, i: nat)
    requires i < |pos| <= |q|
  {
    cls(q[i]).Caseless? ==> forall k | Adjacent(pos, i) <= k < pos[i] && k < |s| :: s[k] != q[i]
  }

  /** Only uppercase characters may pass over a place that fits. */
  predicate TakesFirst(cls: Classifier, q: string, s: string, pos: seq<nat>) {
    |pos| <= |q| && forall i | 0 <= i < |pos| :: SitsFirst(cls, q, s, pos, i)
  }

  ghost predicate EmbedsTakingFirst(cls: Classifier, q: string, s: string) {
    exists pos :: IsEmbedding(cls, q, s, pos) && TakesFirst(cls, q, s, pos)
  }

  // ---------------------------------------------------------------------------
  // The search. `anchor` is the last aligned uppercase pair; `base` is where the name
  // was last restarted, and only serves termination: every backtrack raises it.
  // ---------------------------------------------------------------------------

  function Search(cls: Classifier, q: string, s: string, qa: nat, sa: nat,
                  anchor: Option<(nat, nat)>, ghost base: nat): bool
    requires qa <= |q| && base <= sa <= |s|
    requires anchor.Some? ==> anchor.value.0 < qa && base <= anchor.value.1 < sa
    decreases |s| - base, |s| - sa
  {
    if qa == |q| then true
    else if sa == |s| then false
    else if q[qa] == s[sa] then
      Search(cls, q, s, qa + 1, sa + 1, if cls(q[qa]).Upper? then Some((qa, sa)) else anchor, base)
    else if cls(q[qa]).Lower? then
      anchor.Some? && Search(cls, q, s, anchor.value.0, anchor.value.1 + 1, None, anchor.value.1 + 1)
    else
      Search(cls, q, s, qa, sa + 1, anchor, base)
  }

  function Matches(cls: Classifier, q: string, s: string): bool {
    Search(cls, q, s, 0, 0, None, 0)
  }

  /** The matcher as the server runs it: one loop over two cursors and two anchors. */
  method FuzzyMatchesName(cls: Classifier, q: string, s: string) returns (matched: bool)
    ensures matched == Matches(cls, q, s)
    ensures matched <==> EmbedsTakingFirst(cls, q, s)
    ensures CamelOnly(cls, q) ==> (matched <==> Embeds(cls, q, s))
  {
    MatchesExactly(cls, q, s);
    if CamelOnly(cls, q) {
      CamelOnlyIsComplete(cls, q, s);
    }
    if q == "" {
      return true;
    }
    var qa: nat, ql: Option<nat> := 0, None;
    var sa: nat, sl: Option<nat> := 0, None;
    ghost var base := 0;
    while true
      invariant qa <= |q| && base <= sa <= |s|
      invariant ql.Some? == sl.Some?
      invariant ql.Some? ==> ql.value < qa && base <= sl.value < sa
      invariant Matches(cls, q, s) ==
                Search(cls, q, s, qa, sa, if ql.Some? then Some((ql.value, sl.value)) else None, base)
      decreases |s| - base, |s| - sa
    {
      if qa >= |q| {
        return true;
      }
      if sa >= |s| {
        return false;
      }
      var qq, ss := q[qa], s[sa];
      if qq == ss {
        if cls(qq).Upper? {
          ql := Some(qa);
        }
        if cls(ss).Upper? {
          sl := Some(sa);
        }
        qa, sa := qa + 1, sa + 1;
      } else if cls(qq).Lower? {
        if ql.Some? && sl.Some? {
          qa, sa := ql.value, sl.value + 1;
          base := sa;
          ql, sl := None, None;
        } else {
          return false;
        }
      } else {
        sa := sa + 1;
      }
    }
  }

  // ---------------------------------------------------------------------------
  // Soundness: a match always comes from an embedding.
  // ---------------------------------------------------------------------------

  /** What the search knows about the characters placed so far. */
  predicate Cursor(cls: Classifier, q: string, s: string, qa: nat, sa: nat,
                   anchor: Option<(nat, nat)>, pos: seq<nat>) {
    && |pos| == qa <= |q|
    && Places(cls, q, s, pos)
    && TakesFirst(cls, q, s, pos)
    && Adjacent(pos, qa) <= sa <= |s|
    && (qa < |q| && cls(q[qa]).Caseless? ==> forall k | Adjacent(pos, qa) <= k < sa :: s[k] != q[qa])
    && (qa < |q| && cls(q[qa]).Lower? ==> sa == Adjacent(pos, qa))
    && (anchor.Some? ==>
          && anchor.value.0 < qa
          && pos[anchor.value.0] == anchor.value.1
          && cls(q[anchor.value.0]).Upper?)
  }

  lemma PlaceNext(cls: Classifier, q: string, s: string, pos: seq<nat>, at: nat)
    requires Places(cls, q, s, pos) && |pos| < |q| && Adjacent(pos, |pos|) <= at < |s| && s[at] == q[|pos|]
    requires cls(q[|pos|]).Lower? ==> at == Adjacent(pos, |pos|)
    requires TakesFirst(cls, q, s, pos)
    requires cls(q[|pos|]).Caseless? ==> forall k | Adjacent(pos, |pos|) <= k < at :: s[k] != q[|pos|]
    ensures Places(cls, q, s, pos + [at]) && TakesFirst(cls, q, s, pos + [at])
  {
    forall i | 0 <= i < |pos| + 1 ensures Sits(cls, q, s, pos + [at], i) && SitsFirst(cls, q, s, pos + [at], i) {
      assert i < |pos| ==> Sits(cls, q, s, pos, i) && SitsFirst(cls, q, s, pos, i);
    }
  }

  lemma PlaceFewer(cls: Classifier, q: string, s: string, pos: seq<nat>, n: nat)
    requires Places(cls, q, s, pos) && TakesFirst(cls, q, s, pos) && n <= |pos|
    ensures Places(cls, q, s, pos[..n]) && TakesFirst(cls, q, s, pos[..n])
    ensures n < |pos| ==> Adjacent(pos[..n], n) <= pos[n]
  {
    forall i | 0 <= i < n ensures Sits(cls, q, s, pos[..n], i) && SitsFirst(cls, q, s, pos[..n], i) {
      assert Sits(cls, q, s, pos, i) && SitsFirst(cls, q, s, pos, i);
    }
    assert n < |pos| ==> Sits(cls, q, s, pos, n);
  }

  /** A successful search extends the placement it started from, up to its anchor. */
  lemma {:induction false} SearchExtends(cls: Classifier, q: string, s: string, qa: nat, sa: nat,
                                         anchor: Option<(nat, nat)>, base: nat, pos: seq<nat>)
    returns (full: seq<nat>)
    requires Cursor(cls, q, s, qa, sa, anchor, pos) && base <= sa
    requires anchor.Some? ==> base <= anchor.value.1 < sa
    requires Search(cls, q, s, qa, sa, anchor, base)
    ensures IsEmbedding(cls, q, s, full) && TakesFirst(cls, q, s, full)
    ensures anchor.None? ==> full[..qa] == pos && (qa < |q| ==> sa <= full[qa])
    ensures anchor.Some? ==>
              full[..anchor.value.0] == pos[..anchor.value.0] && anchor.value.1 <= full[anchor.value.0]
    decreases |s| - base, |s| - sa
  {
    if qa == |q| {
      full := pos;
    } else if q[qa] == s[sa] {
      var next := if cls(q[qa]).Upper? then Some((qa, sa)) else anchor;
      PlaceNext(cls, q, s, pos, sa);
      full := SearchExtends(cls, q, s, qa + 1, sa + 1, next, base, pos + [sa]);
      assert (pos + [sa])[..qa] == pos;
      if anchor.Some? && cls(q[qa]).Upper? {
        assert full[..qa][..anchor.value.0] == full[..anchor.value.0];
        assert full[..qa][anchor.value.0] == pos[anchor.value.0];
      } else if anchor.None? && !cls(q[qa]).Upper? {
        assert full[..qa + 1][..qa] == full[..qa];
        assert full[..qa + 1][qa] == sa;
      }
    } else if cls(q[qa]).Lower? {
      var (a, b) := anchor.value;
      PlaceFewer(cls, q, s, pos, a);
      full := SearchExtends(cls, q, s, a, b + 1, None, b + 1, pos[..a]);
    } else {
      full := SearchExtends(cls, q, s, qa, sa + 1, anchor, base, pos);
    }
  }

  lemma MatchIsEmbedding(cls: Classifier, q: string, s: string)
    ensures Matches(cls, q, s) ==> Embeds(cls, q, s)
  {
    if Matches(cls, q, s) {
      var pos := SearchExtends(cls, q, s, 0, 0, None, 0, []);
      assert IsEmbedding(cls, q, s, pos);
    }
  }

  // ---------------------------------------------------------------------------
  // Exactness: for every query, a match is an embedding whose caseless characters
  // take the first place that fits.
  // ---------------------------------------------------------------------------

  /** From one character on, as long as no uppercase one follows, there is only one way to go on. */
  lemma {:induction false} ForcedRun(cls: Classifier, q: string, s: string, pos: seq<nat>, e: seq<nat>, first: nat, last: nat)
    requires Places(cls, q, s, pos) && TakesFirst(cls, q, s, pos) && first <= last < |pos|
    requires IsEmbedding(cls, q, s, e) && TakesFirst(cls, q, s, e)
    requires pos[first] == e[first] && forall i | first < i <= last :: !cls(q[i]).Upper?
    ensures pos[last] == e[last]
    decreases last - first
  {
    if first < last {
      ForcedRun(cls, q, s, pos, e, first, last - 1);
      ForcedStep(cls, q, s, pos, e, last);
    }
  }

  lemma ForcedStep(cls: Classifier, q: string, s: string, pos: seq<nat>, e: seq<nat>, i: nat)
    requires Places(cls, q, s, pos) && TakesFirst(cls, q, s, pos) && i < |pos|
    requires IsEmbedding(cls, q, s, e) && TakesFirst(cls, q, s, e)
    requires Adjacent(pos, i) == Adjacent(e, i) && !cls(q[i]).Upper?
    ensures pos[i] == e[i]
  {
    assert Sits(cls, q, s, pos, i) && Sits(cls, q, s, e, i);
    assert SitsFirst(cls, q, s, pos, i) && SitsFirst(cls, q, s, e, i);
  }

  /** A lowercase mismatch: the embedding has left the search at the last anchor at the latest. */
  lemma MismatchIsLater(cls: Classifier, q: string, s: string, qa: nat, sa: nat, anchor: Option<(nat, nat)>, pos: seq<nat>, e: seq<nat>)
    requires IsEmbedding(cls, q, s, e) && TakesFirst(cls, q, s, e) && Cursor(cls, q, s, qa, sa, anchor, pos)
    requires AnchorIsLast(cls, q, qa, anchor) && qa < |q| && cls(q[qa]).Lower? && sa < |s| && q[qa] != s[sa]
    ensures anchor.Some? && e[anchor.value.0] != anchor.value.1
  {
    assert Sits(cls, q, s, e, qa);
    if anchor.None? {
      if qa > 0 {
        ForcedStep(cls, q, s, pos, e, 0);
        ForcedRun(cls, q, s, pos, e, 0, qa - 1);
      }
    } else if e[anchor.value.0] == anchor.value.1 {
      ForcedRun(cls, q, s, pos, e, anchor.value.0, qa - 1);
    }
  }

  /** The cursor never overtakes such an embedding. */
  lemma {:induction false} SearchFinds(cls: Classifier, q: string, s: string, qa: nat, sa: nat,
                                       anchor: Option<(nat, nat)>, base: nat, pos: seq<nat>, e: seq<nat>)
    requires IsEmbedding(cls, q, s, e) && TakesFirst(cls, q, s, e)
    requires Cursor(cls, q, s, qa, sa, anchor, pos) && base <= sa
    requires anchor.Some? ==> base <= anchor.value.1 < sa
    requires AnchorIsLast(cls, q, qa, anchor)
    requires forall i | 0 <= i < qa :: pos[i] <= e[i]
    requires qa < |q| ==> sa <= e[qa]
    ensures Search(cls, q, s, qa, sa, anchor, base)
    decreases |s| - base, |s| - sa
  {
    assert qa < |q| ==> Sits(cls, q, s, e, qa);
    if qa == |q| {
    } else if q[qa] == s[sa] {
      var next := if cls(q[qa]).Upper? then Some((qa, sa)) else anchor;
      PlaceNext(cls, q, s, pos, sa);
      assert qa + 1 < |q| ==> Sits(cls, q, s, e, qa + 1);
      SearchFinds(cls, q, s, qa + 1, sa + 1, next, base, pos + [sa], e);
    } else if cls(q[qa]).Lower? {
      MismatchIsLater(cls, q, s, qa, sa, anchor, pos, e);
      var (a, b) := anchor.value;
      PlaceFewer(cls, q, s, pos, a);
      SearchFinds(cls, q, s, a, b + 1, None, b + 1, pos[..a], e);
    } else {
      SearchFinds(cls, q, s, qa, sa + 1, anchor, base, pos, e);
    }
  }

  lemma MatchesExactly(cls: Classifier, q: string, s: string)
    ensures Matches(cls, q, s) <==> EmbedsTakingFirst(cls, q, s)
  {
    if Matches(cls, q, s) {
      var pos := SearchExtends(cls, q, s, 0, 0, None, 0, []);
      assert IsEmbedding(cls, q, s, pos) && TakesFirst(cls, q, s, pos);
    }
    if e :| IsEmbedding(cls, q, s, e) && TakesFirst(cls, q, s, e) {
      SearchFinds(cls, q, s, 0, 0, None, 0, [], e);
    }
  }

  // ---------------------------------------------------------------------------
  // Completeness: one anchor is enough exactly for the queries in which no caseless
  // character is directly followed by a lowercase one.
  // ---------------------------------------------------------------------------

  predicate CamelOnly(cls: Classifier, q: string) {
    forall i | 0 < i < |q| && cls(q[i]).Lower? :: !cls(q[i - 1]).Caseless?
  }

  /** Without an anchor nothing uppercase was passed since the restart point. */
  predicate AnchorIsLast(cls: Classifier, q: string, qa: nat, anchor: Option<(nat, nat)>)
    requires qa <= |q| && (anchor.Some? ==> anchor.value.0 < qa)
  {
    var from := if anchor.Some? then anchor.value.0 + 1 else 0;
    (anchor.None? && qa < |q| && cls(q[qa]).Upper?) || forall i | from <= i < qa :: !cls(q[i]).Upper?
  }

  /** In a camel-only query a run without uppercase before a lowercase character is all lowercase. */
  lemma {:induction false} LowercaseRun(cls: Classifier, q: string, first: nat, last: nat)
    requires CamelOnly(cls, q) && first <= last < |q| && cls(q[last]).Lower?
    requires forall i | first <= i < last :: !cls(q[i]).Upper?
    ensures forall i | first <= i <= last :: cls(q[i]).Lower?
    decreases last - first
  {
    if first < last {
      LowercaseRun(cls, q, first, last - 1);
    }
  }

  /** Placements are rigid along a lowercase run. */
  lemma {:induction false} RigidRun(cls: Classifier, q: string, s: string, pos: seq<nat>, first: nat, last: nat)
    requires Places(cls, q, s, pos) && first <= last < |pos|
    requires forall i | first < i <= last :: cls(q[i]).Lower?
    ensures pos[last] == pos[first] + (last - first)
    decreases last - first
  {
    if first < last {
      RigidRun(cls, q, s, pos, first, last - 1);
      assert Sits(cls, q, s, pos, last);
    }
  }

  /** The cursor never overtakes any embedding, so a failing search refutes them all. */
  lemma {:induction false} SearchFindsLeftmost(cls: Classifier, q: string, s: string, qa: nat, sa: nat,
                                               anchor: Option<(nat, nat)>, base: nat, pos: seq<nat>, e: seq<nat>)
    requires CamelOnly(cls, q) && IsEmbedding(cls, q, s, e)
    requires Cursor(cls, q, s, qa, sa, anchor, pos) && base <= sa
    requires anchor.Some? ==> base <= anchor.value.1 < sa
    requires AnchorIsLast(cls, q, qa, anchor)
    requires forall i | 0 <= i < qa :: pos[i] <= e[i]
    requires qa < |q| ==> sa <= e[qa]
    ensures Search(cls, q, s, qa, sa, anchor, base)
    decreases |s| - base, |s| - sa
  {
    assert qa < |q| ==> Sits(cls, q, s, e, qa);
    if qa == |q| {
    } else if q[qa] == s[sa] {
      var next := if cls(q[qa]).Upper? then Some((qa, sa)) else anchor;
      PlaceNext(cls, q, s, pos, sa);
      assert qa + 1 < |q| ==> Sits(cls, q, s, e, qa + 1);
      SearchFindsLeftmost(cls, q, s, qa + 1, sa + 1, next, base, pos + [sa], e);
    } else if cls(q[qa]).Lower? {
      if anchor.None? {
        LowercaseRun(cls, q, 0, qa);
        RigidRun(cls, q, s, e, 0, qa);
        assert Sits(cls, q, s, e, 0);
        if qa > 0 {
          RigidRun(cls, q, s, pos, 0, qa - 1);
        }
        assert false;
      } else {
        var (a, b) := anchor.value;
        LowercaseRun(cls, q, a + 1, qa);
        RigidRun(cls, q, s, e, a, qa);
        RigidRun(cls, q, s, pos, a, qa - 1);
        PlaceFewer(cls, q, s, pos, a);
        SearchFindsLeftmost(cls, q, s, a, b + 1, None, b + 1, pos[..a], e);
      }
    } else {
      SearchFindsLeftmost(cls, q, s, qa, sa + 1, anchor, base, pos, e);
    }
  }

  lemma CamelOnlyIsComplete(cls: Classifier, q: string, s: string)
    requires CamelOnly(cls, q)
    ensures Matches(cls, q, s) <==> Embeds(cls, q, s)
  {
    MatchIsEmbedding(cls, q, s);
    if e :| IsEmbedding(cls, q, s, e) {
      SearchFindsLeftmost(cls, q, s, 0, 0, None, 0, [], e);
    }
  }

  // ---------------------------------------------------------------------------
  // Prefixes, and the queries on which the matcher is not complete.
  // ---------------------------------------------------------------------------

  /** The last uppercase character of `q[..n]`, as the anchor of a run along the diagonal. */
  function LastUpper(cls: Classifier, q: string, n: nat): (a: Option<(nat, nat)>)
    requires n <= |q|
    ensures a.Some? ==> a.value.0 == a.value.1 < n && cls(q[a.value.0]).Upper?
    ensures forall i | (if a.Some? then a.value.0 + 1 else 0) <= i < n :: !cls(q[i]).Upper?
  {
    if n == 0 then None else if cls(q[n - 1]).Upper? then Some((n - 1, n - 1)) else LastUpper(cls, q, n - 1)
  }

  /** As long as query and name agree the search walks down the diagonal. */
  lemma {:induction false} Diagonal(cls: Classifier, q: string, s: string, n: nat)
    requires n <= |q| && n <= |s| && q[..n] == s[..n]
    ensures Matches(cls, q, s) == Search(cls, q, s, n, n, LastUpper(cls, q, n), 0)
  {
    if n > 0 {
      assert q[..n - 1] == q[..n][..n - 1] == s[..n - 1];
      assert q[n - 1] == q[..n][n - 1] == s[n - 1];
      Diagonal(cls, q, s, n - 1);
    }
  }

  lemma PrefixAlwaysMatches(cls: Classifier, q: string, s: string)
    requires q <= s
    ensures Matches(cls, q, s)
  {
    Diagonal(cls, q, s, |q|);
  }

  /** Increasing positions leave room for everything in between. */
  lemma {:induction false} Spread(cls: Classifier, q: string, s: string, pos: seq<nat>, i: nat, j: nat)
    requires Places(cls, q, s, pos) && i <= j < |pos|
    ensures pos[i] + (j - i) <= pos[j] < |s|
    decreases j - i
  {
    assert Sits(cls, q, s, pos, j);
    if i < j {
      Spread(cls, q, s, pos, i, j - 1);
    }
  }

  /** The name that defeats a query with a caseless character `q[k]` before a lowercase one. */
  function Defeating(q: string, k: nat, x: char): string
    requires k < |q|
  {
    q[..k + 1] + [x] + q[k..]
  }

  /** The name holds the query with two characters put in between. */
  lemma DefeatingEmbeds(cls: Classifier, q: string, k: nat, x: char)
    requires k + 1 < |q| && cls(q[k]).Caseless?
    ensures Embeds(cls, q, Defeating(q, k, x))
  {
    var e := seq(|q|, i requires 0 <= i < |q| => if i < k then i else i + 2);
    assert IsEmbedding(cls, q, Defeating(q, k, x), e);
  }

  lemma DefeatedQuery(cls: Classifier, q: string, k: nat, x: char)
    requires k + 1 < |q| && cls(q[k]).Caseless? && cls(q[k + 1]).Lower?
    requires x != q[k + 1] && (LastUpper(cls, q, k + 1).Some? ==> x != q[LastUpper(cls, q, k + 1).value.0])
    ensures Embeds(cls, q, Defeating(q, k, x)) && !Matches(cls, q, Defeating(q, k, x))
  {
    var s := Defeating(q, k, x);
    DefeatingEmbeds(cls, q, k, x);
    assert s[..k + 1] == q[..k + 1];
    Diagonal(cls, q, s, k + 1);
    var anchor := LastUpper(cls, q, k + 1);
    if anchor.Some? && Matches(cls, q, s) {
      var a := anchor.value.0;
      var diagonal := seq(a, i => i);
      var full := SearchExtends(cls, q, s, a, a + 1, None, a + 1, diagonal);
      assert Sits(cls, q, s, full, a);
      assert k + 2 <= full[a];
      Spread(cls, q, s, full, a, |q| - 1);
      assert false;
    }
  }

  /** The exact extent of completeness: over all names, for one query. */
  lemma CompleteExactlyOnCamelOnly(cls: Classifier, q: string)
    ensures CamelOnly(cls, q) <==> forall s :: Matches(cls, q, s) <==> Embeds(cls, q, s)
  {
    if CamelOnly(cls, q) {
      forall s ensures Matches(cls, q, s) <==> Embeds(cls, q, s) {
        CamelOnlyIsComplete(cls, q, s);
      }
    } else {
      var i :| 0 < i < |q| && cls(q[i]).Lower? && cls(q[i - 1]).Caseless?;
      var anchor := LastUpper(cls, q, i);
      var x :| x in ['a', 'b', 'c'] && x != q[i] && (anchor.Some? ==> x != q[anchor.value.0]);
      DefeatedQuery(cls, q, i - 1, x);
      assert Matches(cls, q, Defeating(q, i - 1, x)) != Embeds(cls, q, Defeating(q, i - 1, x));
    }
  }
}
