/** What it means that one list is others laid end to end. */
module Slices {
  import opened Lookup

  /** Part `i` lies between two consecutive cuts. */
  ghost predicate LiesBetween<T(!new)>(whole: seq<T>, cuts: seq<nat>, i: nat, part: seq<T>) {
    i + 1 < |cuts| && cuts[i] <= cuts[i + 1] <= |whole| && whole[cuts[i]..cuts[i + 1]] == part
  }

  ghost predicate CutsInto<T(!new)>(whole: seq<T>, cuts: seq<nat>, parts: seq<seq<T>>) {
    && |cuts| == |parts| + 1 && cuts[0] == 0 && cuts[|parts|] == |whole|
    && forall i | 0 <= i < |parts| :: LiesBetween(whole, cuts, i, parts[i])
  }

  /** The list splits into consecutive slices, one per part and in their order, that cover it. */
  ghost predicate Concatenates<T(!new)>(whole: seq<T>, parts: seq<seq<T>>) {
    exists cuts :: CutsInto(whole, cuts, parts)
  }

  lemma NothingConcatenates<T(!new)>()
    ensures Concatenates<T>([], [])
  {
    assert CutsInto<T>([], [0], []);
  }

  lemma ConcatenatesNext<T(!new)>(whole: seq<T>, parts: seq<seq<T>>, part: seq<T>)
    requires Concatenates(whole, parts)
    ensures Concatenates(whole + part, parts + [part])
  {
    var cuts: seq<nat> :| CutsInto(whole, cuts, parts);
    var longer := whole + part;
    var more: seq<nat> := cuts + [|longer|];
    forall i | 0 <= i < |parts| + 1 ensures LiesBetween(longer, more, i, (parts + [part])[i]) {
      if i < |parts| {
        assert LiesBetween(whole, cuts, i, parts[i]);
        assert longer[cuts[i]..cuts[i + 1]] == whole[cuts[i]..cuts[i + 1]];
      } else {
        assert longer[|whole|..|whole| + |part|] == part;
      }
    }
    assert CutsInto(longer, more, parts + [part]);
  }

  // ---------------------------------------------------------------------------
  // The elements of a list that pass a test
  // ---------------------------------------------------------------------------

  /** The positions of exactly the elements that pass, in order. */
  ghost predicate Picks<T(!new)>(whole: seq<T>, p: T -> bool, at: seq<nat>) {
    && Ascending(at)
    && (forall i | 0 <= i < |at| :: at[i] < |whole| && p(whole[at[i]]))
    && (forall k | 0 <= k < |whole| && p(whole[k]) :: k in at)
  }

  lemma PicksNext<T(!new)>(whole: seq<T>, p: T -> bool, at: seq<nat>, x: T)
    requires Picks(whole, p, at)
    ensures Picks(whole + [x], p, at + if p(x) then [|whole|] else [])
  {
    var longer := whole + [x];
    var more := at + if p(x) then [|whole|] else [];
    AscendingNext(at, |whole|);
    forall k | 0 <= k < |longer| && p(longer[k]) ensures k in more {
      if k < |whole| {
        assert longer[k] == whole[k];
      } else {
        assert more[|at|] == k;
      }
    }
  }

  ghost predicate PickedAt<T(!new), U>(list: seq<U>, whole: seq<T>, p: T -> bool, says: (U, T) -> bool, at: seq<nat>) {
    Picks(whole, p, at) && |list| == |at| && forall k | 0 <= k < |at| :: at[k] < |whole| && says(list[k], whole[at[k]])
  }

  /** The list says something of exactly the elements that pass, in order. */
  ghost predicate ListsPicked<T(!new), U>(list: seq<U>, whole: seq<T>, p: T -> bool, says: (U, T) -> bool) {
    exists at :: PickedAt(list, whole, p, says, at)
  }

  lemma NothingPicked<T(!new), U>(p: T -> bool, says: (U, T) -> bool)
    ensures ListsPicked([], [], p, says)
  {
    assert PickedAt([], [], p, says, []);
  }

  lemma ListsPickedNext<T(!new), U>(list: seq<U>, whole: seq<T>, p: T -> bool, says: (U, T) -> bool, x: T, y: U)
    requires ListsPicked(list, whole, p, says) && (p(x) ==> says(y, x))
    ensures ListsPicked(if p(x) then list + [y] else list, whole + [x], p, says)
  {
    var at: seq<nat> :| PickedAt(list, whole, p, says, at);
    PicksNext(whole, p, at, x);
    var more: seq<nat> := at + if p(x) then [|whole|] else [];
    assert PickedAt(if p(x) then list + [y] else list, whole + [x], p, says, more);
  }

  lemma PicksShorter<T(!new)>(whole: seq<T>, p: T -> bool, at: seq<nat>)
    requires Picks(whole, p, at) && at != []
    ensures at[|at| - 1] < |whole| && Picks(whole[..at[|at| - 1]], p, at[..|at| - 1])
  {
    var last := at[|at| - 1];
    var front := at[..|at| - 1];
    forall k | 0 <= k < last && p(whole[k]) ensures k in front {
      var i :| 0 <= i < |at| && at[i] == k;
      assert i != |at| - 1;
      assert front[i] == k;
    }
  }

  lemma BothPick<T(!new)>(whole: seq<T>, p: T -> bool, at: seq<nat>, others: seq<nat>)
    requires Picks(whole, p, at) && Picks(whole, p, others)
    ensures at == [] <==> others == []
  {
    if at != [] {
      assert at[0] in others;
    }
    if others != [] {
      assert others[0] in at;
    }
  }

  /** Only one list of positions picks them all in order. */
  lemma {:induction false} PicksOnce<T(!new)>(whole: seq<T>, p: T -> bool, at: seq<nat>, others: seq<nat>)
    requires Picks(whole, p, at) && Picks(whole, p, others)
    ensures at == others
    decreases |at|
  {
    BothPick(whole, p, at, others);
    if at != [] {
      var last, final := at[|at| - 1], others[|others| - 1];
      assert last in others && final in at;
      PicksShorter(whole, p, at);
      PicksShorter(whole, p, others);
      PicksOnce(whole[..last], p, at[..|at| - 1], others[..|others| - 1]);
    }
  }

  lemma ListsPickedOnce<T(!new), U>(list: seq<U>, others: seq<U>, whole: seq<T>, p: T -> bool, says: (U, T) -> bool)
    requires ListsPicked(list, whole, p, says) && ListsPicked(others, whole, p, says)
    requires forall x, y, t | says(x, t) && says(y, t) :: x == y
    ensures list == others
  {
    var at: seq<nat> :| PickedAt(list, whole, p, says, at);
    var also: seq<nat> :| PickedAt(others, whole, p, says, also);
    PicksOnce(whole, p, at, also);
  }

  lemma PickedSaysOfEach<T(!new), U>(list: seq<U>, whole: seq<T>, p: T -> bool, says: (U, T) -> bool, k: nat)
    requires ListsPicked(list, whole, p, says) && k < |whole| && p(whole[k])
    ensures exists i | 0 <= i < |list| :: says(list[i], whole[k])
  {
    var at: seq<nat> :| PickedAt(list, whole, p, says, at);
    var i :| 0 <= i < |at| && at[i] == k;
    assert says(list[i], whole[k]);
  }
}
