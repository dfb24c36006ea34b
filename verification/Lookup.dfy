/** Lists of keys: finding a key, and keeping keys in the order of a time that each one has. */
module Lookup {
  import opened Options

  predicate Has(keys: seq<string>, key: string) {
    exists i | 0 <= i < |keys| :: keys[i] == key
  }

  /** The first position of a key. */
  function Find(keys: seq<string>, key: string): (r: Option<nat>)
    ensures r.Some? <==> Has(keys, key)
    ensures r.Some? ==> r.value < |keys| && keys[r.value] == key && forall i | 0 <= i < r.value :: keys[i] != key
  {
    FindFrom(keys, key, 0)
  }

  function FindFrom(keys: seq<string>, key: string, start: nat): (r: Option<nat>)
    requires start <= |keys|
    ensures r.Some? ==> start <= r.value < |keys| && keys[r.value] == key && forall i | start <= i < r.value :: keys[i] != key
    ensures r.None? ==> forall i | start <= i < |keys| :: keys[i] != key
    decreases |keys| - start
  {
    if start == |keys| then None else if keys[start] == key then Some(start) else FindFrom(keys, key, start + 1)
  }

  method FindKey(keys: seq<string>, key: string) returns (r: Option<nat>)
    ensures r == Find(keys, key)
  {
    for i := 0 to |keys|
      invariant FindFrom(keys, key, 0) == FindFrom(keys, key, i)
    {
      if keys[i] == key {
        return Some(i);
      }
    }
    return None;
  }

  function WithKey(keys: seq<string>, key: string): seq<string> {
    if Has(keys, key) then keys else keys + [key]
  }

  ghost predicate Distinct<T(!new)>(keys: seq<T>) {
    forall i, j | 0 <= i < j < |keys| :: keys[i] != keys[j]
  }

  /** The keys are exactly those that have a time, in the order of their times. */
  ghost predicate OrderedBy(at: string -> Option<nat>, keys: seq<string>) {
    && (forall i | 0 <= i < |keys| :: at(keys[i]).Some?)
    && (forall i, j | 0 <= i < j < |keys| :: at(keys[i]).value < at(keys[j]).value)
    && (forall key :: at(key).Some? ==> Has(keys, key))
  }

  lemma SameOrder(before: string -> Option<nat>, after: string -> Option<nat>, keys: seq<string>)
    requires OrderedBy(before, keys) && forall k :: before(k).Some? ==> after(k) == before(k)
    requires forall k :: before(k).None? && !Has(keys, k) ==> after(k).None?
    ensures OrderedBy(after, keys)
  {
  }

  lemma AppendKeepsOrder(before: string -> Option<nat>, after: string -> Option<nat>, keys: seq<string>, key: string, n: nat)
    requires OrderedBy(before, keys) && !Has(keys, key)
    requires forall k | before(k).Some? :: before(k).value < n
    requires forall k :: after(k) == if k == key then Some(n) else before(k)
    ensures OrderedBy(after, keys + [key])
  {
    forall k | after(k).Some? ensures Has(keys + [key], k) {
      HasWith(keys, key, k);
    }
  }

  lemma OrderedIsDistinct(at: string -> Option<nat>, keys: seq<string>)
    requires OrderedBy(at, keys)
    ensures Distinct(keys)
  {
  }

  /** What is left when one key is removed. */
  lemma HasWithout(keys: seq<string>, i: nat, key: string)
    requires i < |keys| && Has(keys, key) && key != keys[i]
    ensures Has(keys[..i] + keys[i + 1..], key)
  {
    var j :| 0 <= j < |keys| && keys[j] == key;
    assert (keys[..i] + keys[i + 1..])[if j < i then j else j - 1] == key;
  }

  lemma HasWith(keys: seq<string>, last: string, key: string)
    requires Has(keys, key) || key == last
    ensures Has(keys + [last], key)
  {
    if key == last {
      assert (keys + [last])[|keys|] == key;
    } else {
      var j :| 0 <= j < |keys| && keys[j] == key;
      assert (keys + [last])[j] == key;
    }
  }

  lemma SubsequenceKeepsOrder(at: string -> Option<nat>, keys: seq<string>, next: seq<string>, i: nat)
    requires OrderedBy(at, keys) && i < |keys| && next == keys[..i] + keys[i + 1..]
    ensures forall j | 0 <= j < |next| :: at(next[j]).Some? && next[j] != keys[i]
    ensures forall j, k | 0 <= j < k < |next| :: at(next[j]).value < at(next[k]).value
  {
    forall j | 0 <= j < |next| ensures at(next[j]).Some? && next[j] != keys[i] {
      assert next[j] == keys[if j < i then j else j + 1];
    }
    forall j, k | 0 <= j < k < |next| ensures at(next[j]).value < at(next[k]).value {
      assert next[j] == keys[if j < i then j else j + 1] && next[k] == keys[if k < i then k else k + 1];
    }
  }

  lemma RemoveAtKeepsOrder(before: string -> Option<nat>, after: string -> Option<nat>, keys: seq<string>, i: nat)
    requires OrderedBy(before, keys) && i < |keys|
    requires forall k :: after(k) == if k == keys[i] then None else before(k)
    ensures OrderedBy(after, keys[..i] + keys[i + 1..])
  {
    var next := keys[..i] + keys[i + 1..];
    SubsequenceKeepsOrder(before, keys, next, i);
    forall j | 0 <= j < |next| ensures after(next[j]) == before(next[j]) && before(next[j]).Some? {
    }
    forall k | after(k).Some? ensures Has(next, k) {
      assert before(k).Some? && Has(keys, k) && k != keys[i];
      HasWithout(keys, i, k);
    }
  }

  ghost predicate Ascending(s: seq<nat>) {
    forall i, j | 0 <= i < j < |s| :: s[i] < s[j]
  }

  lemma AscendingNext(s: seq<nat>, n: nat)
    requires Ascending(s) && forall i | 0 <= i < |s| :: s[i] < n
    ensures Ascending(s + [n])
  {
  }
}
