/**
  * Which definition encloses a position. Definitions carry no extents, so the extent of one is taken to
  * run to the next definition that it does not own; the walk starts at the last definition before the
  * position and climbs the owner chain while that extent has ended.
  */
module Enclosing {
  import opened Options
  import opened Lookup
  import opened Words
  import opened Symbols
  import opened Definitions

  datatype DefEntry = DefEntry(symbol: string, start: u32, owners: seq<string>)

  /** Entries carry the proper owners of their symbol, outermost first. */
  predicate CarriesOwners(e: DefEntry) {
    e.owners == Owners(e.symbol)
  }

  ghost predicate AllCarryOwners(entries: seq<DefEntry>) {
    forall i | 0 <= i < |entries| :: CarriesOwners(entries[i])
  }

  // ---------------------------------------------------------------------------
  // The pieces
  // ---------------------------------------------------------------------------

  /** Owned by the symbol or by its companion, at any depth. */
  predicate IsDescendant(u: Unicode, e: DefEntry, ancestor: string) {
    Has(e.owners, ancestor) || (Companion(u, ancestor).Some? && Has(e.owners, Companion(u, ancestor).value))
  }

  /** Some owner of the entry is the symbol or its companion. */
  ghost predicate IsOwnedBy(u: Unicode, e: DefEntry, ancestor: string) {
    exists i | 0 <= i < |e.owners| :: StandsFor(u, e.owners[i], ancestor)
  }

  lemma DescendantMeans(u: Unicode, e: DefEntry, ancestor: string)
    ensures IsDescendant(u, e, ancestor) <==> IsOwnedBy(u, e, ancestor)
  {
    var owners := e.owners;
    if Has(owners, ancestor) {
      var i :| 0 <= i < |owners| && owners[i] == ancestor;
      assert StandsFor(u, owners[i], ancestor);
    } else if IsDescendant(u, e, ancestor) {
      var i :| 0 <= i < |owners| && Some(owners[i]) == Companion(u, ancestor);
      assert StandsFor(u, owners[i], ancestor);
    }
  }

  function FirstNot(p: DefEntry -> bool, entries: seq<DefEntry>, i: nat): (r: Option<nat>)
    requires i <= |entries|
    ensures r.Some? ==> i <= r.value < |entries| && !p(entries[r.value]) && forall j | i <= j < r.value :: p(entries[j])
    ensures r.None? ==> forall j | i <= j < |entries| :: p(entries[j])
    decreases |entries| - i
  {
    if i == |entries| then None else if !p(entries[i]) then Some(i) else FirstNot(p, entries, i + 1)
  }

  /** The first entry from `i` on that the symbol does not own. */
  function Successor(u: Unicode, entries: seq<DefEntry>, symbol: string, i: nat): (r: Option<nat>)
    requires i <= |entries|
    ensures r.Some? ==>
              && i <= r.value < |entries| && !IsDescendant(u, entries[r.value], symbol)
              && forall j | i <= j < r.value :: IsDescendant(u, entries[j], symbol)
    ensures r.None? ==> forall j | i <= j < |entries| :: IsDescendant(u, entries[j], symbol)
  {
    FirstNot(e => IsDescendant(u, e, symbol), entries, i)
  }

  /** Whether the extent of entry `i` reaches beyond the position's line. */
  predicate Contained(u: Unicode, entries: seq<DefEntry>, i: nat, packed: u32)
    requires i < |entries|
  {
    var next := Successor(u, entries, entries[i].symbol, i + 1);
    next.Some? ==> Line(entries[next.value].start) > Line(packed)
  }

  function SymbolsOf(entries: seq<DefEntry>): (keys: seq<string>)
    ensures |keys| == |entries| && forall i | 0 <= i < |keys| :: keys[i] == entries[i].symbol
  {
    seq(|entries|, i requires 0 <= i < |entries| => entries[i].symbol)
  }

  /** The entry of the nearest owner that has one, or whose companion has one. */
  function OwnerEntry(u: Unicode, entries: seq<DefEntry>, e: DefEntry): Option<nat> {
    Nearest(u, SymbolsOf(entries), e.owners)
  }

  /** The last entry that starts at or before a position. */
  function LastStarted(entries: seq<DefEntry>, packed: u32, n: nat): (r: Option<nat>)
    requires n <= |entries|
    ensures r.Some? ==> r.value < n && entries[r.value].start <= packed && forall j | r.value < j < n :: entries[j].start > packed
    ensures r.None? ==> forall j | 0 <= j < n :: entries[j].start > packed
  {
    if n == 0 then None else if entries[n - 1].start <= packed then Some(n - 1) else LastStarted(entries, packed, n - 1)
  }

  ghost predicate Sorted(entries: seq<DefEntry>) {
    forall i, j | 0 <= i < j < |entries| :: entries[i].start <= entries[j].start
  }

  /** On sorted entries, containment looks at every later definition that the entry does not own. */
  lemma {:induction false} ContainedMeans(u: Unicode, entries: seq<DefEntry>, i: nat, packed: u32)
    requires Sorted(entries) && i < |entries|
    ensures Contained(u, entries, i, packed) <==>
            forall j | i < j < |entries| && !IsOwnedBy(u, entries[j], entries[i].symbol) ::
              Line(entries[j].start) > Line(packed)
  {
    forall e: DefEntry ensures IsDescendant(u, e, entries[i].symbol) <==> IsOwnedBy(u, e, entries[i].symbol) {
      DescendantMeans(u, e, entries[i].symbol);
    }
    var next := Successor(u, entries, entries[i].symbol, i + 1);
    if next.Some? {
      forall j | next.value <= j < |entries| ensures Line(entries[next.value].start) <= Line(entries[j].start) {
        assert entries[next.value].start <= entries[j].start;
      }
    }
  }

  // ---------------------------------------------------------------------------
  // The walk
  // ---------------------------------------------------------------------------

  /** One step of the walk. */
  predicate Hop(u: Unicode, entries: seq<DefEntry>, i: nat, j: nat) {
    i < |entries| && j < |entries| && OwnerEntry(u, entries, entries[i]) == Some(j)
  }

  ghost predicate Linked(hop: (nat, nat) -> bool, path: seq<nat>) {
    forall k, l | 0 <= k && l == k + 1 < |path| :: hop(path[k], path[l])
  }

  ghost predicate AllIn(passed: nat -> bool, path: seq<nat>) {
    forall k | 0 <= k < |path| :: passed(path[k])
  }

  function Indices(entries: seq<DefEntry>): nat -> bool {
    (i: nat) => i < |entries|
  }

  function Hops(u: Unicode, entries: seq<DefEntry>): (nat, nat) -> bool {
    (i: nat, j: nat) => Hop(u, entries, i, j)
  }

  /** The entries whose extent has ended before the position. */
  function Ended(u: Unicode, entries: seq<DefEntry>, packed: u32): nat -> bool {
    (i: nat) => i < |entries| && !Contained(u, entries, i, packed)
  }

  /** The path follows owners from entry to entry. */
  ghost predicate Climbs(u: Unicode, entries: seq<DefEntry>, path: seq<nat>) {
    AllIn(Indices(entries), path) && Linked(Hops(u, entries), path)
  }

  /** None of the entries on the path contains the position. */
  ghost predicate PassedOver(u: Unicode, entries: seq<DefEntry>, path: seq<nat>, packed: u32) {
    AllIn(Ended(u, entries, packed), path)
  }

  lemma AllInNext(passed: nat -> bool, path: seq<nat>, j: nat)
    requires AllIn(passed, path) && passed(j)
    ensures AllIn(passed, path + [j])
  {
  }

  lemma LinkedNext(hop: (nat, nat) -> bool, path: seq<nat>, j: nat)
    requires path != [] && Linked(hop, path) && hop(path[|path| - 1], j)
    ensures Linked(hop, path + [j])
  {
  }

  /** The length of the owner prefix, which every hop shortens. */
  function Depth(entries: seq<DefEntry>, i: nat): nat
    requires i < |entries|
  {
    |ImmediateOwner(entries[i].symbol)|
  }

  lemma HopDecreases(u: Unicode, entries: seq<DefEntry>, i: nat)
    requires AllCarryOwners(entries) && i < |entries| && OwnerEntry(u, entries, entries[i]).Some?
    ensures var j := OwnerEntry(u, entries, entries[i]).value;
            Hop(u, entries, i, j) && Depth(entries, j) < Depth(entries, i)
  {
    var e, keys := entries[i], SymbolsOf(entries);
    assert CarriesOwners(e);
    var j := OwnerEntry(u, entries, e).value;
    NearestMeans(u, keys, e.owners);
    var k: nat :| NearestAt(u, keys, e.owners, k, j);
    HopShortens(u, entries[j].symbol, e.symbol, k);
  }

  lemma ClimbOn(u: Unicode, entries: seq<DefEntry>, path: seq<nat>, j: nat)
    requires path != [] && Climbs(u, entries, path) && Hop(u, entries, path[|path| - 1], j)
    ensures Climbs(u, entries, path + [j])
  {
    AllInNext(Indices(entries), path, j);
    LinkedNext(Hops(u, entries), path, j);
  }

  lemma PassOver(u: Unicode, entries: seq<DefEntry>, path: seq<nat>, packed: u32, at: nat)
    requires PassedOver(u, entries, path, packed) && at < |entries| && !Contained(u, entries, at, packed)
    ensures PassedOver(u, entries, path + [at], packed)
  {
    AllInNext(Ended(u, entries, packed), path, at);
  }

  /** A walk that passed over the given entries and came to a result: it starts at the last entry at or
      before the position and follows owners; a result contains the position, and without one the owners
      have run out. */
  ghost predicate Walked(u: Unicode, entries: seq<DefEntry>, packed: u32, passed: seq<nat>, r: Option<nat>) {
    var path := if r.Some? then passed + [r.value] else passed;
    && PassedOver(u, entries, passed, packed)
    && Climbs(u, entries, path)
    && LastStarted(entries, packed, |entries|) == (if path == [] then None else Some(path[0]))
    && (r.Some? ==> r.value < |entries| && Contained(u, entries, r.value, packed))
    && (r.None? && passed != [] ==>
          passed[|passed| - 1] < |entries| && OwnerEntry(u, entries, entries[passed[|passed| - 1]]).None?)
  }

  /** The walk has passed over some entries and stands at one. */
  ghost predicate StandsAt(u: Unicode, entries: seq<DefEntry>, packed: u32, passed: seq<nat>, at: nat) {
    && at < |entries| && PassedOver(u, entries, passed, packed) && Climbs(u, entries, passed + [at])
    && LastStarted(entries, packed, |entries|) == Some((passed + [at])[0])
  }

  lemma WalkGoesOn(u: Unicode, entries: seq<DefEntry>, packed: u32, passed: seq<nat>, at: nat)
    requires AllCarryOwners(entries) && StandsAt(u, entries, packed, passed, at) && !Contained(u, entries, at, packed)
    ensures match OwnerEntry(u, entries, entries[at])
            case None => Walked(u, entries, packed, passed + [at], None)
            case Some(up) => StandsAt(u, entries, packed, passed + [at], up) && Depth(entries, up) < Depth(entries, at)
  {
    PassOver(u, entries, passed, packed, at);
    if OwnerEntry(u, entries, entries[at]).Some? {
      HopDecreases(u, entries, at);
      ClimbOn(u, entries, passed + [at], OwnerEntry(u, entries, entries[at]).value);
    }
  }

  lemma WalkArrives(u: Unicode, entries: seq<DefEntry>, packed: u32, passed: seq<nat>, at: nat)
    requires StandsAt(u, entries, packed, passed, at) && Contained(u, entries, at, packed)
    ensures Walked(u, entries, packed, passed, Some(at))
  {
  }

  method EnclosingEntry(u: Unicode, entries: seq<DefEntry>, packed: u32) returns (r: Option<nat>)
    requires AllCarryOwners(entries)
    ensures exists passed :: Walked(u, entries, packed, passed, r)
  {
    var start := LastStarted(entries, packed, |entries|);
    if start.None? {
      assert Walked(u, entries, packed, [], None);
      return None;
    }
    var at: nat := start.value;
    ghost var passed: seq<nat> := [];
    while true
      invariant StandsAt(u, entries, packed, passed, at)
      decreases Depth(entries, at)
    {
      if Contained(u, entries, at, packed) {
        WalkArrives(u, entries, packed, passed, at);
        return Some(at);
      }
      WalkGoesOn(u, entries, packed, passed, at);
      passed := passed + [at];
      var up := OwnerEntry(u, entries, entries[at]);
      if up.None? {
        return None;
      }
      at := up.value;
    }
  }

  /** Some later definition that the entry does not own starts on or before the position's line. */
  ghost predicate HasEnded(u: Unicode, entries: seq<DefEntry>, i: nat, packed: u32) {
    i < |entries| &&
    exists j | i < j < |entries| :: !IsOwnedBy(u, entries[j], entries[i].symbol) && Line(entries[j].start) <= Line(packed)
  }

  /** On sorted entries: a result has not ended at the position, and everything passed over has. */
  lemma WalkOnSorted(u: Unicode, entries: seq<DefEntry>, packed: u32, passed: seq<nat>, r: Option<nat>)
    requires Sorted(entries) && Walked(u, entries, packed, passed, r)
    ensures r.Some? ==> r.value < |entries| && !HasEnded(u, entries, r.value, packed)
    ensures forall k | 0 <= k < |passed| :: HasEnded(u, entries, passed[k], packed)
  {
    if r.Some? {
      ContainedMeans(u, entries, r.value, packed);
    }
    forall k | 0 <= k < |passed| ensures HasEnded(u, entries, passed[k], packed) {
      assert Ended(u, entries, packed)(passed[k]);
      ContainedMeans(u, entries, passed[k], packed);
    }
  }

  lemma {:induction false} Descending(s: seq<nat>, k: nat, l: nat)
    requires (forall i, j | 0 <= i && j == i + 1 < |s| :: s[j] < s[i]) && k <= l < |s|
    ensures s[l] + (l - k) <= s[k]
  {
    if k < l {
      Descending(s, k, l - 1);
      var i := l - 1;
      assert s[l] < s[i];
    }
  }

  /** The walk visits no entry twice, and no more entries than the first one's owner has characters. */
  lemma WalkIsShort(u: Unicode, entries: seq<DefEntry>, path: seq<nat>)
    requires AllCarryOwners(entries) && Climbs(u, entries, path) && path != []
    ensures path[0] < |entries| && |path| <= |ImmediateOwner(entries[path[0]].symbol)| + 1
    ensures forall k, l | 0 <= k < l < |path| :: path[k] != path[l]
  {
    var depths := seq(|path|, k requires 0 <= k < |path| => Depth(entries, path[k]));
    forall k, l | 0 <= k && l == k + 1 < |path| ensures depths[l] < depths[k] {
      assert Hop(u, entries, path[k], path[l]);
      HopDecreases(u, entries, path[k]);
    }
    Descending(depths, 0, |path| - 1);
    forall k, l | 0 <= k < l < |path| ensures path[k] != path[l] {
      Descending(depths, k, l);
    }
  }

  // ---------------------------------------------------------------------------
  // The entries of a document
  // ---------------------------------------------------------------------------

  function EntryOf(r: Record): DefEntry {
    DefEntry(r.symbol, r.start, Owners(r.symbol))
  }

  function Entries(rs: seq<Record>): seq<DefEntry> {
    seq(|rs|, i requires 0 <= i < |rs| => EntryOf(rs[i]))
  }

  /** An entry carries the symbol, the start and the proper owners of a record. */
  predicate Tells(e: DefEntry, r: Record) {
    e.symbol == r.symbol && e.start == r.start && CarriesOwners(e)
  }

  ghost predicate HasEntry(entries: seq<DefEntry>, r: Record) {
    exists k | 0 <= k < |entries| :: Tells(entries[k], r)
  }

  ghost predicate TellsOfFirst(records: seq<Record>, e: DefEntry) {
    exists i: nat :: IsFirst(Selects, records, i) && Tells(e, records[i])
  }

  /** The entries tell of exactly the first selected record of each symbol. */
  ghost predicate TellOfSelected(records: seq<Record>, entries: seq<DefEntry>) {
    && (forall i: nat | IsFirst(Selects, records, i) :: HasEntry(entries, records[i]))
    && (forall k | 0 <= k < |entries| :: TellsOfFirst(records, entries[k]))
  }

  lemma SameElements<T>(these: seq<T>, those: seq<T>)
    requires multiset(these) == multiset(those)
    ensures |these| == |those| && forall x | x in those :: exists i | 0 <= i < |these| :: these[i] == x
  {
    assert |multiset(these)| == |these| && |multiset(those)| == |those|;
    forall x | x in those ensures exists i | 0 <= i < |these| :: these[i] == x {
      assert x in multiset(these);
    }
  }

  lemma AllAreTold(records: seq<Record>, at: seq<nat>, placed: seq<DefEntry>, entries: seq<DefEntry>, i: nat)
    requires |at| == |placed| && multiset(entries) == multiset(placed) && i < |records| && i in at
    requires forall k | 0 <= k < |at| :: at[k] < |records| && Tells(placed[k], records[at[k]])
    ensures HasEntry(entries, records[i])
  {
    var k :| 0 <= k < |at| && at[k] == i;
    SameElements(entries, placed);
    assert placed[k] in placed;
    var l :| 0 <= l < |entries| && entries[l] == placed[k];
    assert Tells(entries[l], records[i]);
  }

  lemma OnlyTheyAreTold(records: seq<Record>, at: seq<nat>, placed: seq<DefEntry>, entries: seq<DefEntry>, k: nat)
    requires |at| == |placed| && multiset(entries) == multiset(placed) && k < |entries|
    requires forall l | 0 <= l < |at| :: at[l] < |records| && Tells(placed[l], records[at[l]])
    ensures exists l | 0 <= l < |at| :: at[l] < |records| && Tells(entries[k], records[at[l]])
  {
    SameElements(placed, entries);
    assert entries[k] in entries;
    var l :| 0 <= l < |placed| && placed[l] == entries[k];
    assert at[l] < |records| && Tells(entries[k], records[at[l]]);
  }

  lemma EntriesTell(records: seq<Record>, entries: seq<DefEntry>)
    requires multiset(entries) == multiset(Entries(Selected(records)))
    ensures |entries| == |Selected(records)| && TellOfSelected(records, entries)
  {
    var placed := Entries(Selected(records));
    var at := SelectedMeans(records);
    forall k | 0 <= k < |at| ensures at[k] < |records| && Tells(placed[k], records[at[k]]) {
      assert IsFirst(Selects, records, at[k]);
    }
    SameElements(entries, placed);
    forall i: nat | IsFirst(Selects, records, i) ensures HasEntry(entries, records[i]) {
      AllAreTold(records, at, placed, entries, i);
    }
    forall k | 0 <= k < |entries| ensures TellsOfFirst(records, entries[k]) {
      OnlyTheyAreTold(records, at, placed, entries, k);
      var l :| 0 <= l < |at| && at[l] < |records| && Tells(entries[k], records[at[l]]);
      assert IsFirst(Selects, records, at[l]);
    }
  }

  /** Behind every entry that does not start later: a stable insertion. */
  function Insert(entries: seq<DefEntry>, e: DefEntry): seq<DefEntry>
    decreases |entries|
  {
    var n := |entries| - 1;
    if entries == [] || entries[n].start <= e.start then entries + [e] else Insert(entries[..n], e) + [entries[n]]
  }

  function SortByStart(entries: seq<DefEntry>): seq<DefEntry>
    decreases |entries|
  {
    if entries == [] then [] else Insert(SortByStart(entries[..|entries| - 1]), entries[|entries| - 1])
  }

  lemma {:induction false} InsertKeeps(entries: seq<DefEntry>, e: DefEntry)
    ensures multiset(Insert(entries, e)) == multiset(entries) + multiset{e}
    decreases |entries|
  {
    var n := |entries| - 1;
    if entries != [] && entries[n].start > e.start {
      assert entries == entries[..n] + [entries[n]];
      InsertKeeps(entries[..n], e);
    }
  }

  ghost predicate AllUpTo(entries: seq<DefEntry>, limit: u32) {
    forall i | 0 <= i < |entries| :: entries[i].start <= limit
  }

  lemma {:induction false} InsertStaysBelow(entries: seq<DefEntry>, e: DefEntry, limit: u32)
    requires AllUpTo(entries, limit) && e.start <= limit
    ensures AllUpTo(Insert(entries, e), limit)
    decreases |entries|
  {
    var n := |entries| - 1;
    if entries != [] && entries[n].start > e.start {
      InsertStaysBelow(entries[..n], e, limit);
    }
  }

  lemma SortedNext(entries: seq<DefEntry>, last: DefEntry)
    requires Sorted(entries) && AllUpTo(entries, last.start)
    ensures Sorted(entries + [last])
  {
  }

  lemma {:induction false} InsertSorts(entries: seq<DefEntry>, e: DefEntry)
    requires Sorted(entries)
    ensures Sorted(Insert(entries, e))
    decreases |entries|
  {
    var n := |entries| - 1;
    if entries == [] || entries[n].start <= e.start {
      SortedNext(entries, e);
    } else {
      InsertSorts(entries[..n], e);
      InsertStaysBelow(entries[..n], e, entries[n].start);
      SortedNext(Insert(entries[..n], e), entries[n]);
    }
  }

  lemma {:induction false} SortMeans(entries: seq<DefEntry>)
    ensures Sorted(SortByStart(entries)) && multiset(SortByStart(entries)) == multiset(entries)
    decreases |entries|
  {
    if entries != [] {
      var n := |entries| - 1;
      assert entries == entries[..n] + [entries[n]];
      SortMeans(entries[..n]);
      InsertKeeps(SortByStart(entries[..n]), entries[n]);
      InsertSorts(SortByStart(entries[..n]), entries[n]);
    }
  }

  /** Postings that come in position order stay as they are. */
  lemma {:induction false} SortKeepsOrder(entries: seq<DefEntry>)
    requires Sorted(entries)
    ensures SortByStart(entries) == entries
    decreases |entries|
  {
    if entries != [] {
      SortKeepsOrder(entries[..|entries| - 1]);
    }
  }

  method DocDefEntries(records: seq<Record>) returns (entries: seq<DefEntry>)
    ensures entries == SortByStart(Entries(Selected(records)))
    ensures Sorted(entries) && multiset(entries) == multiset(Entries(Selected(records)))
    ensures |entries| == |Selected(records)| && TellOfSelected(records, entries)
    ensures AllCarryOwners(entries)
  {
    var seen: set<string> := {};
    var out: seq<DefEntry> := [];
    for i := 0 to |records|
      invariant out == Entries(Selected(records[..i]))
      invariant forall s :: s in seen <==> Contains(Selected(records[..i]), s)
    {
      var r := records[i];
      assert records[..i + 1][..i] == records[..i];
      if Selects(r) && r.symbol !in seen {
        AddedSymbols(Selected(records[..i]), r);
        seen := seen + {r.symbol};
        out := out + [EntryOf(r)];
      }
    }
    assert records[..|records|] == records;
    entries := SortByStart(out);
    SortMeans(out);
    SortKeepsOwners(out, entries);
    EntriesTell(records, entries);
  }

  lemma SortKeepsOwners(before: seq<DefEntry>, after: seq<DefEntry>)
    requires AllCarryOwners(before) && multiset(after) == multiset(before)
    ensures AllCarryOwners(after)
  {
    forall i | 0 <= i < |after| ensures CarriesOwners(after[i]) {
      assert after[i] in multiset(after);
      assert after[i] in before;
    }
  }

  lemma AddedSymbols(rs: seq<Record>, r: Record)
    ensures forall s :: Contains(rs + [r], s) <==> Contains(rs, s) || s == r.symbol
  {
    var next := rs + [r];
    forall s | Contains(rs, s) || s == r.symbol ensures Contains(next, s) {
      if s == r.symbol {
        assert next[|rs|].symbol == s;
      } else {
        var i :| 0 <= i < |rs| && rs[i].symbol == s;
        assert next[i].symbol == s;
      }
    }
  }
}
