/**
  * The definitions of a document that the outline and the call hierarchy both work on, and the walk from
  * a symbol to its nearest owner among them.
  */
module Definitions {
  import opened Options
  import opened Lookup
  import opened Words
  import opened Symbols
  import opened IndexModel

  /** One posting of a document, with the symbol's stored display name and kind. */
  datatype Record = Record(
    definition: bool,
    symbol: string,
    localDoc: Option<u64>,
    start: u32,
    end: u32,
    display: string,
    kind: SymKind)

  /** A packed position: twelve bits of character below the line. */
  function Line(packed: u32): nat {
    packed / 0x1000
  }

  function Character(packed: u32): nat {
    packed % 0x1000
  }

  /** Definitions of global terms, types and methods, but no constructors and no setters. */
  predicate Selects(r: Record) {
    var split := SplitLast(r.symbol);
    && r.definition && r.localDoc.None? && split.Some?
    && match split.value.1 {
         case Term(_) => true
         case Type(_) => true
         case Method(name, _) => name != CONSTRUCTOR_NAME && !IsSetterName(name)
         case _ => false
       }
  }

  /** `x_=` for some non-empty `x`. */
  ghost predicate IsAssignment(name: string) {
    exists stem: string :: stem != "" && name == stem + "_="
  }

  lemma AssignmentIsSetter(name: string)
    ensures IsSetterName(name) <==> IsAssignment(name)
  {
    if IsSetterName(name) {
      assert name == name[..|name| - 2] + "_=";
    }
  }

  ghost predicate IsListed(d: Descriptor) {
    d.Term? || d.Type? || (d.Method? && d.name != "<init>" && !IsAssignment(d.name))
  }

  /** What is selected, from the grammar of symbols. */
  lemma SelectsMeans(r: Record)
    ensures Selects(r) <==>
            && r.definition && r.localDoc == None
            && exists owner, d, raw :: Decomposes(r.symbol, owner, d, raw) && IsListed(d)
  {
    if SplitLast(r.symbol).Some? {
      var (owner, d) := SplitLast(r.symbol).value;
      SplitMeans(r.symbol, owner, d);
      AssignmentIsSetter(d.name);
    }
    forall owner, d, raw | Decomposes(r.symbol, owner, d, raw) ensures SplitLast(r.symbol) == Some((owner, d)) {
      SplitMeans(r.symbol, owner, d);
    }
  }

  predicate Contains(rs: seq<Record>, symbol: string) {
    exists i | 0 <= i < |rs| :: rs[i].symbol == symbol
  }

  /** The records that pass a test, the first one of each symbol. */
  function Firsts(p: Record -> bool, rs: seq<Record>): seq<Record>
    decreases |rs|
  {
    if rs == [] then []
    else
      var front, last := Firsts(p, rs[..|rs| - 1]), rs[|rs| - 1];
      if p(last) && !Contains(front, last.symbol) then front + [last] else front
  }

  function Selected(rs: seq<Record>): seq<Record> {
    Firsts(Selects, rs)
  }

  /** Record `i` passes, and it is the first one of its symbol that does. */
  predicate IsFirst(p: Record -> bool, rs: seq<Record>, i: nat) {
    i < |rs| && p(rs[i]) && forall j | 0 <= j < i :: p(rs[j]) ==> rs[j].symbol != rs[i].symbol
  }

  /** Where the records of a list come from in another: exactly the first ones, in order. */
  ghost predicate AreFirsts(p: Record -> bool, rs: seq<Record>, sel: seq<Record>, at: seq<nat>) {
    && |at| == |sel|
    && (forall k | 0 <= k < |at| :: IsFirst(p, rs, at[k]) && sel[k] == rs[at[k]])
    && (forall k, l | 0 <= k < l < |at| :: at[k] < at[l])
    && (forall i: nat | IsFirst(p, rs, i) :: i in at)
  }

  lemma {:induction false} FirstsMeans(p: Record -> bool, rs: seq<Record>) returns (at: seq<nat>)
    ensures AreFirsts(p, rs, Firsts(p, rs), at)
    decreases |rs|
  {
    if rs == [] {
      return [];
    }
    var n := |rs| - 1;
    var front := Firsts(p, rs[..n]);
    at := FirstsMeans(p, rs[..n]);
    if p(rs[n]) && !Contains(front, rs[n].symbol) {
      LastJoins(p, rs, front, at);
      at := at + [n];
    } else {
      LastIsLeftOut(p, rs, front, at);
    }
  }

  lemma LastJoins(p: Record -> bool, rs: seq<Record>, front: seq<Record>, at: seq<nat>)
    requires rs != [] && AreFirsts(p, rs[..|rs| - 1], front, at)
    requires p(rs[|rs| - 1]) && !Contains(front, rs[|rs| - 1].symbol)
    ensures AreFirsts(p, rs, front + [rs[|rs| - 1]], at + [|rs| - 1])
  {
    FirstOfPrefix(p, rs);
    LastIsFirst(p, rs, front, at);
    var n := |rs| - 1;
    forall i: nat | IsFirst(p, rs, i) ensures i in at + [n] {
      if i < n {
        assert IsFirst(p, rs[..n], i);
      }
    }
  }

  lemma LastIsLeftOut(p: Record -> bool, rs: seq<Record>, front: seq<Record>, at: seq<nat>)
    requires rs != [] && AreFirsts(p, rs[..|rs| - 1], front, at)
    requires !p(rs[|rs| - 1]) || Contains(front, rs[|rs| - 1].symbol)
    ensures AreFirsts(p, rs, front, at)
  {
    FirstOfPrefix(p, rs);
    if p(rs[|rs| - 1]) {
      LastIsFirst(p, rs, front, at);
    }
    forall i: nat | IsFirst(p, rs, i) ensures i in at {
      assert IsFirst(p, rs[..|rs| - 1], i);
    }
  }

  lemma FirstOfPrefix(p: Record -> bool, rs: seq<Record>)
    requires rs != []
    ensures forall i: nat | i < |rs| - 1 :: IsFirst(p, rs, i) <==> IsFirst(p, rs[..|rs| - 1], i)
  {
    var before := rs[..|rs| - 1];
    assert forall i | 0 <= i < |before| :: before[i] == rs[i];
  }

  lemma LastIsFirst(p: Record -> bool, rs: seq<Record>, front: seq<Record>, at: seq<nat>)
    requires rs != [] && p(rs[|rs| - 1]) && AreFirsts(p, rs[..|rs| - 1], front, at)
    ensures IsFirst(p, rs, |rs| - 1) <==> !Contains(front, rs[|rs| - 1].symbol)
  {
    var n := |rs| - 1;
    var before, symbol := rs[..n], rs[n].symbol;
    if !IsFirst(p, rs, n) {
      var j :| 0 <= j < n && p(rs[j]) && rs[j].symbol == symbol;
      assert before[j] == rs[j];
      var i := Earliest(p, before, j);
      var k :| 0 <= k < |at| && at[k] == i;
      assert front[k].symbol == symbol;
    }
  }

  lemma {:induction false} Earliest(p: Record -> bool, rs: seq<Record>, j: nat) returns (i: nat)
    requires j < |rs| && p(rs[j])
    ensures IsFirst(p, rs, i) && rs[i].symbol == rs[j].symbol
    decreases j
  {
    if IsFirst(p, rs, j) {
      i := j;
    } else {
      var k :| 0 <= k < j && p(rs[k]) && rs[k].symbol == rs[j].symbol;
      i := Earliest(p, rs, k);
    }
  }

  predicate DistinctSymbols(rs: seq<Record>) {
    forall i, j | 0 <= i < j < |rs| :: rs[i].symbol != rs[j].symbol
  }

  lemma SelectedAreDistinct(rs: seq<Record>)
    ensures DistinctSymbols(Selected(rs))
  {
    var at := FirstsMeans(Selects, rs);
    var sel := Selected(rs);
    forall i, j | 0 <= i < j < |sel| ensures sel[i].symbol != sel[j].symbol {
      assert IsFirst(Selects, rs, at[i]) && IsFirst(Selects, rs, at[j]) && at[i] < at[j];
    }
  }

  /** The selection is the subsequence of exactly the first selected record of each symbol. */
  lemma SelectedMeans(rs: seq<Record>) returns (at: seq<nat>)
    ensures AreFirsts(Selects, rs, Selected(rs), at)
  {
    at := FirstsMeans(Selects, rs);
  }

  // ---------------------------------------------------------------------------
  // Nearest owner
  // ---------------------------------------------------------------------------

  /** Where an ancestor is, or else its companion. */
  function Located(u: Unicode, keys: seq<string>, ancestor: string): Option<nat> {
    if Find(keys, ancestor).Some? then Find(keys, ancestor)
    else
      match Companion(u, ancestor)
      case Some(c) => Find(keys, c)
      case None => None
  }

  /** The first answer, from the innermost owner outwards. */
  function Innermost(located: string -> Option<nat>, owners: seq<string>): (r: Option<nat>)
    ensures r.Some? ==>
              exists k | 0 <= k < |owners| ::
                r == located(owners[k]) && forall j | k < j < |owners| :: located(owners[j]).None?
    ensures r.None? ==> forall k | 0 <= k < |owners| :: located(owners[k]).None?
    decreases |owners|
  {
    if owners == [] then None
    else
      var n := |owners| - 1;
      if located(owners[n]).Some? then located(owners[n])
      else
        assert forall j | 0 <= j < n :: owners[..n][j] == owners[j];
        Innermost(located, owners[..n])
  }

  /** The innermost owner that is among the keys, itself or by its companion. */
  function Nearest(u: Unicode, keys: seq<string>, owners: seq<string>): Option<nat> {
    Innermost(a => Located(u, keys, a), owners)
  }

  /** A key stands for an owner if it is that owner or the owner's companion. */
  predicate StandsFor(u: Unicode, key: string, owner: string) {
    key == owner || Companion(u, owner) == Some(key)
  }

  /** Key `i` stands for owner `k`, by its companion only if need be, and nothing stands for an owner
      further in. */
  ghost predicate NearestAt(u: Unicode, keys: seq<string>, owners: seq<string>, k: nat, i: nat) {
    && k < |owners| && i < |keys| && StandsFor(u, keys[i], owners[k])
    && (keys[i] != owners[k] ==> !Has(keys, owners[k]))
    && (forall j | k < j < |owners| :: NoneStandsFor(u, keys, owners[j]))
  }

  ghost predicate NoneStandsFor(u: Unicode, keys: seq<string>, owner: string) {
    forall i | 0 <= i < |keys| :: !StandsFor(u, keys[i], owner)
  }

  lemma LocatedMeans(u: Unicode, keys: seq<string>, owner: string)
    ensures var r := Located(u, keys, owner);
            && (r.None? <==> NoneStandsFor(u, keys, owner))
            && (r.Some? ==> && r.value < |keys| && StandsFor(u, keys[r.value], owner)
                            && (keys[r.value] != owner ==> !Has(keys, owner)))
  {
  }

  lemma NearestMeans(u: Unicode, keys: seq<string>, owners: seq<string>)
    ensures var r := Nearest(u, keys, owners);
            && (r.Some? ==> exists k: nat :: NearestAt(u, keys, owners, k, r.value))
            && (r.None? ==> forall k | 0 <= k < |owners| :: NoneStandsFor(u, keys, owners[k]))
  {
    var r := Nearest(u, keys, owners);
    forall k | 0 <= k < |owners| && Located(u, keys, owners[k]).None? ensures NoneStandsFor(u, keys, owners[k]) {
      LocatedMeans(u, keys, owners[k]);
    }
    if r.Some? {
      var k :| 0 <= k < |owners| && r == Located(u, keys, owners[k])
               && forall j | k < j < |owners| :: Located(u, keys, owners[j]).None?;
      LocatedMeans(u, keys, owners[k]);
      assert NearestAt(u, keys, owners, k, r.value);
    }
  }

  /** Each hop to an owner or to its companion strictly shortens the immediate owner. */
  lemma HopShortens(u: Unicode, symbol: string, inner: string, k: nat)
    requires k < |Owners(inner)| && StandsFor(u, symbol, Owners(inner)[k])
    ensures |ImmediateOwner(symbol)| < |ImmediateOwner(inner)|
  {
    var a := Owners(inner)[k];
    OwnersArePrefixes(inner);
    assert a in Owners(inner);
    ImmediateOwnerIsShorter(a);
    if symbol != a {
      CompanionSplit(u, a);
    }
  }

  lemma ImmediateOwnerIsShorter(symbol: string)
    requires symbol != ""
    ensures |ImmediateOwner(symbol)| < |symbol|
  {
  }
}
