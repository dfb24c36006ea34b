/** The normalized shapes that ingest works on: keys, symbol infos, occurrences and documents. */
module IndexModel {
  import opened Options
  import opened Words
  import opened Lookup

  /** A symbol; a local one is only meaningful together with its document. */
  datatype SymbolKey = SymbolKey(symbol: string, localDoc: Option<u64>) {
    predicate IsLocal() {
      localDoc.Some?
    }
  }

  function Global(symbol: string): SymbolKey {
    SymbolKey(symbol, None)
  }

  datatype SymKind =
    | UnknownKind | LocalValue | LocalVariable | MethodKind | Constructor | Macro | TypeKind | ParameterKind
    | SelfParameter | TypeParameterKind | Object | PackageKind | PackageObject | Class | Trait | Interface | Field

  const OPAQUE: bv32 := 0x200000

  datatype SymbolInfo = SymbolInfo(key: SymbolKey, displayName: string, kind: SymKind, properties: bv32,
                                   overridden: seq<string>)

  datatype Role = Reference | Definition

  datatype Span = Span(startLine: nat, startChar: nat, endLine: nat, endChar: nat)

  datatype Occurrence = Occurrence(key: SymbolKey, span: Span, role: Role, synthetic: bool)

  datatype Document = Document(uri: string, symbols: seq<SymbolInfo>, occurrences: seq<Occurrence>)

  // ---------------------------------------------------------------------------
  // A batch of documents read as one stream of infos and one of occurrences
  // ---------------------------------------------------------------------------

  function AllInfos(docs: seq<Document>): seq<SymbolInfo> {
    if docs == [] then [] else AllInfos(docs[..|docs| - 1]) + docs[|docs| - 1].symbols
  }

  function AllOccurrences(docs: seq<Document>): seq<Occurrence> {
    if docs == [] then [] else AllOccurrences(docs[..|docs| - 1]) + docs[|docs| - 1].occurrences
  }

  /** The info that speaks for each key: the first one seen. */
  function InfoMap(infos: seq<SymbolInfo>): map<SymbolKey, SymbolInfo> {
    if infos == [] then map[]
    else
      var last := infos[|infos| - 1];
      var before := InfoMap(infos[..|infos| - 1]);
      if last.key in before then before else before[last.key := last]
  }

  lemma InfoMapNext(infos: seq<SymbolInfo>, s: SymbolInfo)
    ensures InfoMap(infos + [s]) == if s.key in InfoMap(infos) then InfoMap(infos) else InfoMap(infos)[s.key := s]
  {
    assert (infos + [s])[..|infos|] == infos;
  }

  ghost predicate IsFirstInfo(infos: seq<SymbolInfo>, i: nat, key: SymbolKey) {
    i < |infos| && infos[i].key == key && forall j | 0 <= j < i :: infos[j].key != key
  }

  lemma {:induction false} FirstSeen(infos: seq<SymbolInfo>, key: SymbolKey)
    ensures key in InfoMap(infos) ==> exists i: nat :: IsFirstInfo(infos, i, key) && InfoMap(infos)[key] == infos[i]
    ensures key !in InfoMap(infos) ==> forall s | s in infos :: s.key != key
  {
    if infos != [] {
      var last := |infos| - 1;
      FirstSeen(infos[..last], key);
      if key in InfoMap(infos[..last]) {
        var i: nat :| IsFirstInfo(infos[..last], i, key) && InfoMap(infos[..last])[key] == infos[..last][i];
        assert IsFirstInfo(infos, i, key);
      } else if infos[last].key == key {
        forall j | 0 <= j < last ensures infos[j].key != key {
          assert infos[j] in infos[..last];
        }
        assert IsFirstInfo(infos, last, key);
      }
    }
  }

  /** Keys with a definition occurrence in the batch. */
  function DefinedKeys(occs: seq<Occurrence>): set<SymbolKey> {
    set o | o in occs && o.role.Definition? :: o.key
  }

  function InfoKeys(infos: seq<SymbolInfo>): set<SymbolKey> {
    set s | s in infos :: s.key
  }

  function OccurrenceKeys(occs: seq<Occurrence>): set<SymbolKey> {
    set o | o in occs :: o.key
  }

  lemma InfoKeysAppend(a: seq<SymbolInfo>, b: seq<SymbolInfo>)
    ensures InfoKeys(a + b) == InfoKeys(a) + InfoKeys(b)
  {
    assert forall s :: s in a + b <==> s in a || s in b;
  }

  lemma OccurrenceKeysAppend(a: seq<Occurrence>, b: seq<Occurrence>)
    ensures OccurrenceKeys(a + b) == OccurrenceKeys(a) + OccurrenceKeys(b)
  {
    assert forall o :: o in a + b <==> o in a || o in b;
  }

  function MentionedKeys(docs: seq<Document>): set<SymbolKey> {
    InfoKeys(AllInfos(docs)) + OccurrenceKeys(AllOccurrences(docs))
  }

  // ---------------------------------------------------------------------------
  // The order of keys: by symbol, then by document with globals first
  // ---------------------------------------------------------------------------

  predicate StringLe(a: string, b: string) {
    a == "" || (b != "" && (a[0] < b[0] || (a[0] == b[0] && StringLe(a[1..], b[1..]))))
  }

  /** The document id reinterpreted as a signed 64-bit number; -1 for a global key. */
  function OrdVal(k: SymbolKey): int {
    match k.localDoc
    case None => -1
    case Some(d) => if d < 0x8000_0000_0000_0000 then d else d - 0x1_0000_0000_0000_0000
  }

  predicate KeyLe(a: SymbolKey, b: SymbolKey) {
    if a.symbol == b.symbol then OrdVal(a) <= OrdVal(b) else StringLe(a.symbol, b.symbol)
  }

  /** `a` starts `b`, or is smaller at the first character where they differ. */
  ghost predicate Precedes(a: string, b: string) {
    a <= b || exists i: nat :: DiffersAt(a, b, i)
  }

  ghost predicate DiffersAt(a: string, b: string, i: nat) {
    i < |a| && i < |b| && a[..i] == b[..i] && a[i] < b[i]
  }

  lemma SameFirst(c: char, x: string, y: string)
    ensures Precedes([c] + x, [c] + y) <==> Precedes(x, y)
  {
    var a, b := [c] + x, [c] + y;
    assert a[1..] == x && b[1..] == y;
    assert a <= b <==> x <= y;
    forall i: nat | DiffersAt(x, y, i) ensures DiffersAt(a, b, i + 1) {
      assert a[..i + 1] == [c] + x[..i] && b[..i + 1] == [c] + y[..i];
    }
    forall i: nat | DiffersAt(a, b, i) ensures i > 0 && DiffersAt(x, y, i - 1) {
      assert x[..i - 1] == a[..i][1..] && y[..i - 1] == b[..i][1..];
    }
  }

  lemma {:induction false} StringLeMeans(a: string, b: string)
    ensures StringLe(a, b) <==> Precedes(a, b)
  {
    if a != "" && b != "" {
      if a[0] == b[0] {
        StringLeMeans(a[1..], b[1..]);
        SameFirst(a[0], a[1..], b[1..]);
        assert a == [a[0]] + a[1..] && b == [a[0]] + b[1..];
      } else if a[0] < b[0] {
        assert DiffersAt(a, b, 0);
      } else {
        FirstDecides(a, b);
      }
    }
  }

  lemma FirstDecides(a: string, b: string)
    requires a != "" && b != "" && a[0] > b[0]
    ensures !Precedes(a, b)
  {
    forall i: nat | i < |a| && i < |b| ensures !DiffersAt(a, b, i) {
      assert i > 0 ==> a[..i][0] == a[0] && b[..i][0] == b[0];
    }
  }

  /** By symbol; then globals before the documents of the lower half, and after those of the upper half. */
  lemma KeyLeMeans(a: SymbolKey, b: SymbolKey)
    ensures a.symbol != b.symbol ==> (KeyLe(a, b) <==> Precedes(a.symbol, b.symbol))
    ensures a.symbol == b.symbol ==>
              match (a.localDoc, b.localDoc)
              case (None, None) => KeyLe(a, b)
              case (None, Some(d)) => KeyLe(a, b) <==> d < 0x8000_0000_0000_0000 || d == 0xffff_ffff_ffff_ffff
              case (Some(d), None) => KeyLe(a, b) <==> d >= 0x8000_0000_0000_0000
              case (Some(d), Some(e)) =>
                KeyLe(a, b) <==> if (d < 0x8000_0000_0000_0000) == (e < 0x8000_0000_0000_0000) then d <= e else d > e
  {
    StringLeMeans(a.symbol, b.symbol);
  }

  lemma {:induction false} StringLeTotal(a: string, b: string)
    ensures StringLe(a, b) || StringLe(b, a)
    ensures StringLe(a, b) && StringLe(b, a) ==> a == b
  {
    if a != "" && b != "" && a[0] == b[0] {
      StringLeTotal(a[1..], b[1..]);
      assert a == [a[0]] + a[1..] && b == [b[0]] + b[1..];
    }
  }

  lemma {:induction false} StringLeTransitive(a: string, b: string, c: string)
    requires StringLe(a, b) && StringLe(b, c)
    ensures StringLe(a, c)
  {
    if a != "" && b != "" && c != "" && a[0] == b[0] == c[0] {
      StringLeTransitive(a[1..], b[1..], c[1..]);
    }
  }

  lemma KeyLeTransitive(a: SymbolKey, b: SymbolKey, c: SymbolKey)
    requires KeyLe(a, b) && KeyLe(b, c)
    ensures KeyLe(a, c)
  {
    if a.symbol != b.symbol && b.symbol != c.symbol {
      StringLeTransitive(a.symbol, b.symbol, c.symbol);
      StringLeTotal(a.symbol, b.symbol);
    }
  }

  lemma KeyLeTotal(a: SymbolKey, b: SymbolKey)
    ensures KeyLe(a, b) || KeyLe(b, a)
  {
    StringLeTotal(a.symbol, b.symbol);
  }

  ghost predicate Sorted(keys: seq<SymbolKey>) {
    forall i, j | 0 <= i < j < |keys| :: KeyLe(keys[i], keys[j])
  }

  /** Puts a key into a sorted sequence, after everything it does not precede. */
  method Insert(keys: seq<SymbolKey>, k: SymbolKey) returns (out: seq<SymbolKey>)
    requires Sorted(keys) && Distinct(keys) && k !in keys
    ensures Sorted(out) && Distinct(out)
    ensures forall x :: x in out <==> x == k || x in keys
  {
    var at := |keys|;
    while at > 0 && !KeyLe(keys[at - 1], k)
      invariant 0 <= at <= |keys|
      invariant forall j | at <= j < |keys| :: KeyLe(k, keys[j])
    {
      KeyLeTotal(k, keys[at - 1]);
      at := at - 1;
    }
    forall i | 0 <= i < at ensures KeyLe(keys[i], k) {
      if i < at - 1 {
        KeyLeTransitive(keys[i], keys[at - 1], k);
      }
    }
    out := Inserted(keys, k, at);
    InsertedMembers(keys, k, at);
    InsertedDistinct(keys, k, at);
    InsertedInOrder(keys, k, at);
  }

  function Inserted(keys: seq<SymbolKey>, k: SymbolKey, at: nat): (out: seq<SymbolKey>)
    requires at <= |keys|
    ensures |out| == |keys| + 1
    ensures forall i | 0 <= i < |out| :: out[i] == if i < at then keys[i] else if i == at then k else keys[i - 1]
  {
    keys[..at] + [k] + keys[at..]
  }

  lemma InsertedMembers(keys: seq<SymbolKey>, k: SymbolKey, at: nat)
    requires at <= |keys|
    ensures forall x :: x in Inserted(keys, k, at) <==> x == k || x in keys
  {
    assert keys == keys[..at] + keys[at..];
  }

  lemma InsertedDistinct(keys: seq<SymbolKey>, k: SymbolKey, at: nat)
    requires at <= |keys| && Distinct(keys) && k !in keys
    ensures Distinct(Inserted(keys, k, at))
  {
  }

  lemma InsertedInOrder(keys: seq<SymbolKey>, k: SymbolKey, at: nat)
    requires at <= |keys| && Sorted(keys)
    requires forall i | 0 <= i < at :: KeyLe(keys[i], k)
    requires forall j | at <= j < |keys| :: KeyLe(k, keys[j])
    ensures Sorted(Inserted(keys, k, at))
  {
    var out := Inserted(keys, k, at);
    forall i, j | 0 <= i < j < |out| ensures KeyLe(out[i], out[j]) {
      if i != at && j != at {
        var x, y := if i < at then i else i - 1, if j < at then j else j - 1;
        assert KeyLe(keys[x], keys[y]);
      }
    }
  }

  method SortKeys(universe: set<SymbolKey>) returns (keys: seq<SymbolKey>)
    ensures Sorted(keys) && Distinct(keys)
    ensures forall k :: k in keys <==> k in universe
  {
    keys := [];
    var rest := universe;
    while rest != {}
      invariant rest <= universe && Sorted(keys) && Distinct(keys)
      invariant forall k :: k in keys <==> k in universe && k !in rest
    {
      var k :| k in rest;
      keys := Insert(keys, k);
      rest := rest - {k};
    }
  }
}
