/**
  * What the SemanticDB decoder makes of a message, told from its fields alone: a number or a string is the
  * last one with its field number, or zero or empty if there is none, and a repeated field is all of them in
  * order. Writers may leave out fields, repeat them, order them freely and add unknown ones.
  */
module SemanticdbFields {
  import opened Options
  import opened Words
  import opened Slices
  import opened ProtoWire
  import opened Semanticdb

  // ---------------------------------------------------------------------------
  // Every message that is read is a list of fields
  // ---------------------------------------------------------------------------

  ghost predicate AreFields(fs: seq<Field>) {
    forall i | 0 <= i < |fs| :: WellFormed(fs[i])
  }

  lemma {:induction false} FieldsAreWellFormed(fs: seq<Field>)
    ensures AllWellFormed(fs) <==> AreFields(fs)
  {
    if fs != [] {
      FieldsAreWellFormed(fs[1..]);
      if AllWellFormed(fs) {
        forall i | 0 <= i < |fs| ensures WellFormed(fs[i]) {
          assert i > 0 ==> fs[1..][i - 1] == fs[i];
        }
      }
      if AreFields(fs) {
        forall i | 0 <= i < |fs[1..]| ensures WellFormed(fs[1..][i]) {
          assert fs[1..][i] == fs[i + 1];
        }
      }
    }
  }

  /** The bytes are those of the fields. */
  ghost predicate Spells(s: seq<byte>, fs: seq<Field>) {
    AreFields(fs) && Wire(fs) == s
  }

  /** One field off the front of the bytes. */
  lemma {:induction false} NextIsField(known: Known, s: seq<byte>) returns (f: Field)
    requires Next(known, s).Ok?
    ensures WellFormed(f) && s == f.tag + Body(f) + Next(known, s).value.1
  {
    var (tag, rest) := Tag(s).value;
    TagShape(s);
    var raw := s[..|s| - |rest|];
    var num, wire := tag / 8, tag % 8;
    if wire == 0 && known(num, wire) {
      f := VarintValue(raw, num, rest);
    } else if wire == 2 && known(num, wire) {
      var len := PayloadShape(rest);
      f := LenField(raw, num, len, Payload(rest).value.0);
    } else {
      f := SkipSound(raw, wire, num, rest);
    }
    Assoc(f.tag, Body(f), Next(known, s).value.1);
  }

  lemma {:induction false} VarintValue(tag: seq<byte>, num: nat, s: seq<byte>) returns (f: Field)
    requires IsTag(tag, num, 0) && Varint(s).Ok?
    ensures WellFormed(f) && f.VarintField? && f.tag == tag && f.num == num
    ensures s == Body(f) + Varint(s).value.1
  {
    f := SkipSound(tag, 0, num, s);
  }

  lemma {:induction false} FoldIsOfFields<A>(known: Known, step: Step<A>, s: seq<byte>, acc: A) returns (fs: seq<Field>)
    requires Fold(known, step, s, acc).Ok?
    ensures Spells(s, fs)
    decreases |s|
  {
    if s == [] {
      return [];
    }
    var f := NextIsField(known, s);
    var (read, rest) := Next(known, s).value;
    var more: seq<Field>;
    if read.None? {
      more := FoldIsOfFields(known, step, rest, acc);
    } else {
      more := FoldIsOfFields(known, step, rest, step(acc, read.value.0, read.value.1).value);
    }
    WireCons(f, more);
    FieldsAreWellFormed(more);
    fs := [f] + more;
    FieldsAreWellFormed(fs);
  }

  // ---------------------------------------------------------------------------
  // Reading fields one after the other
  // ---------------------------------------------------------------------------

  function FoldOn<A>(known: Known, step: Step<A>, before: Result<A, WireError>, f: Field): Result<A, WireError>
    requires WellFormed(f)
  {
    if before.Ok? && Wanted(known, f) then step(before.value, f.num, ValueOf(f)) else before
  }

  ghost function FoldFields<A>(known: Known, step: Step<A>, fs: seq<Field>, acc: A): Result<A, WireError>
    requires AreFields(fs)
    decreases |fs|
  {
    if fs == [] then Ok(acc)
    else FoldOn(known, step, FoldFields(known, step, fs[..|fs| - 1], acc), fs[|fs| - 1])
  }

  lemma {:induction false} FoldFieldsFront<A>(known: Known, step: Step<A>, f: Field, fs: seq<Field>, acc: A)
    requires WellFormed(f) && AreFields(fs)
    ensures AreFields([f] + fs)
    ensures var first := FoldOn(known, step, Ok(acc), f);
            FoldFields(known, step, [f] + fs, acc) == if first.Err? then first else FoldFields(known, step, fs, first.value)
    decreases |fs|
  {
    var all := [f] + fs;
    if fs == [] {
      assert all[..0] == [] && all == [f];
    } else {
      assert all[..|all| - 1] == [f] + fs[..|fs| - 1];
      FoldFieldsFront(known, step, f, fs[..|fs| - 1], acc);
    }
  }

  lemma {:induction false} FoldIsFoldFields<A>(known: Known, step: Step<A>, fs: seq<Field>, acc: A)
    requires AreFields(fs)
    ensures Fold(known, step, Wire(fs), acc) == FoldFields(known, step, fs, acc)
    decreases |fs|
  {
    if fs != [] {
      var f, rest := fs[0], fs[1..];
      assert fs == [f] + rest;
      FoldFieldsFront(known, step, f, rest, acc);
      Assoc(f.tag, Body(f), Wire(rest));
      if Wanted(known, f) {
        FoldReads(known, step, f, Wire(rest), acc);
        var stepped := step(acc, f.num, ValueOf(f));
        if stepped.Ok? {
          FoldIsFoldFields(known, step, rest, stepped.value);
        }
      } else {
        FoldSkips(known, step, f, Wire(rest), acc);
        FoldIsFoldFields(known, step, rest, acc);
      }
    }
  }

  // ---------------------------------------------------------------------------
  // What fields say about one number
  // ---------------------------------------------------------------------------

  predicate IsNum(f: Field, num: nat) {
    f.VarintField? && f.num == num
  }

  predicate IsLen(f: Field, num: nat) {
    f.LenField? && f.num == num
  }

  /** The last of the elements that pass; none if none does. */
  ghost predicate IsLast(fs: seq<Field>, p: Field -> bool, i: nat) {
    i < |fs| && p(fs[i]) && forall j | i < j < |fs| :: !p(fs[j])
  }

  ghost predicate NoneOf(fs: seq<Field>, p: Field -> bool) {
    forall i | 0 <= i < |fs| :: !p(fs[i])
  }

  /** A value is what the last field that passes says, or the default. */
  ghost predicate LastSays<T(!new)>(fs: seq<Field>, p: Field -> bool, says: (Field, T) -> bool, zero: T, v: T) {
    || (NoneOf(fs, p) && v == zero)
    || (exists i: nat :: IsLast(fs, p, i) && says(fs[i], v))
  }

  lemma LastSaysNext<T(!new)>(fs: seq<Field>, p: Field -> bool, says: (Field, T) -> bool, zero: T, v: T, f: Field, w: T)
    requires LastSays(fs, p, says, zero, v) && if p(f) then says(f, w) else w == v
    ensures LastSays(fs + [f], p, says, zero, w)
  {
    var next := fs + [f];
    if p(f) {
      assert IsLast(next, p, |fs|);
    } else if !NoneOf(fs, p) {
      var i: nat :| IsLast(fs, p, i) && says(fs[i], v);
      assert IsLast(next, p, i) && next[i] == fs[i];
    }
  }

  /** There is only one such value, if a field says only one. */
  lemma LastSaysOnce<T(!new)>(fs: seq<Field>, p: Field -> bool, says: (Field, T) -> bool, zero: T, v: T, w: T)
    requires LastSays(fs, p, says, zero, v) && LastSays(fs, p, says, zero, w)
    requires forall f, x, y | says(f, x) && says(f, y) :: x == y
    ensures v == w
  {
    if !NoneOf(fs, p) {
      var i: nat :| IsLast(fs, p, i) && says(fs[i], v);
      var j: nat :| IsLast(fs, p, j) && says(fs[j], w);
      assert i == j;
    }
  }

  function Nums(num: nat): Field -> bool {
    (f: Field) => IsNum(f, num)
  }

  function Lens(num: nat): Field -> bool {
    (f: Field) => IsLen(f, num)
  }

  /** The low 32 bits of the varint, as a signed number. */
  predicate SaysInt(f: Field, v: int) {
    && f.VarintField? && Varint(f.raw).Ok?
    && -0x8000_0000 <= v < 0x8000_0000 && (v - Varint(f.raw).value.0) % 0x1_0000_0000 == 0
  }

  ghost predicate IntIs(fs: seq<Field>, num: nat, v: int) {
    LastSays<int>(fs, Nums(num), SaysInt, 0, v)
  }

  function SaysText(lossy: Lossy): (Field, Str) -> bool {
    (f: Field, s: Str) => f.LenField? && s == lossy(f.payload)
  }

  ghost predicate TextIs(lossy: Lossy, fs: seq<Field>, num: nat, s: Str) {
    LastSays(fs, Lens(num), SaysText(lossy), [], s)
  }

  lemma LowBits(v: u64)
    ensures -0x8000_0000 <= ToI32(v) < 0x8000_0000 && (ToI32(v) - v) % 0x1_0000_0000 == 0
  {
  }

  lemma {:induction false} NumSays(f: Field)
    requires WellFormed(f) && f.VarintField?
    ensures SaysInt(f, ToI32(Varint(f.raw).value.0))
  {
    LowBits(Varint(f.raw).value.0);
  }

  lemma {:induction false} IntNext(fs: seq<Field>, num: nat, v: int, f: Field, w: int)
    requires IntIs(fs, num, v) && if IsNum(f, num) then SaysInt(f, w) else w == v
    ensures IntIs(fs + [f], num, w)
  {
    LastSaysNext<int>(fs, Nums(num), SaysInt, 0, v, f, w);
  }

  lemma TextNext(lossy: Lossy, fs: seq<Field>, num: nat, s: Str, f: Field)
    requires TextIs(lossy, fs, num, s)
    ensures TextIs(lossy, fs + [f], num, if IsLen(f, num) then lossy(f.payload) else s)
  {
    LastSaysNext(fs, Lens(num), SaysText(lossy), [], s, f, if IsLen(f, num) then lossy(f.payload) else s);
  }

  lemma SameInt(f: Field, v: int, w: int)
    requires SaysInt(f, v) && SaysInt(f, w)
    ensures v == w
  {
    var n := Varint(f.raw).value.0;
    assert ((v - n) - (w - n)) % 0x1_0000_0000 == 0;
  }

  lemma IntOnce(fs: seq<Field>, num: nat, v: int, w: int)
    requires IntIs(fs, num, v) && IntIs(fs, num, w)
    ensures v == w
  {
    forall f, x: int, y: int | SaysInt(f, x) && SaysInt(f, y) ensures x == y {
      SameInt(f, x, y);
    }
    LastSaysOnce<int>(fs, Nums(num), SaysInt, 0, v, w);
  }

  lemma TextOnce(lossy: Lossy, fs: seq<Field>, num: nat, s: Str, t: Str)
    requires TextIs(lossy, fs, num, s) && TextIs(lossy, fs, num, t)
    ensures s == t
  {
    LastSaysOnce(fs, Lens(num), SaysText(lossy), [], s, t);
  }

  // ---------------------------------------------------------------------------
  // Ranges
  // ---------------------------------------------------------------------------

  ghost predicate RangeSays(fs: seq<Field>, r: SdbRange) {
    && IntIs(fs, 1, r.startLine) && IntIs(fs, 2, r.startCharacter)
    && IntIs(fs, 3, r.endLine) && IntIs(fs, 4, r.endCharacter)
  }

  lemma {:induction false} RangeStepSays(fs: seq<Field>, r: SdbRange, f: Field)
    requires RangeSays(fs, r) && WellFormed(f)
    ensures var next := FoldOn(RangeKnown, RangeStep, Ok(r), f); next.Ok? && RangeSays(fs + [f], next.value)
  {
    if Wanted(RangeKnown, f) {
      NumSays(f);
    }
    var v := FoldOn(RangeKnown, RangeStep, Ok(r), f).value;
    IntNext(fs, 1, r.startLine, f, v.startLine);
    IntNext(fs, 2, r.startCharacter, f, v.startCharacter);
    IntNext(fs, 3, r.endLine, f, v.endLine);
    IntNext(fs, 4, r.endCharacter, f, v.endCharacter);
  }

  lemma {:induction false} RangeFields(fs: seq<Field>)
    requires AreFields(fs)
    ensures var r := FoldFields(RangeKnown, RangeStep, fs, NO_RANGE); r.Ok? && RangeSays(fs, r.value)
    decreases |fs|
  {
    if fs != [] {
      var front, f := fs[..|fs| - 1], fs[|fs| - 1];
      RangeFields(front);
      RangeStepSays(front, FoldFields(RangeKnown, RangeStep, front, NO_RANGE).value, f);
      assert front + [f] == fs;
    }
  }

  lemma RangeOnce(fs: seq<Field>, r: SdbRange, t: SdbRange)
    requires RangeSays(fs, r) && RangeSays(fs, t)
    ensures r == t
  {
    IntOnce(fs, 1, r.startLine, t.startLine);
    IntOnce(fs, 2, r.startCharacter, t.startCharacter);
    IntOnce(fs, 3, r.endLine, t.endLine);
    IntOnce(fs, 4, r.endCharacter, t.endCharacter);
  }

  /** For every input: what a range message decodes to. */
  lemma {:induction false} RangeMeans(s: seq<byte>, r: SdbRange)
    ensures ParseRange(s) == Ok(r) <==> exists fs :: Spells(s, fs) && RangeSays(fs, r)
  {
    if ParseRange(s).Ok? {
      var fs := FoldIsOfFields(RangeKnown, RangeStep, s, NO_RANGE);
      RangeOfFields(s, fs);
    }
    forall fs | Spells(s, fs) && RangeSays(fs, r) ensures ParseRange(s) == Ok(r) {
      RangeOfFields(s, fs);
      RangeOnce(fs, r, ParseRange(s).value);
    }
  }

  lemma {:induction false} RangeOfFields(s: seq<byte>, fs: seq<Field>)
    requires Spells(s, fs)
    ensures ParseRange(s).Ok? && RangeSays(fs, ParseRange(s).value)
  {
    FoldIsFoldFields(RangeKnown, RangeStep, fs, NO_RANGE);
    RangeFields(fs);
  }

  // ---------------------------------------------------------------------------
  // Symbols
  // ---------------------------------------------------------------------------

  /** The texts of all fields with this number, in order. */
  function IsTextOf(lossy: Lossy): (Str, Field) -> bool {
    (s: Str, f: Field) => f.LenField? && s == lossy(f.payload)
  }

  ghost predicate SymbolSays(lossy: Lossy, fs: seq<Field>, i: SdbSymbolInfo) {
    && TextIs(lossy, fs, 1, i.symbol) && TextIs(lossy, fs, 5, i.displayName)
    && IntIs(fs, 3, i.kind) && IntIs(fs, 4, i.properties)
    && ListsPicked(i.overridden, fs, Lens(19), IsTextOf(lossy))
  }

  /** What one field makes of a symbol. */
  lemma {:induction false} SymbolPuts(lossy: Lossy, i: SdbSymbolInfo, f: Field)
    requires WellFormed(f)
    ensures var next := FoldOn(SymbolKnown, SymbolStep(lossy), Ok(i), f);
            && next.Ok?
            && next.value.symbol == (if IsLen(f, 1) then lossy(f.payload) else i.symbol)
            && next.value.displayName == (if IsLen(f, 5) then lossy(f.payload) else i.displayName)
            && next.value.overridden == (if IsLen(f, 19) then i.overridden + [lossy(f.payload)] else i.overridden)
  {
  }

  lemma {:induction false} SymbolStepSays(lossy: Lossy, fs: seq<Field>, i: SdbSymbolInfo, f: Field)
    requires SymbolSays(lossy, fs, i) && WellFormed(f)
    ensures var next := FoldOn(SymbolKnown, SymbolStep(lossy), Ok(i), f); next.Ok? && SymbolSays(lossy, fs + [f], next.value)
  {
    if f.VarintField? {
      NumSays(f);
    }
    SymbolPuts(lossy, i, f);
    var v := FoldOn(SymbolKnown, SymbolStep(lossy), Ok(i), f).value;
    TextNext(lossy, fs, 1, i.symbol, f);
    TextNext(lossy, fs, 5, i.displayName, f);
    IntNext(fs, 3, i.kind, f, v.kind);
    IntNext(fs, 4, i.properties, f, v.properties);
    var x := if f.LenField? then lossy(f.payload) else [];
    ListsPickedNext(i.overridden, fs, Lens(19), IsTextOf(lossy), f, x);
  }

  lemma {:induction false} SymbolFields(lossy: Lossy, fs: seq<Field>)
    requires AreFields(fs)
    ensures var i := FoldFields(SymbolKnown, SymbolStep(lossy), fs, NO_SYMBOL); i.Ok? && SymbolSays(lossy, fs, i.value)
    decreases |fs|
  {
    if fs == [] {
      NothingPicked(Lens(19), IsTextOf(lossy));
    } else {
      var front, f := fs[..|fs| - 1], fs[|fs| - 1];
      SymbolFields(lossy, front);
      SymbolStepSays(lossy, front, FoldFields(SymbolKnown, SymbolStep(lossy), front, NO_SYMBOL).value, f);
      assert front + [f] == fs;
    }
  }

  lemma SymbolOnce(lossy: Lossy, fs: seq<Field>, i: SdbSymbolInfo, j: SdbSymbolInfo)
    requires SymbolSays(lossy, fs, i) && SymbolSays(lossy, fs, j)
    ensures i == j
  {
    TextOnce(lossy, fs, 1, i.symbol, j.symbol);
    TextOnce(lossy, fs, 5, i.displayName, j.displayName);
    IntOnce(fs, 3, i.kind, j.kind);
    IntOnce(fs, 4, i.properties, j.properties);
    ListsPickedOnce(i.overridden, j.overridden, fs, Lens(19), IsTextOf(lossy));
  }

  lemma {:induction false} SymbolOfFields(lossy: Lossy, s: seq<byte>, fs: seq<Field>)
    requires Spells(s, fs)
    ensures ParseSymbol(lossy, s).Ok? && SymbolSays(lossy, fs, ParseSymbol(lossy, s).value)
  {
    FoldIsFoldFields(SymbolKnown, SymbolStep(lossy), fs, NO_SYMBOL);
    SymbolFields(lossy, fs);
  }

  /** For every input: what a symbol message decodes to. */
  lemma {:induction false} SymbolMeans(lossy: Lossy, s: seq<byte>, i: SdbSymbolInfo)
    ensures ParseSymbol(lossy, s) == Ok(i) <==> exists fs :: Spells(s, fs) && SymbolSays(lossy, fs, i)
  {
    if ParseSymbol(lossy, s).Ok? {
      var fs := FoldIsOfFields(SymbolKnown, SymbolStep(lossy), s, NO_SYMBOL);
      SymbolOfFields(lossy, s, fs);
    }
    forall fs | Spells(s, fs) && SymbolSays(lossy, fs, i) ensures ParseSymbol(lossy, s) == Ok(i) {
      SymbolOfFields(lossy, s, fs);
      SymbolOnce(lossy, fs, i, ParseSymbol(lossy, s).value);
    }
  }

  // ---------------------------------------------------------------------------
  // Occurrences
  // ---------------------------------------------------------------------------

  predicate SaysRange(f: Field, r: Option<SdbRange>) {
    f.LenField? && r.Some? && ParseRange(f.payload) == Ok(r.value)
  }

  /** Every field with this number holds a message that can be read. */
  ghost predicate AllRead(fs: seq<Field>, num: nat, read: seq<byte> -> bool) {
    forall i | 0 <= i < |fs| && IsLen(fs[i], num) :: read(fs[i].payload)
  }

  lemma AllReadNext(fs: seq<Field>, num: nat, read: seq<byte> -> bool, f: Field)
    requires AllRead(fs, num, read) && (IsLen(f, num) ==> read(f.payload))
    ensures AllRead(fs + [f], num, read)
  {
  }

  function IsRange(): seq<byte> -> bool {
    (b: seq<byte>) => ParseRange(b).Ok?
  }

  ghost predicate OccurrenceSays(lossy: Lossy, fs: seq<Field>, o: SdbOccurrence) {
    && AllRead(fs, 1, IsRange()) && LastSays(fs, Lens(1), SaysRange, None, o.range)
    && TextIs(lossy, fs, 2, o.symbol) && IntIs(fs, 3, o.role)
  }

  lemma {:induction false} OccurrenceStepSays(lossy: Lossy, fs: seq<Field>, o: SdbOccurrence, f: Field)
    requires OccurrenceSays(lossy, fs, o) && WellFormed(f)
    ensures var next := FoldOn(OccurrenceKnown, OccurrenceStep(lossy), Ok(o), f);
            (next.Ok? <==> AllRead(fs + [f], 1, IsRange())) && (next.Ok? ==> OccurrenceSays(lossy, fs + [f], next.value))
  {
    var next := FoldOn(OccurrenceKnown, OccurrenceStep(lossy), Ok(o), f);
    if next.Err? {
      assert (fs + [f])[|fs|] == f && IsLen(f, 1);
    } else {
      if f.VarintField? {
        NumSays(f);
      }
      AllReadNext(fs, 1, IsRange(), f);
      LastSaysNext(fs, Lens(1), SaysRange, None, o.range, f, next.value.range);
      TextNext(lossy, fs, 2, o.symbol, f);
      IntNext(fs, 3, o.role, f, next.value.role);
    }
  }

  lemma {:induction false} OccurrenceFields(lossy: Lossy, fs: seq<Field>)
    requires AreFields(fs)
    ensures var o := FoldFields(OccurrenceKnown, OccurrenceStep(lossy), fs, NO_OCCURRENCE);
            (o.Ok? <==> AllRead(fs, 1, IsRange())) && (o.Ok? ==> OccurrenceSays(lossy, fs, o.value))
    decreases |fs|
  {
    if fs != [] {
      var front, f := fs[..|fs| - 1], fs[|fs| - 1];
      OccurrenceFields(lossy, front);
      assert front + [f] == fs;
      var before := FoldFields(OccurrenceKnown, OccurrenceStep(lossy), front, NO_OCCURRENCE);
      if before.Ok? {
        OccurrenceStepSays(lossy, front, before.value, f);
      } else {
        var i :| 0 <= i < |front| && IsLen(front[i], 1) && !IsRange()(front[i].payload);
        assert fs[i] == front[i];
      }
    }
  }

  lemma OccurrenceOnce(lossy: Lossy, fs: seq<Field>, o: SdbOccurrence, p: SdbOccurrence)
    requires OccurrenceSays(lossy, fs, o) && OccurrenceSays(lossy, fs, p)
    ensures o == p
  {
    LastSaysOnce(fs, Lens(1), SaysRange, None, o.range, p.range);
    TextOnce(lossy, fs, 2, o.symbol, p.symbol);
    IntOnce(fs, 3, o.role, p.role);
  }

  lemma {:induction false} OccurrenceOfFields(lossy: Lossy, s: seq<byte>, fs: seq<Field>)
    requires Spells(s, fs)
    ensures ParseOccurrence(lossy, s).Ok? <==> AllRead(fs, 1, IsRange())
    ensures ParseOccurrence(lossy, s).Ok? ==> OccurrenceSays(lossy, fs, ParseOccurrence(lossy, s).value)
  {
    FoldIsFoldFields(OccurrenceKnown, OccurrenceStep(lossy), fs, NO_OCCURRENCE);
    OccurrenceFields(lossy, fs);
  }

  /** For every input: what an occurrence message decodes to. */
  lemma {:induction false} OccurrenceMeans(lossy: Lossy, s: seq<byte>, o: SdbOccurrence)
    ensures ParseOccurrence(lossy, s) == Ok(o) <==> exists fs :: Spells(s, fs) && OccurrenceSays(lossy, fs, o)
  {
    if ParseOccurrence(lossy, s).Ok? {
      var fs := FoldIsOfFields(OccurrenceKnown, OccurrenceStep(lossy), s, NO_OCCURRENCE);
      OccurrenceOfFields(lossy, s, fs);
    }
    forall fs | Spells(s, fs) && OccurrenceSays(lossy, fs, o) ensures ParseOccurrence(lossy, s) == Ok(o) {
      OccurrenceOfFields(lossy, s, fs);
      OccurrenceOnce(lossy, fs, o, ParseOccurrence(lossy, s).value);
    }
  }

  // ---------------------------------------------------------------------------
  // Documents
  // ---------------------------------------------------------------------------

  function IsSymbolOf(lossy: Lossy): (SdbSymbolInfo, Field) -> bool {
    (i: SdbSymbolInfo, f: Field) => f.LenField? && ParseSymbol(lossy, f.payload) == Ok(i)
  }

  function IsOccurrenceOf(lossy: Lossy): (SdbOccurrence, Field) -> bool {
    (o: SdbOccurrence, f: Field) => f.LenField? && ParseOccurrence(lossy, f.payload) == Ok(o)
  }

  function IsDocumentOf(lossy: Lossy): (SdbDocument, Field) -> bool {
    (d: SdbDocument, f: Field) => f.LenField? && ParseDocument(lossy, f.payload) == Ok(d)
  }

  function IsSymbol(lossy: Lossy): seq<byte> -> bool {
    (b: seq<byte>) => ParseSymbol(lossy, b).Ok?
  }

  function IsOccurrence(lossy: Lossy): seq<byte> -> bool {
    (b: seq<byte>) => ParseOccurrence(lossy, b).Ok?
  }

  function IsDocument(lossy: Lossy): seq<byte> -> bool {
    (b: seq<byte>) => ParseDocument(lossy, b).Ok?
  }

  ghost predicate NumbersSay(fs: seq<Field>, d: SdbDocument) {
    IntIs(fs, 1, d.schema) && IntIs(fs, 10, d.language)
  }

  ghost predicate TextsSay(lossy: Lossy, fs: seq<Field>, d: SdbDocument) {
    TextIs(lossy, fs, 2, d.uri) && TextIs(lossy, fs, 3, d.text) && TextIs(lossy, fs, 11, d.md5)
  }

  /** The lists are all symbols and all occurrences, in order. */
  ghost predicate RepeatedSay(lossy: Lossy, fs: seq<Field>, d: SdbDocument) {
    && ListsPicked(d.symbols, fs, Lens(5), IsSymbolOf(lossy))
    && ListsPicked(d.occurrences, fs, Lens(6), IsOccurrenceOf(lossy))
  }

  ghost predicate DocumentSays(lossy: Lossy, fs: seq<Field>, d: SdbDocument) {
    NumbersSay(fs, d) && TextsSay(lossy, fs, d) && RepeatedSay(lossy, fs, d)
  }

  ghost predicate DocumentReads(lossy: Lossy, fs: seq<Field>) {
    AllRead(fs, 5, IsSymbol(lossy)) && AllRead(fs, 6, IsOccurrence(lossy))
  }

  lemma {:induction false} NumbersNext(lossy: Lossy, fs: seq<Field>, d: SdbDocument, f: Field, e: SdbDocument)
    requires NumbersSay(fs, d) && WellFormed(f) && FoldOn(DocumentKnown, DocumentStep(lossy), Ok(d), f) == Ok(e)
    ensures NumbersSay(fs + [f], e)
  {
    if f.VarintField? {
      NumSays(f);
    }
    IntNext(fs, 1, d.schema, f, e.schema);
    IntNext(fs, 10, d.language, f, e.language);
  }

  /** What a field makes of the texts. */
  lemma {:induction false} TextsPut(lossy: Lossy, d: SdbDocument, f: Field, e: SdbDocument)
    requires WellFormed(f) && FoldOn(DocumentKnown, DocumentStep(lossy), Ok(d), f) == Ok(e)
    ensures && e.uri == (if IsLen(f, 2) then lossy(f.payload) else d.uri)
            && e.text == (if IsLen(f, 3) then lossy(f.payload) else d.text)
            && e.md5 == (if IsLen(f, 11) then lossy(f.payload) else d.md5)
  {
  }

  lemma {:induction false} TextsNext(lossy: Lossy, fs: seq<Field>, d: SdbDocument, f: Field, e: SdbDocument)
    requires TextsSay(lossy, fs, d) && WellFormed(f) && FoldOn(DocumentKnown, DocumentStep(lossy), Ok(d), f) == Ok(e)
    ensures TextsSay(lossy, fs + [f], e)
  {
    TextsPut(lossy, d, f, e);
    TextNext(lossy, fs, 2, d.uri, f);
    TextNext(lossy, fs, 3, d.text, f);
    TextNext(lossy, fs, 11, d.md5, f);
  }

  /** What a field makes of the lists. */
  lemma {:induction false} RepeatedPut(lossy: Lossy, d: SdbDocument, f: Field, e: SdbDocument)
    requires WellFormed(f) && FoldOn(DocumentKnown, DocumentStep(lossy), Ok(d), f) == Ok(e)
    ensures var i, o := if f.LenField? then ParseSymbol(lossy, f.payload) else Ok(NO_SYMBOL),
                        if f.LenField? then ParseOccurrence(lossy, f.payload) else Ok(NO_OCCURRENCE);
            && (if IsLen(f, 5) then i.Ok? && e.symbols == d.symbols + [i.value] else e.symbols == d.symbols)
            && (if IsLen(f, 6) then o.Ok? && e.occurrences == d.occurrences + [o.value] else e.occurrences == d.occurrences)
  {
  }

  lemma {:induction false} RepeatedNext(lossy: Lossy, fs: seq<Field>, d: SdbDocument, f: Field, e: SdbDocument)
    requires RepeatedSay(lossy, fs, d) && WellFormed(f) && FoldOn(DocumentKnown, DocumentStep(lossy), Ok(d), f) == Ok(e)
    ensures RepeatedSay(lossy, fs + [f], e)
  {
    RepeatedPut(lossy, d, f, e);
    var i := if IsLen(f, 5) then ParseSymbol(lossy, f.payload).value else NO_SYMBOL;
    var o := if IsLen(f, 6) then ParseOccurrence(lossy, f.payload).value else NO_OCCURRENCE;
    ListsPickedNext(d.symbols, fs, Lens(5), IsSymbolOf(lossy), f, i);
    ListsPickedNext(d.occurrences, fs, Lens(6), IsOccurrenceOf(lossy), f, o);
  }

  lemma {:induction false} DocumentReadsNext(lossy: Lossy, fs: seq<Field>, d: SdbDocument, f: Field)
    requires DocumentReads(lossy, fs) && WellFormed(f)
    ensures FoldOn(DocumentKnown, DocumentStep(lossy), Ok(d), f).Ok? <==> DocumentReads(lossy, fs + [f])
  {
    if FoldOn(DocumentKnown, DocumentStep(lossy), Ok(d), f).Ok? {
      AllReadNext(fs, 5, IsSymbol(lossy), f);
      AllReadNext(fs, 6, IsOccurrence(lossy), f);
    } else {
      assert (fs + [f])[|fs|] == f && (IsLen(f, 5) || IsLen(f, 6));
    }
  }

  lemma AllReadBefore(fs: seq<Field>, num: nat, read: seq<byte> -> bool, f: Field)
    requires AllRead(fs + [f], num, read)
    ensures AllRead(fs, num, read)
  {
    forall i | 0 <= i < |fs| && IsLen(fs[i], num) ensures read(fs[i].payload) {
      assert (fs + [f])[i] == fs[i];
    }
  }

  ghost predicate DocumentGives(lossy: Lossy, fs: seq<Field>, d: Result<SdbDocument, WireError>) {
    (d.Ok? <==> DocumentReads(lossy, fs)) && (d.Ok? ==> DocumentSays(lossy, fs, d.value))
  }

  lemma {:induction false} DocumentNext(lossy: Lossy, fs: seq<Field>, d: Result<SdbDocument, WireError>, f: Field)
    requires DocumentGives(lossy, fs, d) && WellFormed(f)
    ensures DocumentGives(lossy, fs + [f], FoldOn(DocumentKnown, DocumentStep(lossy), d, f))
  {
    if d.Ok? {
      DocumentReadsNext(lossy, fs, d.value, f);
      var after := FoldOn(DocumentKnown, DocumentStep(lossy), d, f);
      if after.Ok? {
        NumbersNext(lossy, fs, d.value, f, after.value);
        TextsNext(lossy, fs, d.value, f, after.value);
        RepeatedNext(lossy, fs, d.value, f, after.value);
      }
    } else if DocumentReads(lossy, fs + [f]) {
      AllReadBefore(fs, 5, IsSymbol(lossy), f);
      AllReadBefore(fs, 6, IsOccurrence(lossy), f);
    }
  }

  lemma {:induction false} DocumentFields(lossy: Lossy, fs: seq<Field>)
    requires AreFields(fs)
    ensures DocumentGives(lossy, fs, FoldFields(DocumentKnown, DocumentStep(lossy), fs, NO_DOCUMENT))
    decreases |fs|
  {
    if fs == [] {
      NothingPicked(Lens(5), IsSymbolOf(lossy));
      NothingPicked(Lens(6), IsOccurrenceOf(lossy));
    } else {
      var front, f := fs[..|fs| - 1], fs[|fs| - 1];
      DocumentFields(lossy, front);
      assert front + [f] == fs;
      DocumentNext(lossy, front, FoldFields(DocumentKnown, DocumentStep(lossy), front, NO_DOCUMENT), f);
    }
  }

  lemma DocumentOnce(lossy: Lossy, fs: seq<Field>, d: SdbDocument, e: SdbDocument)
    requires DocumentSays(lossy, fs, d) && DocumentSays(lossy, fs, e)
    ensures d == e
  {
    IntOnce(fs, 1, d.schema, e.schema);
    IntOnce(fs, 10, d.language, e.language);
    TextOnce(lossy, fs, 2, d.uri, e.uri);
    TextOnce(lossy, fs, 3, d.text, e.text);
    TextOnce(lossy, fs, 11, d.md5, e.md5);
    ListsPickedOnce(d.symbols, e.symbols, fs, Lens(5), IsSymbolOf(lossy));
    ListsPickedOnce(d.occurrences, e.occurrences, fs, Lens(6), IsOccurrenceOf(lossy));
  }

  /** A document that the fields tell of has only messages that can be read. */
  lemma RepeatedRead(lossy: Lossy, fs: seq<Field>, d: SdbDocument)
    requires RepeatedSay(lossy, fs, d)
    ensures DocumentReads(lossy, fs)
  {
    forall k | 0 <= k < |fs| && IsLen(fs[k], 5) ensures IsSymbol(lossy)(fs[k].payload) {
      PickedSaysOfEach(d.symbols, fs, Lens(5), IsSymbolOf(lossy), k);
    }
    forall k | 0 <= k < |fs| && IsLen(fs[k], 6) ensures IsOccurrence(lossy)(fs[k].payload) {
      PickedSaysOfEach(d.occurrences, fs, Lens(6), IsOccurrenceOf(lossy), k);
    }
  }

  lemma {:induction false} DocumentOfFields(lossy: Lossy, s: seq<byte>, fs: seq<Field>)
    requires Spells(s, fs)
    ensures ParseDocument(lossy, s).Ok? <==> DocumentReads(lossy, fs)
    ensures ParseDocument(lossy, s).Ok? ==> DocumentSays(lossy, fs, ParseDocument(lossy, s).value)
  {
    FoldIsFoldFields(DocumentKnown, DocumentStep(lossy), fs, NO_DOCUMENT);
    DocumentFields(lossy, fs);
  }

  /** For every input: what a document message decodes to. */
  lemma {:induction false} DocumentMeans(lossy: Lossy, s: seq<byte>, d: SdbDocument)
    ensures ParseDocument(lossy, s) == Ok(d) <==> exists fs :: Spells(s, fs) && DocumentSays(lossy, fs, d)
  {
    if ParseDocument(lossy, s).Ok? {
      var fs := FoldIsOfFields(DocumentKnown, DocumentStep(lossy), s, NO_DOCUMENT);
      DocumentOfFields(lossy, s, fs);
    }
    forall fs | Spells(s, fs) && DocumentSays(lossy, fs, d) ensures ParseDocument(lossy, s) == Ok(d) {
      DocumentOfFields(lossy, s, fs);
      RepeatedRead(lossy, fs, d);
      DocumentOnce(lossy, fs, d, ParseDocument(lossy, s).value);
    }
  }

  // ---------------------------------------------------------------------------
  // The payload of a file
  // ---------------------------------------------------------------------------

  ghost predicate PayloadSays(lossy: Lossy, fs: seq<Field>, ds: seq<SdbDocument>) {
    ListsPicked(ds, fs, Lens(1), IsDocumentOf(lossy))
  }

  ghost predicate PayloadGives(lossy: Lossy, fs: seq<Field>, ds: Result<seq<SdbDocument>, WireError>) {
    (ds.Ok? <==> AllRead(fs, 1, IsDocument(lossy))) && (ds.Ok? ==> PayloadSays(lossy, fs, ds.value))
  }

  lemma {:induction false} PayloadNext(lossy: Lossy, fs: seq<Field>, ds: Result<seq<SdbDocument>, WireError>, f: Field)
    requires PayloadGives(lossy, fs, ds) && WellFormed(f)
    ensures PayloadGives(lossy, fs + [f], FoldOn(DocumentsKnown, DocumentsStep(lossy), ds, f))
  {
    var next := FoldOn(DocumentsKnown, DocumentsStep(lossy), ds, f);
    if ds.Err? {
      if AllRead(fs + [f], 1, IsDocument(lossy)) {
        AllReadBefore(fs, 1, IsDocument(lossy), f);
      }
    } else if next.Ok? {
      AllReadNext(fs, 1, IsDocument(lossy), f);
      var d := if IsLen(f, 1) then ParseDocument(lossy, f.payload).value else NO_DOCUMENT;
      ListsPickedNext(ds.value, fs, Lens(1), IsDocumentOf(lossy), f, d);
    } else {
      assert (fs + [f])[|fs|] == f && IsLen(f, 1);
    }
  }

  lemma {:induction false} PayloadFields(lossy: Lossy, fs: seq<Field>)
    requires AreFields(fs)
    ensures PayloadGives(lossy, fs, FoldFields(DocumentsKnown, DocumentsStep(lossy), fs, []))
    decreases |fs|
  {
    if fs == [] {
      NothingPicked(Lens(1), IsDocumentOf(lossy));
    } else {
      var front, f := fs[..|fs| - 1], fs[|fs| - 1];
      PayloadFields(lossy, front);
      assert front + [f] == fs;
      PayloadNext(lossy, front, FoldFields(DocumentsKnown, DocumentsStep(lossy), front, []), f);
    }
  }

  lemma PayloadReads(lossy: Lossy, fs: seq<Field>, ds: seq<SdbDocument>)
    requires PayloadSays(lossy, fs, ds)
    ensures AllRead(fs, 1, IsDocument(lossy))
  {
    forall k | 0 <= k < |fs| && IsLen(fs[k], 1) ensures IsDocument(lossy)(fs[k].payload) {
      PickedSaysOfEach(ds, fs, Lens(1), IsDocumentOf(lossy), k);
    }
  }

  lemma {:induction false} PayloadOfFields(lossy: Lossy, s: seq<byte>, fs: seq<Field>)
    requires Spells(s, fs)
    ensures ParseDocuments(lossy, s).Ok? <==> AllRead(fs, 1, IsDocument(lossy))
    ensures ParseDocuments(lossy, s).Ok? ==> PayloadSays(lossy, fs, ParseDocuments(lossy, s).value)
  {
    FoldIsFoldFields(DocumentsKnown, DocumentsStep(lossy), fs, []);
    PayloadFields(lossy, fs);
  }

  /** For every input: what the payload of a file decodes to. */
  lemma {:induction false} DocumentsMeans(lossy: Lossy, s: seq<byte>, ds: seq<SdbDocument>)
    ensures ParseDocuments(lossy, s) == Ok(ds) <==> exists fs :: Spells(s, fs) && PayloadSays(lossy, fs, ds)
  {
    if ParseDocuments(lossy, s).Ok? {
      var fs := FoldIsOfFields(DocumentsKnown, DocumentsStep(lossy), s, []);
      PayloadOfFields(lossy, s, fs);
    }
    forall fs | Spells(s, fs) && PayloadSays(lossy, fs, ds) ensures ParseDocuments(lossy, s) == Ok(ds) {
      PayloadOfFields(lossy, s, fs);
      PayloadReads(lossy, fs, ds);
      ListsPickedOnce(ds, ParseDocuments(lossy, s).value, fs, Lens(1), IsDocumentOf(lossy));
    }
  }

  /** A decoding gives exactly the documents that the fields tell of. */
  ghost predicate Decodes(lossy: Lossy, s: seq<byte>, r: Result<seq<SdbDocument>, WireError>) {
    forall ds :: r == Ok(ds) <==> exists fs :: Spells(s, fs) && PayloadSays(lossy, fs, ds)
  }

  lemma ParsedDecodes(lossy: Lossy, s: seq<byte>)
    ensures Decodes(lossy, s, ParseDocuments(lossy, s))
  {
    forall ds ensures ParseDocuments(lossy, s) == Ok(ds) <==> exists fs :: Spells(s, fs) && PayloadSays(lossy, fs, ds) {
      DocumentsMeans(lossy, s, ds);
    }
  }
}
