/**
  * The SemanticDB messages on the protobuf wire: the hand-written decoder of the index and the
  * encoder of the benchmark crate, which is its inverse.
  *
  * Strings are their UTF-8 bytes. What the decoder makes of bytes that are not UTF-8 is a parameter: it
  * replaces invalid sequences and never fails. Field numbers are those of semanticdb.proto.
  */
module Semanticdb {
  import opened Options
  import opened Words
  import opened ProtoWire

  datatype SdbRange = SdbRange(startLine: i32, startCharacter: i32, endLine: i32, endCharacter: i32)

  datatype SdbSymbolInfo = SdbSymbolInfo(symbol: Str, kind: i32, properties: i32, displayName: Str, overridden: seq<Str>)

  datatype SdbOccurrence = SdbOccurrence(range: Option<SdbRange>, symbol: Str, role: i32)

  datatype SdbDocument = SdbDocument(schema: i32, uri: Str, text: Str, md5: Str, language: i32,
                                     symbols: seq<SdbSymbolInfo>, occurrences: seq<SdbOccurrence>)

  /** A 64-bit number cut down to its low 32 bits, read as signed. */
  function ToI32(v: u64): i32 {
    var low := v % 0x1_0000_0000;
    if low < 0x8000_0000 then low else low - 0x1_0000_0000
  }

  /** Sign extension to 64 bits. */
  function ToU64(v: i32): u64 {
    if v < 0 then v + TWO64 else v
  }

  lemma SignRoundTrip(v: i32)
    ensures ToI32(ToU64(v)) == v
  {
    assert TWO64 == 0x1_0000_0000 * 0x1_0000_0000;
  }

  // ---------------------------------------------------------------------------
  // Reading a message: a loop over its fields
  // ---------------------------------------------------------------------------

  datatype Value = Num(v: u64) | Blob(bytes: seq<byte>)

  /** Which (field, wire type) pairs a message reads; everything else is skipped. */
  type Known = (nat, nat) -> bool

  type Step<!A> = (A, nat, Value) -> Result<A, WireError>

  /** The value after a tag, if the message reads it; nothing if it is skipped. */
  function ReadValue(known: Known, field: nat, wire: nat, s: seq<byte>): (r: Read<Option<(nat, Value)>>)
    ensures r.Ok? ==> |r.value.1| < |s|
  {
    if wire == 0 && known(field, wire) then
      var (v, rest) :- Varint(s);
      Ok((Some((field, Num(v))), rest))
    else if wire == 2 && known(field, wire) then
      var (payload, rest) :- Payload(s);
      Ok((Some((field, Blob(payload))), rest))
    else
      var rest :- Skip(wire, field, s);
      Ok((None, rest))
  }

  /** One field off the front. */
  function Next(known: Known, s: seq<byte>): (r: Read<Option<(nat, Value)>>)
    ensures r.Ok? ==> |r.value.1| < |s|
  {
    var (tag, rest) :- Tag(s);
    ReadValue(known, tag / 8, tag % 8, rest)
  }

  function Fold<A>(known: Known, step: Step<A>, s: seq<byte>, acc: A): Result<A, WireError>
    decreases |s|
  {
    if s == [] then Ok(acc)
    else
      match Next(known, s)
      case Err(e) => Err(e)
      case Ok((None, rest)) => Fold(known, step, rest, acc)
      case Ok((Some((field, v)), rest)) =>
        var stepped := step(acc, field, v);
        if stepped.Err? then stepped else Fold(known, step, rest, stepped.value)
  }

  function AndThen<A>(known: Known, step: Step<A>, rest: seq<byte>, stepped: Result<A, WireError>): Result<A, WireError> {
    if stepped.Err? then stepped else Fold(known, step, rest, stepped.value)
  }

  predicate Wanted(known: Known, f: Field) {
    (f.VarintField? || f.LenField?) && known(f.num, WireType(f))
  }

  function ValueOf(f: Field): Value
    requires WellFormed(f) && (f.VarintField? || f.LenField?)
  {
    if f.VarintField? then Num(Varint(f.raw).value.0) else Blob(f.payload)
  }

  lemma NextAfterTag(known: Known, tag: seq<byte>, num: nat, wire: nat, s: seq<byte>)
    requires IsTag(tag, num, wire)
    ensures Next(known, tag + s) == ReadValue(known, num, wire, s) && tag + s != []
  {
    TagLocal(tag, num, wire, s);
  }

  lemma ReadSkips(known: Known, num: nat, wire: nat, s: seq<byte>, rest: seq<byte>)
    requires Skip(wire, num, s) == Ok(rest) && !((wire == 0 || wire == 2) && known(num, wire))
    ensures ReadValue(known, num, wire, s) == Ok((None, rest))
  {
  }

  lemma NextSkips(known: Known, f: Field, rest: seq<byte>)
    requires WellFormed(f) && !Wanted(known, f)
    ensures Next(known, f.tag + (Body(f) + rest)) == Ok((None, rest)) && f.tag + (Body(f) + rest) != []
  {
    NextAfterTag(known, f.tag, f.num, WireType(f), Body(f) + rest);
    SkipExact(f, rest);
    ReadSkips(known, f.num, WireType(f), Body(f) + rest, rest);
  }

  lemma ReadWanted(known: Known, f: Field, rest: seq<byte>)
    requires WellFormed(f) && Wanted(known, f)
    ensures ReadValue(known, f.num, WireType(f), Body(f) + rest) == Ok((Some((f.num, ValueOf(f))), rest))
  {
    if f.VarintField? {
      VarintLocal(f.raw, rest);
      Nothing(rest);
    } else {
      PayloadLocal(f.len, f.payload, rest);
    }
  }

  lemma NextReads(known: Known, f: Field, rest: seq<byte>)
    requires WellFormed(f) && Wanted(known, f)
    ensures Next(known, f.tag + (Body(f) + rest)) == Ok((Some((f.num, ValueOf(f))), rest)) && f.tag + (Body(f) + rest) != []
  {
    NextAfterTag(known, f.tag, f.num, WireType(f), Body(f) + rest);
    ReadWanted(known, f, rest);
  }

  lemma FoldSkips<A>(known: Known, step: Step<A>, f: Field, rest: seq<byte>, acc: A)
    requires WellFormed(f) && !Wanted(known, f)
    ensures Fold(known, step, f.tag + (Body(f) + rest), acc) == Fold(known, step, rest, acc)
  {
    NextSkips(known, f, rest);
  }

  lemma FoldReads<A>(known: Known, step: Step<A>, f: Field, rest: seq<byte>, acc: A)
    requires WellFormed(f) && Wanted(known, f)
    ensures Fold(known, step, f.tag + (Body(f) + rest), acc) == AndThen(known, step, rest, step(acc, f.num, ValueOf(f)))
  {
    NextReads(known, f, rest);
  }

  function OnlyWanted(known: Known, fs: seq<Field>): seq<Field> {
    if fs == [] then []
    else if Wanted(known, fs[0]) then [fs[0]] + OnlyWanted(known, fs[1..])
    else OnlyWanted(known, fs[1..])
  }

  /** Unknown fields, wherever they are inserted between the fields of a message, never change what is parsed. */
  lemma {:induction false} UnknownFieldsAreIgnored<A>(known: Known, step: Step<A>, fs: seq<Field>, acc: A)
    requires AllWellFormed(fs)
    ensures Fold(known, step, Wire(fs), acc) == Fold(known, step, Wire(OnlyWanted(known, fs)), acc)
  {
    if fs != [] {
      var f, rest := fs[0], fs[1..];
      Assoc(f.tag, Body(f), Wire(rest));
      if Wanted(known, f) {
        var kept := OnlyWanted(known, rest);
        WireCons(f, kept);
        Assoc(f.tag, Body(f), Wire(kept));
        FoldReads(known, step, f, Wire(rest), acc);
        FoldReads(known, step, f, Wire(kept), acc);
        var stepped := step(acc, f.num, ValueOf(f));
        if stepped.Ok? {
          UnknownFieldsAreIgnored(known, step, rest, stepped.value);
        }
      } else {
        FoldSkips(known, step, f, Wire(rest), acc);
        UnknownFieldsAreIgnored(known, step, rest, acc);
      }
    }
  }

  // ---------------------------------------------------------------------------
  // The five messages
  // ---------------------------------------------------------------------------

  /** How bytes become a string; the identity on valid UTF-8. */
  type Lossy = seq<byte> -> Str

  const NO_RANGE := SdbRange(0, 0, 0, 0)
  const NO_SYMBOL := SdbSymbolInfo([], 0, 0, [], [])
  const NO_OCCURRENCE := SdbOccurrence(None, [], 0)
  const NO_DOCUMENT := SdbDocument(0, [], [], [], 0, [], [])

  predicate RangeKnown(field: nat, wire: nat) {
    wire == 0 && 1 <= field <= 4
  }

  function RangeStep(r: SdbRange, field: nat, v: Value): Result<SdbRange, WireError> {
    match (field, v)
    case (1, Num(n)) => Ok(r.(startLine := ToI32(n)))
    case (2, Num(n)) => Ok(r.(startCharacter := ToI32(n)))
    case (3, Num(n)) => Ok(r.(endLine := ToI32(n)))
    case (4, Num(n)) => Ok(r.(endCharacter := ToI32(n)))
    case _ => Ok(r)
  }

  function ParseRange(s: seq<byte>): Result<SdbRange, WireError> {
    Fold(RangeKnown, RangeStep, s, NO_RANGE)
  }

  predicate SymbolKnown(field: nat, wire: nat) {
    (wire == 2 && (field == 1 || field == 5 || field == 19)) || (wire == 0 && (field == 3 || field == 4))
  }

  function SymbolPut(lossy: Lossy, i: SdbSymbolInfo, field: nat, v: Value): Result<SdbSymbolInfo, WireError> {
    match (field, v)
    case (1, Blob(b)) => Ok(i.(symbol := lossy(b)))
    case (3, Num(n)) => Ok(i.(kind := ToI32(n)))
    case (4, Num(n)) => Ok(i.(properties := ToI32(n)))
    case (5, Blob(b)) => Ok(i.(displayName := lossy(b)))
    case (19, Blob(b)) => Ok(i.(overridden := i.overridden + [lossy(b)]))
    case _ => Ok(i)
  }

  function SymbolStep(lossy: Lossy): Step<SdbSymbolInfo> {
    (i: SdbSymbolInfo, field: nat, v: Value) => SymbolPut(lossy, i, field, v)
  }

  function ParseSymbol(lossy: Lossy, s: seq<byte>): Result<SdbSymbolInfo, WireError> {
    Fold(SymbolKnown, SymbolStep(lossy), s, NO_SYMBOL)
  }

  predicate OccurrenceKnown(field: nat, wire: nat) {
    (wire == 2 && (field == 1 || field == 2)) || (wire == 0 && field == 3)
  }

  function OccurrencePut(lossy: Lossy, o: SdbOccurrence, field: nat, v: Value): Result<SdbOccurrence, WireError> {
    match (field, v)
    case (1, Blob(b)) => var r :- ParseRange(b); Ok(o.(range := Some(r)))
    case (2, Blob(b)) => Ok(o.(symbol := lossy(b)))
    case (3, Num(n)) => Ok(o.(role := ToI32(n)))
    case _ => Ok(o)
  }

  function OccurrenceStep(lossy: Lossy): Step<SdbOccurrence> {
    (o: SdbOccurrence, field: nat, v: Value) => OccurrencePut(lossy, o, field, v)
  }

  function ParseOccurrence(lossy: Lossy, s: seq<byte>): Result<SdbOccurrence, WireError> {
    Fold(OccurrenceKnown, OccurrenceStep(lossy), s, NO_OCCURRENCE)
  }

  predicate DocumentKnown(field: nat, wire: nat) {
    (wire == 0 && (field == 1 || field == 10))
    || (wire == 2 && (field == 2 || field == 3 || field == 5 || field == 6 || field == 11))
  }

  function DocumentPut(lossy: Lossy, d: SdbDocument, field: nat, v: Value): Result<SdbDocument, WireError> {
    match (field, v)
    case (1, Num(n)) => Ok(d.(schema := ToI32(n)))
    case (2, Blob(b)) => Ok(d.(uri := lossy(b)))
    case (3, Blob(b)) => Ok(d.(text := lossy(b)))
    case (11, Blob(b)) => Ok(d.(md5 := lossy(b)))
    case (10, Num(n)) => Ok(d.(language := ToI32(n)))
    case (5, Blob(b)) => var i :- ParseSymbol(lossy, b); Ok(d.(symbols := d.symbols + [i]))
    case (6, Blob(b)) => var o :- ParseOccurrence(lossy, b); Ok(d.(occurrences := d.occurrences + [o]))
    case _ => Ok(d)
  }

  function DocumentStep(lossy: Lossy): Step<SdbDocument> {
    (d: SdbDocument, field: nat, v: Value) => DocumentPut(lossy, d, field, v)
  }

  function ParseDocument(lossy: Lossy, s: seq<byte>): Result<SdbDocument, WireError> {
    Fold(DocumentKnown, DocumentStep(lossy), s, NO_DOCUMENT)
  }

  predicate DocumentsKnown(field: nat, wire: nat) {
    field == 1 && wire == 2
  }

  function DocumentsPut(lossy: Lossy, ds: seq<SdbDocument>, field: nat, v: Value): Result<seq<SdbDocument>, WireError> {
    if v.Num? then Ok(ds) else var d :- ParseDocument(lossy, v.bytes); Ok(ds + [d])
  }

  function DocumentsStep(lossy: Lossy): Step<seq<SdbDocument>> {
    (ds: seq<SdbDocument>, field: nat, v: Value) => DocumentsPut(lossy, ds, field, v)
  }

  function ParseDocuments(lossy: Lossy, s: seq<byte>): Result<seq<SdbDocument>, WireError> {
    Fold(DocumentsKnown, DocumentsStep(lossy), s, [])
  }

  // ---------------------------------------------------------------------------
  // Encoding
  // ---------------------------------------------------------------------------

  function EncTag(field: nat, wire: nat): seq<byte> {
    EncodeVarint(8 * field + wire)
  }

  function EncNum(field: nat, v: u64): seq<byte> {
    EncTag(field, 0) + EncodeVarint(v)
  }

  function EncBytes(field: nat, data: seq<byte>): seq<byte> {
    EncTag(field, 2) + EncodeVarint(|data|) + data
  }

  function EncInt(field: nat, v: i32): seq<byte> {
    EncNum(field, ToU64(v))
  }

  function EncRange(r: SdbRange): seq<byte> {
    EncInt(1, r.startLine) + (EncInt(2, r.startCharacter) + (EncInt(3, r.endLine) + EncInt(4, r.endCharacter)))
  }

  /** A repeated field: one length-delimited entry per element. */
  function EncList<T>(field: nat, enc: T -> seq<byte>, xs: seq<T>): seq<byte> {
    if xs == [] then [] else EncBytes(field, enc(xs[0])) + EncList(field, enc, xs[1..])
  }

  function EncStr(s: Str): seq<byte> {
    s
  }

  function EncSymbol(i: SdbSymbolInfo): seq<byte> {
    EncBytes(1, i.symbol) + (EncInt(3, i.kind) + (EncInt(4, i.properties) +
    (EncBytes(5, i.displayName) + EncList(19, EncStr, i.overridden))))
  }

  function EncOccurrence(o: SdbOccurrence): seq<byte> {
    (if o.range.Some? then EncBytes(1, EncRange(o.range.value)) else []) + (EncBytes(2, o.symbol) + EncInt(3, o.role))
  }

  function EncDocument(d: SdbDocument): seq<byte> {
    EncInt(1, d.schema) + (EncBytes(2, d.uri) + (EncBytes(3, d.text) + (EncBytes(11, d.md5) +
    (EncInt(10, d.language) + (EncList(5, EncSymbol, d.symbols) + EncList(6, EncOccurrence, d.occurrences))))))
  }

  function EncDocuments(ds: seq<SdbDocument>): seq<byte> {
    EncList(1, EncDocument, ds)
  }

  // ---------------------------------------------------------------------------
  // Decoding what was encoded
  // ---------------------------------------------------------------------------

  lemma TagIsTag(field: nat, wire: nat)
    requires 1 <= field <= 0xffff && wire < 8
    ensures IsTag(EncTag(field, wire), field, wire)
  {
    VarintRoundTrip(8 * field + wire, []);
    assert EncTag(field, wire) + [] == EncTag(field, wire);
  }

  lemma EncodedIsVarint(v: u64)
    ensures IsVarint(EncodeVarint(v), v)
  {
    VarintRoundTrip(v, []);
    assert EncodeVarint(v) + [] == EncodeVarint(v);
  }

  lemma FoldNum<A>(known: Known, step: Step<A>, field: nat, v: u64, rest: seq<byte>, acc: A, next: A)
    requires 1 <= field <= 0xffff && known(field, 0) && step(acc, field, Num(v)) == Ok(next)
    ensures Fold(known, step, EncNum(field, v) + rest, acc) == Fold(known, step, rest, next)
  {
    TagIsTag(field, 0);
    EncodedIsVarint(v);
    var f := VarintField(EncTag(field, 0), field, EncodeVarint(v));
    Assoc(f.tag, f.raw, rest);
    FoldReads(known, step, f, rest, acc);
  }

  lemma FoldBytes<A>(known: Known, step: Step<A>, field: nat, data: seq<byte>, rest: seq<byte>, acc: A, next: A)
    requires 1 <= field <= 0xffff && known(field, 2) && |data| < TWO64 && step(acc, field, Blob(data)) == Ok(next)
    ensures Fold(known, step, EncBytes(field, data) + rest, acc) == Fold(known, step, rest, next)
  {
    TagIsTag(field, 2);
    EncodedIsVarint(|data|);
    var f := LenField(EncTag(field, 2), field, EncodeVarint(|data|), data);
    Assoc(f.tag, f.len, data);
    Assoc(f.tag, Body(f), rest);
    FoldReads(known, step, f, rest, acc);
  }

  function RangePut(r: SdbRange, field: nat, v: i32): SdbRange {
    match field
    case 1 => r.(startLine := v)
    case 2 => r.(startCharacter := v)
    case 3 => r.(endLine := v)
    case _ => r.(endCharacter := v)
  }

  lemma RangeNum(field: nat, n: u64, rest: seq<byte>, r: SdbRange)
    requires 1 <= field <= 4
    ensures Fold(RangeKnown, RangeStep, EncNum(field, n) + rest, r) ==
            Fold(RangeKnown, RangeStep, rest, RangePut(r, field, ToI32(n)))
  {
    FoldNum(RangeKnown, RangeStep, field, n, rest, r, RangePut(r, field, ToI32(n)));
  }

  lemma RangeInt(field: nat, v: i32, rest: seq<byte>, r: SdbRange)
    requires 1 <= field <= 4
    ensures Fold(RangeKnown, RangeStep, EncInt(field, v) + rest, r) ==
            Fold(RangeKnown, RangeStep, rest, RangePut(r, field, v))
  {
    RangeNum(field, ToU64(v), rest, r);
    SignRoundTrip(v);
  }

  lemma RangeRoundTrip(r: SdbRange)
    ensures ParseRange(EncRange(r)) == Ok(r)
  {
    var s4 := EncInt(4, r.endCharacter);
    var s3 := EncInt(3, r.endLine) + s4;
    var s2 := EncInt(2, r.startCharacter) + s3;
    var r1 := NO_RANGE.(startLine := r.startLine);
    var r2 := r1.(startCharacter := r.startCharacter);
    var r3 := r2.(endLine := r.endLine);
    RangeInt(1, r.startLine, s2, NO_RANGE);
    RangeInt(2, r.startCharacter, s3, r1);
    RangeInt(3, r.endLine, s4, r2);
    RangeInt(4, r.endCharacter, [], r3);
    assert s4 + [] == s4;
  }

  lemma {:induction false} EncListBound<T>(field: nat, enc: T -> seq<byte>, xs: seq<T>)
    ensures forall x | x in xs :: |enc(x)| <= |EncList(field, enc, xs)|
  {
    if xs != [] {
      EncListBound(field, enc, xs[1..]);
    }
  }

  /** Reading the encoding of `x` takes the message with the elements `l` to the one with `x` appended. */
  ghost predicate AppendsOne<A(!new), T(!new)>(step: Step<A>, field: nat, enc: T -> seq<byte>, at: seq<T> -> A, l: seq<T>, x: T) {
    step(at(l), field, Blob(enc(x))) == Ok(at(l + [x]))
  }

  ghost predicate Appends<A(!new), T(!new)>(step: Step<A>, field: nat, enc: T -> seq<byte>, at: seq<T> -> A, xs: seq<T>) {
    forall l: seq<T>, x: T | x in xs :: AppendsOne(step, field, enc, at, l, x)
  }

  ghost predicate AllShort<T(!new)>(enc: T -> seq<byte>, xs: seq<T>) {
    forall x | x in xs :: |enc(x)| < TWO64
  }

  lemma FoldOne<A(!new), T(!new)>(known: Known, step: Step<A>, field: nat, enc: T -> seq<byte>, at: seq<T> -> A,
                                  done: seq<T>, x: T, more: seq<byte>)
    requires 1 <= field <= 0xffff && known(field, 2) && |enc(x)| < TWO64 && AppendsOne(step, field, enc, at, done, x)
    ensures Fold(known, step, EncBytes(field, enc(x)) + more, at(done)) == Fold(known, step, more, at(done + [x]))
  {
    FoldBytes(known, step, field, enc(x), more, at(done), at(done + [x]));
  }

  /** Reading a repeated field appends its elements in order. `at` is the message with the elements so far. */
  lemma {:induction false} FoldList<A(!new), T(!new)>(known: Known, step: Step<A>, field: nat, enc: T -> seq<byte>,
                                                      at: seq<T> -> A, done: seq<T>, xs: seq<T>, rest: seq<byte>)
    requires 1 <= field <= 0xffff && known(field, 2) && AllShort(enc, xs) && Appends(step, field, enc, at, xs)
    ensures Fold(known, step, EncList(field, enc, xs) + rest, at(done)) == Fold(known, step, rest, at(done + xs))
    decreases |xs|
  {
    if xs == [] {
      assert done + [] == done;
      Nothing(rest);
    } else {
      var x, more := xs[0], EncList(field, enc, xs[1..]);
      assert done + [x] + xs[1..] == done + xs;
      Assoc(EncBytes(field, enc(x)), more, rest);
      assert AppendsOne(step, field, enc, at, done, x);
      FoldOne(known, step, field, enc, at, done, x, more + rest);
      FoldList(known, step, field, enc, at, done + [x], xs[1..], rest);
    }
  }

  lemma FoldLastList<A(!new), T(!new)>(known: Known, step: Step<A>, field: nat, enc: T -> seq<byte>, at: seq<T> -> A, xs: seq<T>)
    requires 1 <= field <= 0xffff && known(field, 2) && AllShort(enc, xs) && Appends(step, field, enc, at, xs)
    ensures Fold(known, step, EncList(field, enc, xs), at([])) == Ok(at(xs))
  {
    FoldList(known, step, field, enc, at, [], xs, []);
    assert EncList(field, enc, xs) + [] == EncList(field, enc, xs) && [] + xs == xs;
  }

  // ---------------------------------------------------------------------------
  // What comes back: the same message with every string repaired
  // ---------------------------------------------------------------------------

  function Mapped<A, B>(f: A -> B, xs: seq<A>): (ys: seq<B>)
    ensures |ys| == |xs| && forall i | 0 <= i < |xs| :: ys[i] == f(xs[i])
  {
    seq(|xs|, i requires 0 <= i < |xs| => f(xs[i]))
  }

  lemma MappedNext<A, B>(f: A -> B, xs: seq<A>, x: A)
    ensures Mapped(f, xs + [x]) == Mapped(f, xs) + [f(x)]
  {
  }

  lemma MappedSame<A>(f: A -> A, xs: seq<A>)
    requires forall x | x in xs :: f(x) == x
    ensures Mapped(f, xs) == xs
  {
    forall i | 0 <= i < |xs| ensures f(xs[i]) == xs[i] {
      assert xs[i] in xs;
    }
  }

  function RepairSymbol(lossy: Lossy): SdbSymbolInfo -> SdbSymbolInfo {
    (i: SdbSymbolInfo) =>
      i.(symbol := lossy(i.symbol), displayName := lossy(i.displayName), overridden := Mapped(lossy, i.overridden))
  }

  function RepairOccurrence(lossy: Lossy): SdbOccurrence -> SdbOccurrence {
    (o: SdbOccurrence) => o.(symbol := lossy(o.symbol))
  }

  function RepairDocument(lossy: Lossy): SdbDocument -> SdbDocument {
    (d: SdbDocument) =>
      d.(uri := lossy(d.uri), text := lossy(d.text), md5 := lossy(d.md5),
         symbols := Mapped(RepairSymbol(lossy), d.symbols), occurrences := Mapped(RepairOccurrence(lossy), d.occurrences))
  }

  /** Every string of the document is valid: it is read as it is. */
  ghost predicate ValidStrings(lossy: Lossy, d: SdbDocument) {
    && lossy(d.uri) == d.uri && lossy(d.text) == d.text && lossy(d.md5) == d.md5
    && (forall i | i in d.symbols ::
          lossy(i.symbol) == i.symbol && lossy(i.displayName) == i.displayName && forall o | o in i.overridden :: lossy(o) == o)
    && (forall o | o in d.occurrences :: lossy(o.symbol) == o.symbol)
  }

  lemma ValidIsKept(lossy: Lossy, d: SdbDocument)
    requires ValidStrings(lossy, d)
    ensures RepairDocument(lossy)(d) == d
  {
    forall i | i in d.symbols ensures RepairSymbol(lossy)(i) == i {
      MappedSame(lossy, i.overridden);
    }
    MappedSame(RepairSymbol(lossy), d.symbols);
    MappedSame(RepairOccurrence(lossy), d.occurrences);
  }

  lemma SymbolTail(lossy: Lossy, i: SdbSymbolInfo)
    requires |EncList(19, EncStr, i.overridden)| < TWO64
    ensures Fold(SymbolKnown, SymbolStep(lossy), EncList(19, EncStr, i.overridden), i.(overridden := []))
            == Ok(i.(overridden := Mapped(lossy, i.overridden)))
  {
    EncListBound(19, EncStr, i.overridden);
    var at := (l: seq<Str>) => i.(overridden := Mapped(lossy, l));
    forall l: seq<Str>, x: Str ensures AppendsOne(SymbolStep(lossy), 19, EncStr, at, l, x) {
      MappedNext(lossy, l, x);
    }
    FoldLastList(SymbolKnown, SymbolStep(lossy), 19, EncStr, at, i.overridden);
    assert Mapped(lossy, []) == [];
  }

  lemma SymbolHead(lossy: Lossy, symbol: Str, kind: i32, rest: seq<byte>)
    requires |symbol| < TWO64
    ensures Fold(SymbolKnown, SymbolStep(lossy), EncBytes(1, symbol) + (EncInt(3, kind) + rest), NO_SYMBOL) ==
            Fold(SymbolKnown, SymbolStep(lossy), rest, NO_SYMBOL.(symbol := lossy(symbol), kind := kind))
  {
    SignRoundTrip(kind);
    var i := NO_SYMBOL.(symbol := lossy(symbol));
    FoldBytes(SymbolKnown, SymbolStep(lossy), 1, symbol, EncInt(3, kind) + rest, NO_SYMBOL, i);
    FoldNum(SymbolKnown, SymbolStep(lossy), 3, ToU64(kind), rest, i, i.(kind := kind));
  }

  lemma SymbolRoundTrip(lossy: Lossy, i: SdbSymbolInfo)
    requires |EncSymbol(i)| < TWO64
    ensures ParseSymbol(lossy, EncSymbol(i)) == Ok(RepairSymbol(lossy)(i))
  {
    SignRoundTrip(i.properties);
    var s5 := EncList(19, EncStr, i.overridden);
    var s4 := EncBytes(5, i.displayName) + s5;
    var i2 := NO_SYMBOL.(symbol := lossy(i.symbol), kind := i.kind);
    var i3 := i2.(properties := i.properties);
    SymbolHead(lossy, i.symbol, i.kind, EncInt(4, i.properties) + s4);
    FoldNum(SymbolKnown, SymbolStep(lossy), 4, ToU64(i.properties), s4, i2, i3);
    FoldBytes(SymbolKnown, SymbolStep(lossy), 5, i.displayName, s5, i3, i3.(displayName := lossy(i.displayName)));
    SymbolTail(lossy, i3.(displayName := lossy(i.displayName), overridden := i.overridden));
  }

  lemma OccurrenceRoundTrip(lossy: Lossy, o: SdbOccurrence)
    requires |EncOccurrence(o)| < TWO64
    ensures ParseOccurrence(lossy, EncOccurrence(o)) == Ok(RepairOccurrence(lossy)(o))
  {
    SignRoundTrip(o.role);
    var s3 := EncInt(3, o.role);
    var s2 := EncBytes(2, o.symbol) + s3;
    var o1 := NO_OCCURRENCE.(range := o.range);
    var o2 := o1.(symbol := lossy(o.symbol));
    if o.range.Some? {
      RangeRoundTrip(o.range.value);
      FoldBytes(OccurrenceKnown, OccurrenceStep(lossy), 1, EncRange(o.range.value), s2, NO_OCCURRENCE, o1);
    } else {
      Nothing(s2);
    }
    FoldBytes(OccurrenceKnown, OccurrenceStep(lossy), 2, o.symbol, s3, o1, o2);
    FoldNum(OccurrenceKnown, OccurrenceStep(lossy), 3, ToU64(o.role), [], o2, o2.(role := o.role));
    assert s3 + [] == s3;
  }

  lemma StepSymbol(lossy: Lossy, d: SdbDocument, b: seq<byte>, x: SdbSymbolInfo)
    requires ParseSymbol(lossy, b) == Ok(x)
    ensures DocumentStep(lossy)(d, 5, Blob(b)) == Ok(d.(symbols := d.symbols + [x]))
  {
  }

  lemma StepOccurrence(lossy: Lossy, d: SdbDocument, b: seq<byte>, x: SdbOccurrence)
    requires ParseOccurrence(lossy, b) == Ok(x)
    ensures DocumentStep(lossy)(d, 6, Blob(b)) == Ok(d.(occurrences := d.occurrences + [x]))
  {
  }

  lemma DocumentSymbols(lossy: Lossy, d: SdbDocument, symbols: seq<SdbSymbolInfo>, rest: seq<byte>)
    requires |EncList(5, EncSymbol, symbols)| < TWO64 && d.symbols == []
    ensures Fold(DocumentKnown, DocumentStep(lossy), EncList(5, EncSymbol, symbols) + rest, d) ==
            Fold(DocumentKnown, DocumentStep(lossy), rest, d.(symbols := Mapped(RepairSymbol(lossy), symbols)))
  {
    EncListBound(5, EncSymbol, symbols);
    var repair := RepairSymbol(lossy);
    var at := (l: seq<SdbSymbolInfo>) => d.(symbols := Mapped(repair, l));
    forall l: seq<SdbSymbolInfo>, x | x in symbols ensures AppendsOne(DocumentStep(lossy), 5, EncSymbol, at, l, x) {
      SymbolRoundTrip(lossy, x);
      StepSymbol(lossy, at(l), EncSymbol(x), repair(x));
      MappedNext(repair, l, x);
    }
    assert Mapped(repair, []) == [] && [] + symbols == symbols;
    FoldList(DocumentKnown, DocumentStep(lossy), 5, EncSymbol, at, [], symbols, rest);
  }

  lemma DocumentOccurrences(lossy: Lossy, d: SdbDocument, occurrences: seq<SdbOccurrence>)
    requires |EncList(6, EncOccurrence, occurrences)| < TWO64 && d.occurrences == []
    ensures Fold(DocumentKnown, DocumentStep(lossy), EncList(6, EncOccurrence, occurrences), d)
            == Ok(d.(occurrences := Mapped(RepairOccurrence(lossy), occurrences)))
  {
    EncListBound(6, EncOccurrence, occurrences);
    var repair := RepairOccurrence(lossy);
    var at := (l: seq<SdbOccurrence>) => d.(occurrences := Mapped(repair, l));
    forall l: seq<SdbOccurrence>, x | x in occurrences ensures AppendsOne(DocumentStep(lossy), 6, EncOccurrence, at, l, x) {
      OccurrenceRoundTrip(lossy, x);
      StepOccurrence(lossy, at(l), EncOccurrence(x), repair(x));
      MappedNext(repair, l, x);
    }
    assert Mapped(repair, []) == [];
    FoldLastList(DocumentKnown, DocumentStep(lossy), 6, EncOccurrence, at, occurrences);
  }

  lemma DocumentInt(lossy: Lossy, field: nat, v: i32, rest: seq<byte>, d: SdbDocument)
    requires field == 1 || field == 10
    ensures Fold(DocumentKnown, DocumentStep(lossy), EncInt(field, v) + rest, d) ==
            Fold(DocumentKnown, DocumentStep(lossy), rest, if field == 1 then d.(schema := v) else d.(language := v))
  {
    DocumentNum(lossy, field, ToU64(v), rest, d);
    SignRoundTrip(v);
  }

  lemma DocumentNum(lossy: Lossy, field: nat, n: u64, rest: seq<byte>, d: SdbDocument)
    requires field == 1 || field == 10
    ensures Fold(DocumentKnown, DocumentStep(lossy), EncNum(field, n) + rest, d) ==
            Fold(DocumentKnown, DocumentStep(lossy), rest,
                 if field == 1 then d.(schema := ToI32(n)) else d.(language := ToI32(n)))
  {
    FoldNum(DocumentKnown, DocumentStep(lossy), field, n, rest, d,
            if field == 1 then d.(schema := ToI32(n)) else d.(language := ToI32(n)));
  }

  lemma DocumentStr(lossy: Lossy, field: nat, s: Str, rest: seq<byte>, d: SdbDocument)
    requires (field == 2 || field == 3 || field == 11) && |s| < TWO64
    ensures Fold(DocumentKnown, DocumentStep(lossy), EncBytes(field, s) + rest, d) ==
            Fold(DocumentKnown, DocumentStep(lossy), rest,
                 if field == 2 then d.(uri := lossy(s)) else if field == 3 then d.(text := lossy(s)) else d.(md5 := lossy(s)))
  {
    FoldBytes(DocumentKnown, DocumentStep(lossy), field, s, rest, d,
              if field == 2 then d.(uri := lossy(s)) else if field == 3 then d.(text := lossy(s)) else d.(md5 := lossy(s)));
  }

  lemma DocumentRoundTrip(lossy: Lossy, d: SdbDocument)
    requires |EncDocument(d)| < TWO64
    ensures ParseDocument(lossy, EncDocument(d)) == Ok(RepairDocument(lossy)(d))
  {
    var s7 := EncList(6, EncOccurrence, d.occurrences);
    var s6 := EncList(5, EncSymbol, d.symbols) + s7;
    var s5 := EncInt(10, d.language) + s6;
    var s4 := EncBytes(11, d.md5) + s5;
    var s3 := EncBytes(3, d.text) + s4;
    var s2 := EncBytes(2, d.uri) + s3;
    var d1 := NO_DOCUMENT.(schema := d.schema);
    var d2 := d1.(uri := lossy(d.uri));
    var d3 := d2.(text := lossy(d.text));
    var d4 := d3.(md5 := lossy(d.md5));
    var d5 := d4.(language := d.language);
    DocumentInt(lossy, 1, d.schema, s2, NO_DOCUMENT);
    DocumentStr(lossy, 2, d.uri, s3, d1);
    DocumentStr(lossy, 3, d.text, s4, d2);
    DocumentStr(lossy, 11, d.md5, s5, d3);
    DocumentInt(lossy, 10, d.language, s6, d4);
    DocumentSymbols(lossy, d5, d.symbols, s7);
    DocumentOccurrences(lossy, d5.(symbols := Mapped(RepairSymbol(lossy), d.symbols)), d.occurrences);
  }

  lemma StepDocument(lossy: Lossy, ds: seq<SdbDocument>, b: seq<byte>, d: SdbDocument)
    requires ParseDocument(lossy, b) == Ok(d)
    ensures DocumentsStep(lossy)(ds, 1, Blob(b)) == Ok(ds + [d])
  {
  }

  /** Decoding the encoding of any documents gives them back with their strings repaired; documents with
      valid strings come back as they are. The encoding must have a 64-bit length. */
  lemma DocumentsRoundTrip(lossy: Lossy, ds: seq<SdbDocument>)
    requires |EncDocuments(ds)| < TWO64
    ensures ParseDocuments(lossy, EncDocuments(ds)) == Ok(Mapped(RepairDocument(lossy), ds))
    ensures (forall d | d in ds :: ValidStrings(lossy, d)) ==> ParseDocuments(lossy, EncDocuments(ds)) == Ok(ds)
  {
    EncListBound(1, EncDocument, ds);
    var repair := RepairDocument(lossy);
    var at := (l: seq<SdbDocument>) => Mapped(repair, l);
    forall l: seq<SdbDocument>, x | x in ds ensures AppendsOne(DocumentsStep(lossy), 1, EncDocument, at, l, x) {
      DocumentRoundTrip(lossy, x);
      StepDocument(lossy, at(l), EncDocument(x), repair(x));
      MappedNext(repair, l, x);
    }
    assert Mapped(repair, []) == [];
    FoldLastList(DocumentsKnown, DocumentsStep(lossy), 1, EncDocument, at, ds);
    if forall d | d in ds :: ValidStrings(lossy, d) {
      forall d | d in ds ensures repair(d) == d {
        ValidIsKept(lossy, d);
      }
      MappedSame(repair, ds);
    }
  }

  lemma {:induction false} EncodedLength(v: nat, n: nat)
    requires 1 <= n <= 10 && v < Capacity(10 - n) && (n > 1 ==> Capacity(11 - n) <= v)
    ensures |EncodeVarint(v)| == n
    decreases n
  {
    if n == 1 {
      assert Capacity(9) == 0x80;
    } else {
      assert n > 2 ==> Capacity(11 - n) == 0x80 * Capacity(12 - n);
      assert n == 2 ==> Capacity(11 - n) == 0x80;
      EncodedLength(v / 0x80, n - 1);
    }
  }

  /** A negative int32 is a ten-byte varint. */
  lemma NegativeTakesTenBytes(v: i32)
    requires v < 0
    ensures |EncodeVarint(ToU64(v))| == 10
  {
    assert Capacity(8) == 0x80 * 0x80;
    assert Capacity(6) == 0x80 * 0x80 * Capacity(8);
    assert Capacity(4) == 0x80 * 0x80 * Capacity(6);
    assert Capacity(2) == 0x80 * 0x80 * Capacity(4);
    assert Capacity(0) == 0x80 * 0x80 * Capacity(2);
    assert Capacity(1) == 0x8000_0000_0000_0000;
    EncodedLength(ToU64(v), 10);
  }
}
