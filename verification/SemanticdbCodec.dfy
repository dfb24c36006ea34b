/**
  * The decoder and the encoder as the program runs them: loops over a reader that moves its cursor,
  * and a writer that appends bytes. Each is tied to the message functions of `Semanticdb`.
  */
module SemanticdbCodec {
  import opened Options
  import opened Words
  import opened ProtoWire
  import opened Semanticdb
  import opened SemanticdbFields

  // ---------------------------------------------------------------------------
  // Decoding
  // ---------------------------------------------------------------------------

  /** The loop step: one tag, then one value or one skipped field. */
  lemma Unfold<A>(known: Known, step: Step<A>, s: seq<byte>, acc: A)
    requires s != []
    ensures match Tag(s)
            case Err(e) => Fold(known, step, s, acc) == Err(e)
            case Ok((tag, rest)) =>
              match ReadValue(known, tag / 8, tag % 8, rest)
              case Err(e) => Fold(known, step, s, acc) == Err(e)
              case Ok((None, after)) => Fold(known, step, s, acc) == Fold(known, step, after, acc)
              case Ok((Some((field, v)), after)) =>
                Fold(known, step, s, acc) == AndThen(known, step, after, step(acc, field, v))
  {
  }

  method ReadInt32(r: ProtoReader) returns (res: Result<i32, WireError>)
    requires r.Valid()
    modifies r
    ensures r.Valid()
    ensures match Varint(old(r.Remaining()))
            case Ok((v, rest)) => res == Ok(ToI32(v)) && r.Remaining() == rest
            case Err(e) => res == Err(e)
  {
    var v :- r.ReadVarint();
    return Ok(ToI32(v));
  }

  /** Invalid UTF-8 is replaced, never refused. */
  method ReadString(r: ProtoReader, lossy: Lossy) returns (res: Result<Str, WireError>)
    requires r.Valid()
    modifies r
    ensures r.Valid()
    ensures match Payload(old(r.Remaining()))
            case Ok((payload, rest)) => res == Ok(lossy(payload)) && r.Remaining() == rest
            case Err(e) => res == Err(e)
  {
    var b :- r.ReadBlob();
    return Ok(lossy(b));
  }

  /** What reading the value after a tag does to a message and to the reader. */
  ghost predicate Applies<A(!new)>(res: Result<A, WireError>, remaining: seq<byte>, step: Step<A>, x: A,
                                   read: Read<Option<(nat, Value)>>) {
    match read
    case Err(e) => res == Err(e)
    case Ok((None, after)) => res == Ok(x) && remaining == after
    case Ok((Some((field, v)), after)) => res == step(x, field, v) && (res.Ok? ==> remaining == after)
  }

  method RangeField(r: ProtoReader, x: SdbRange, field: nat, wire: nat) returns (res: Result<SdbRange, WireError>)
    requires r.Valid()
    modifies r
    ensures r.Valid()
    ensures Applies(res, r.Remaining(), RangeStep, x, ReadValue(RangeKnown, field, wire, old(r.Remaining())))
  {
    if field == 1 && wire == 0 {
      var v :- ReadInt32(r);
      return Ok(x.(startLine := v));
    } else if field == 2 && wire == 0 {
      var v :- ReadInt32(r);
      return Ok(x.(startCharacter := v));
    } else if field == 3 && wire == 0 {
      var v :- ReadInt32(r);
      return Ok(x.(endLine := v));
    } else if field == 4 && wire == 0 {
      var v :- ReadInt32(r);
      return Ok(x.(endCharacter := v));
    } else {
      var _ :- r.SkipField(wire, field);
      return Ok(x);
    }
  }

  method DecodeRange(r: ProtoReader) returns (res: Result<SdbRange, WireError>)
    requires r.Valid()
    modifies r
    ensures res == ParseRange(old(r.Remaining()))
  {
    var x := NO_RANGE;
    ghost var s := r.Remaining();
    ghost var expected := ParseRange(s);
    while r.pos < r.end
      invariant r.Valid() && s == r.Remaining()
      invariant Fold(RangeKnown, RangeStep, s, x) == expected
      decreases |s|
    {
      Unfold(RangeKnown, RangeStep, s, x);
      var tag :- r.ReadTag();
      x :- RangeField(r, x, tag / 8, tag % 8);
      s := r.Remaining();
    }
    return Ok(x);
  }

  method SymbolField(r: ProtoReader, lossy: Lossy, x: SdbSymbolInfo, field: nat, wire: nat) returns (res: Result<SdbSymbolInfo, WireError>)
    requires r.Valid()
    modifies r
    ensures r.Valid()
    ensures Applies(res, r.Remaining(), SymbolStep(lossy), x, ReadValue(SymbolKnown, field, wire, old(r.Remaining())))
  {
    if field == 1 && wire == 2 {
      var b :- ReadString(r, lossy);
      return Ok(x.(symbol := b));
    } else if field == 3 && wire == 0 {
      var v :- ReadInt32(r);
      return Ok(x.(kind := v));
    } else if field == 4 && wire == 0 {
      var v :- ReadInt32(r);
      return Ok(x.(properties := v));
    } else if field == 5 && wire == 2 {
      var b :- ReadString(r, lossy);
      return Ok(x.(displayName := b));
    } else if field == 19 && wire == 2 {
      var b :- ReadString(r, lossy);
      return Ok(x.(overridden := x.overridden + [b]));
    } else {
      var _ :- r.SkipField(wire, field);
      return Ok(x);
    }
  }

  method DecodeSymbol(r: ProtoReader, lossy: Lossy) returns (res: Result<SdbSymbolInfo, WireError>)
    requires r.Valid()
    modifies r
    ensures res == ParseSymbol(lossy, old(r.Remaining()))
  {
    var x := NO_SYMBOL;
    ghost var s := r.Remaining();
    ghost var expected := ParseSymbol(lossy, s);
    while r.pos < r.end
      invariant r.Valid() && s == r.Remaining()
      invariant Fold(SymbolKnown, SymbolStep(lossy), s, x) == expected
      decreases |s|
    {
      Unfold(SymbolKnown, SymbolStep(lossy), s, x);
      var tag :- r.ReadTag();
      x :- SymbolField(r, lossy, x, tag / 8, tag % 8);
      s := r.Remaining();
    }
    return Ok(x);
  }

  method OccurrenceField(r: ProtoReader, lossy: Lossy, x: SdbOccurrence, field: nat, wire: nat) returns (res: Result<SdbOccurrence, WireError>)
    requires r.Valid()
    modifies r
    ensures r.Valid()
    ensures Applies(res, r.Remaining(), OccurrenceStep(lossy), x, ReadValue(OccurrenceKnown, field, wire, old(r.Remaining())))
  {
    if field == 1 && wire == 2 {
      var nested :- r.ReadMessage();
      var range :- DecodeRange(nested);
      return Ok(x.(range := Some(range)));
    } else if field == 2 && wire == 2 {
      var b :- ReadString(r, lossy);
      return Ok(x.(symbol := b));
    } else if field == 3 && wire == 0 {
      var v :- ReadInt32(r);
      return Ok(x.(role := v));
    } else {
      var _ :- r.SkipField(wire, field);
      return Ok(x);
    }
  }

  method DecodeOccurrence(r: ProtoReader, lossy: Lossy) returns (res: Result<SdbOccurrence, WireError>)
    requires r.Valid()
    modifies r
    ensures res == ParseOccurrence(lossy, old(r.Remaining()))
  {
    var x := NO_OCCURRENCE;
    ghost var s := r.Remaining();
    ghost var expected := ParseOccurrence(lossy, s);
    while r.pos < r.end
      invariant r.Valid() && s == r.Remaining()
      invariant Fold(OccurrenceKnown, OccurrenceStep(lossy), s, x) == expected
      decreases |s|
    {
      Unfold(OccurrenceKnown, OccurrenceStep(lossy), s, x);
      var tag :- r.ReadTag();
      x :- OccurrenceField(r, lossy, x, tag / 8, tag % 8);
      s := r.Remaining();
    }
    return Ok(x);
  }

  method DocumentText(r: ProtoReader, lossy: Lossy, x: SdbDocument, field: nat) returns (res: Result<SdbDocument, WireError>)
    requires r.Valid() && (field == 2 || field == 3 || field == 11)
    modifies r
    ensures r.Valid()
    ensures Applies(res, r.Remaining(), DocumentStep(lossy), x, ReadValue(DocumentKnown, field, 2, old(r.Remaining())))
  {
    var b :- ReadString(r, lossy);
    return Ok(if field == 2 then x.(uri := b) else if field == 3 then x.(text := b) else x.(md5 := b));
  }

  method DocumentSymbolEntry(r: ProtoReader, lossy: Lossy, x: SdbDocument) returns (res: Result<SdbDocument, WireError>)
    requires r.Valid()
    modifies r
    ensures r.Valid()
    ensures Applies(res, r.Remaining(), DocumentStep(lossy), x, ReadValue(DocumentKnown, 5, 2, old(r.Remaining())))
  {
    var nested :- r.ReadMessage();
    ghost var payload := nested.Remaining();
    var info :- DecodeSymbol(nested, lossy);
    StepSymbol(lossy, x, payload, info);
    return Ok(x.(symbols := x.symbols + [info]));
  }

  method DocumentOccurrenceEntry(r: ProtoReader, lossy: Lossy, x: SdbDocument) returns (res: Result<SdbDocument, WireError>)
    requires r.Valid()
    modifies r
    ensures r.Valid()
    ensures Applies(res, r.Remaining(), DocumentStep(lossy), x, ReadValue(DocumentKnown, 6, 2, old(r.Remaining())))
  {
    var nested :- r.ReadMessage();
    ghost var payload := nested.Remaining();
    var occ :- DecodeOccurrence(nested, lossy);
    StepOccurrence(lossy, x, payload, occ);
    return Ok(x.(occurrences := x.occurrences + [occ]));
  }

  method DocumentField(r: ProtoReader, lossy: Lossy, x: SdbDocument, field: nat, wire: nat) returns (res: Result<SdbDocument, WireError>)
    requires r.Valid()
    modifies r
    ensures r.Valid()
    ensures Applies(res, r.Remaining(), DocumentStep(lossy), x, ReadValue(DocumentKnown, field, wire, old(r.Remaining())))
  {
    if field == 1 && wire == 0 {
      var v :- ReadInt32(r);
      return Ok(x.(schema := v));
    } else if wire == 2 && (field == 2 || field == 3 || field == 11) {
      res := DocumentText(r, lossy, x, field);
    } else if field == 10 && wire == 0 {
      var v :- ReadInt32(r);
      return Ok(x.(language := v));
    } else if field == 5 && wire == 2 {
      res := DocumentSymbolEntry(r, lossy, x);
    } else if field == 6 && wire == 2 {
      res := DocumentOccurrenceEntry(r, lossy, x);
    } else {
      var _ :- r.SkipField(wire, field);
      return Ok(x);
    }
  }

  method DecodeDocument(r: ProtoReader, lossy: Lossy) returns (res: Result<SdbDocument, WireError>)
    requires r.Valid()
    modifies r
    ensures res == ParseDocument(lossy, old(r.Remaining()))
  {
    var x := NO_DOCUMENT;
    ghost var s := r.Remaining();
    ghost var expected := ParseDocument(lossy, s);
    while r.pos < r.end
      invariant r.Valid() && s == r.Remaining()
      invariant Fold(DocumentKnown, DocumentStep(lossy), s, x) == expected
      decreases |s|
    {
      Unfold(DocumentKnown, DocumentStep(lossy), s, x);
      var tag :- r.ReadTag();
      x :- DocumentField(r, lossy, x, tag / 8, tag % 8);
      s := r.Remaining();
    }
    return Ok(x);
  }

  method DocumentsField(r: ProtoReader, lossy: Lossy, x: seq<SdbDocument>, field: nat, wire: nat)
    returns (res: Result<seq<SdbDocument>, WireError>)
    requires r.Valid()
    modifies r
    ensures r.Valid()
    ensures Applies(res, r.Remaining(), DocumentsStep(lossy), x, ReadValue(DocumentsKnown, field, wire, old(r.Remaining())))
  {
    if field == 1 && wire == 2 {
      var nested :- r.ReadMessage();
      var doc :- DecodeDocument(nested, lossy);
      return Ok(x + [doc]);
    } else {
      var _ :- r.SkipField(wire, field);
      return Ok(x);
    }
  }

  /** The whole payload of one `.semanticdb` file. */
  method DecodeDocuments(bytes: seq<byte>, lossy: Lossy) returns (res: Result<seq<SdbDocument>, WireError>)
    ensures res == ParseDocuments(lossy, bytes)
    ensures Decodes(lossy, bytes, res)
  {
    ParsedDecodes(lossy, bytes);
    var r := new ProtoReader(bytes);
    var x: seq<SdbDocument> := [];
    ghost var s := bytes;
    ghost var expected := ParseDocuments(lossy, s);
    while r.pos < r.end
      invariant r.Valid() && s == r.Remaining()
      invariant Fold(DocumentsKnown, DocumentsStep(lossy), s, x) == expected
      decreases |s|
    {
      Unfold(DocumentsKnown, DocumentsStep(lossy), s, x);
      var tag :- r.ReadTag();
      x :- DocumentsField(r, lossy, x, tag / 8, tag % 8);
      s := r.Remaining();
    }
    return Ok(x);
  }

  // ---------------------------------------------------------------------------
  // Encoding
  // ---------------------------------------------------------------------------

  class ProtoWriter {
    var out: seq<byte>

    constructor ()
      ensures out == []
    {
      out := [];
    }

    method RawVarint(value: nat)
      modifies this
      ensures out == old(out) + EncodeVarint(value)
    {
      var v := value;
      while true
        invariant out + EncodeVarint(v) == old(out) + EncodeVarint(value)
        decreases v
      {
        var b := v % 0x80;
        ghost var whole := EncodeVarint(v);
        v := v / 0x80;
        if v == 0 {
          out := out + [b];
          return;
        }
        assert whole == [b + 0x80] + EncodeVarint(v);
        Assoc(out, [b + 0x80], EncodeVarint(v));
        out := out + [b + 0x80];
      }
    }

    method PutNum(field: nat, v: u64)
      modifies this
      ensures out == old(out) + EncNum(field, v)
    {
      RawVarint(8 * field + 0);
      RawVarint(v);
      Assoc(old(out), EncTag(field, 0), EncodeVarint(v));
    }

    method PutInt(field: nat, v: i32)
      modifies this
      ensures out == old(out) + EncInt(field, v)
    {
      PutNum(field, ToU64(v));
    }

    method PutBytes(field: nat, data: seq<byte>)
      modifies this
      ensures out == old(out) + EncBytes(field, data)
    {
      RawVarint(8 * field + 2);
      RawVarint(|data|);
      out := out + data;
      Assoc(old(out), EncTag(field, 2), EncodeVarint(|data|));
      Assoc(old(out), EncTag(field, 2) + EncodeVarint(|data|), data);
    }
  }

  lemma Regroup5(a: seq<byte>, b: seq<byte>, c: seq<byte>, d: seq<byte>, e: seq<byte>)
    ensures [] + a + b + c + d + e == a + (b + (c + (d + e)))
  {
  }


  lemma RegroupDocument(d: SdbDocument)
    ensures EncInt(1, d.schema) + (EncBytes(2, d.uri) + (EncBytes(3, d.text) + (EncBytes(11, d.md5) + EncInt(10, d.language))))
            + (EncList(5, EncSymbol, d.symbols) + EncList(6, EncOccurrence, d.occurrences)) == EncDocument(d)
  {
    Regroup6(EncInt(1, d.schema), EncBytes(2, d.uri), EncBytes(3, d.text), EncBytes(11, d.md5), EncInt(10, d.language),
             EncList(5, EncSymbol, d.symbols) + EncList(6, EncOccurrence, d.occurrences));
  }

  lemma Regroup6(a: seq<byte>, b: seq<byte>, c: seq<byte>, d: seq<byte>, e: seq<byte>, f: seq<byte>)
    ensures a + (b + (c + (d + e))) + f == a + (b + (c + (d + (e + f))))
  {
  }

  method RangeBytes(r: SdbRange) returns (bytes: seq<byte>)
    ensures bytes == EncRange(r)
  {
    var w := new ProtoWriter();
    w.PutInt(1, r.startLine);
    w.PutInt(2, r.startCharacter);
    w.PutInt(3, r.endLine);
    w.PutInt(4, r.endCharacter);
    bytes := w.out;
  }

  method SymbolBytes(i: SdbSymbolInfo) returns (bytes: seq<byte>)
    ensures bytes == EncSymbol(i)
  {
    var w := new ProtoWriter();
    w.PutBytes(1, i.symbol);
    w.PutInt(3, i.kind);
    w.PutInt(4, i.properties);
    w.PutBytes(5, i.displayName);
    ghost var head := w.out;
    for k := 0 to |i.overridden|
      invariant w.out + EncList(19, EncStr, i.overridden[k..]) == head + EncList(19, EncStr, i.overridden)
    {
      Assoc(w.out, EncBytes(19, i.overridden[k]), EncList(19, EncStr, i.overridden[k..][1..]));
      assert i.overridden[k..][1..] == i.overridden[k + 1..];
      w.PutBytes(19, i.overridden[k]);
    }
    bytes := w.out;
    Regroup5(EncBytes(1, i.symbol), EncInt(3, i.kind), EncInt(4, i.properties), EncBytes(5, i.displayName),
             EncList(19, EncStr, i.overridden));
    assert bytes + [] == bytes;
  }

  method OccurrenceBytes(o: SdbOccurrence) returns (bytes: seq<byte>)
    ensures bytes == EncOccurrence(o)
  {
    var w := new ProtoWriter();
    if o.range.Some? {
      var nested := RangeBytes(o.range.value);
      w.PutBytes(1, nested);
    }
    w.PutBytes(2, o.symbol);
    w.PutInt(3, o.role);
    bytes := w.out;
  }

  method DocumentBytes(d: SdbDocument) returns (bytes: seq<byte>)
    ensures bytes == EncDocument(d)
  {
    var w := new ProtoWriter();
    w.PutInt(1, d.schema);
    w.PutBytes(2, d.uri);
    w.PutBytes(3, d.text);
    w.PutBytes(11, d.md5);
    w.PutInt(10, d.language);
    ghost var head := w.out;
    for k := 0 to |d.symbols|
      invariant w.out + EncList(5, EncSymbol, d.symbols[k..]) == head + EncList(5, EncSymbol, d.symbols)
    {
      Assoc(w.out, EncBytes(5, EncSymbol(d.symbols[k])), EncList(5, EncSymbol, d.symbols[k..][1..]));
      assert d.symbols[k..][1..] == d.symbols[k + 1..];
      var nested := SymbolBytes(d.symbols[k]);
      w.PutBytes(5, nested);
    }
    ghost var middle := w.out;
    for k := 0 to |d.occurrences|
      invariant w.out + EncList(6, EncOccurrence, d.occurrences[k..]) == middle + EncList(6, EncOccurrence, d.occurrences)
    {
      Assoc(w.out, EncBytes(6, EncOccurrence(d.occurrences[k])), EncList(6, EncOccurrence, d.occurrences[k..][1..]));
      assert d.occurrences[k..][1..] == d.occurrences[k + 1..];
      var nested := OccurrenceBytes(d.occurrences[k]);
      w.PutBytes(6, nested);
    }
    bytes := w.out;
    Regroup5(EncInt(1, d.schema), EncBytes(2, d.uri), EncBytes(3, d.text), EncBytes(11, d.md5), EncInt(10, d.language));
    Assoc(head, EncList(5, EncSymbol, d.symbols), EncList(6, EncOccurrence, d.occurrences));
    RegroupDocument(d);
    assert bytes + [] == bytes && middle + [] == middle;
  }

  /** The bytes decode to the documents, for every way of reading strings that keeps theirs. */
  ghost predicate ComesBack(docs: seq<SdbDocument>, bytes: seq<byte>) {
    |bytes| < TWO64 ==>
      forall lossy: Lossy | (forall d | d in docs :: ValidStrings(lossy, d)) :: ParseDocuments(lossy, bytes) == Ok(docs)
  }

  lemma EncodedComesBack(docs: seq<SdbDocument>)
    ensures ComesBack(docs, EncDocuments(docs))
  {
    if |EncDocuments(docs)| < TWO64 {
      forall lossy: Lossy | (forall d | d in docs :: ValidStrings(lossy, d))
        ensures ParseDocuments(lossy, EncDocuments(docs)) == Ok(docs)
      {
        DocumentsRoundTrip(lossy, docs);
      }
    }
  }

  method Encode(docs: seq<SdbDocument>) returns (bytes: seq<byte>)
    ensures bytes == EncDocuments(docs)
    ensures ComesBack(docs, bytes)
  {
    var w := new ProtoWriter();
    for k := 0 to |docs|
      invariant w.out + EncList(1, EncDocument, docs[k..]) == EncList(1, EncDocument, docs)
    {
      Assoc(w.out, EncBytes(1, EncDocument(docs[k])), EncList(1, EncDocument, docs[k..][1..]));
      assert docs[k..][1..] == docs[k + 1..];
      var nested := DocumentBytes(docs[k]);
      w.PutBytes(1, nested);
    }
    bytes := w.out;
    EncodedComesBack(docs);
  }
}
