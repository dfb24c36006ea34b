/** Writing and reading a completion list field by field, as the boundary code does. */
module CompletionCodec {
  import opened Options
  import opened Words
  import opened AbiCodec
  import opened Completion
  import opened AbiLayout
  import opened CompletionLayout
  import opened AbiBuffers

  // ---------------------------------------------------------------------------
  // Writing
  // ---------------------------------------------------------------------------

  method WriteRng(w: Writer, r: Rng)
    modifies w
    ensures w.View() == Wrote(old(w.View()), RngC(), r)
  {
    ghost var before := w.View();
    w.U32(r.startLine);
    w.U32(r.startCharacter);
    w.U32(r.endLine);
    w.U32(r.endCharacter);
    WroteFour(before, WordC(), WordC(), WordC(), WordC(), FromRng(r));
  }

  method WriteTextEdit(w: Writer, utf8: Utf8, e: TextEdit)
    modifies w
    ensures w.View() == Wrote(old(w.View()), TextEditC(utf8), e)
  {
    ghost var before := w.View();
    WriteRng(w, e.range);
    w.PutStr(utf8, e.newText);
    WrotePair(before, RngC(), StrC(utf8), e.range, e.newText);
    WroteMap(before, PairC(RngC(), StrC(utf8)), ToTextEdit, FromTextEdit, e);
  }

  /** A tag or presence word in front of a value. */
  lemma WroteTagged<T>(before: Enc, t: u32, c: Codec<T>, v: T)
    ensures Wrote(Wrote(before, WordC(), t), c, v) == Then(before, Then(WordEnc(t), c.enc(v, |before.blob|)))
  {
    assert |before.blob + []| == |before.blob|;
    ThenAssoc(before, WordEnc(t), c.enc(v, |before.blob|));
  }

  method WriteEdit(w: Writer, utf8: Utf8, v: CompletionEdit)
    modifies w
    ensures w.View() == Wrote(old(w.View()), EditC(utf8), v)
  {
    ghost var before := w.View();
    match v {
      case PlainEdit(e) =>
        w.U32(0);
        WriteTextEdit(w, utf8, e);
        WroteTagged(before, 0, TextEditC(utf8), e);
      case InsertReplace(e) =>
        w.U32(1);
        ghost var tagged := w.View();
        w.PutStr(utf8, e.newText);
        WriteRng(w, e.insert);
        WriteRng(w, e.replace);
        WrotePair(Wrote(tagged, StrC(utf8), e.newText), RngC(), RngC(), e.insert, e.replace);
        WrotePair(tagged, StrC(utf8), PairC(RngC(), RngC()), e.newText, (e.insert, e.replace));
        WroteMap(tagged, PairC(StrC(utf8), PairC(RngC(), RngC())), ToBoth, FromBoth, e);
        WroteTagged(before, 1, BothC(utf8), e);
    }
    WroteMap(before, EitherC(TextEditC(utf8), BothC(utf8)), ToEdit, FromEdit, v);
  }

  method WriteOptDoc(w: Writer, utf8: Utf8, v: Option<Documentation>)
    modifies w
    ensures w.View() == Wrote(old(w.View()), OptDocC(utf8), v)
  {
    ghost var before := w.View();
    match v {
      case None =>
        w.U32(0);
      case Some(PlainDoc(s)) =>
        w.U32(1);
        w.PutStr(utf8, s);
        WroteTagged(before, 1, StrC(utf8), s);
      case Some(Markup(m)) =>
        w.U32(2);
        ghost var tagged := w.View();
        w.PutStr(utf8, m.kind);
        w.PutStr(utf8, m.value);
        WrotePair(tagged, StrC(utf8), StrC(utf8), m.kind, m.value);
        WroteMap(tagged, PairC(StrC(utf8), StrC(utf8)), ToMarkup, FromMarkup, m);
        WroteTagged(before, 2, MarkupC(utf8), m);
    }
    WroteMap(before, OptEitherC(StrC(utf8), MarkupC(utf8)), ToDoc, FromDoc, v);
  }

  method WriteOptDetails(w: Writer, utf8: Utf8, v: Option<LabelDetails>)
    modifies w
    ensures w.View() == Wrote(old(w.View()), FlagC(DetailsC(utf8)), v)
  {
    ghost var before := w.View();
    match v {
      case None =>
        w.U32(0);
      case Some(d) =>
        w.U32(1);
        ghost var tagged := w.View();
        w.OptRef(utf8, d.detail);
        w.OptRef(utf8, d.description);
        WrotePair(tagged, OptRefC(utf8), OptRefC(utf8), d.detail, d.description);
        WroteMap(tagged, PairC(OptRefC(utf8), OptRefC(utf8)), ToDetails, FromDetails, d);
        WroteTagged(before, 1, DetailsC(utf8), d);
    }
  }

  method WriteOptTags(w: Writer, v: Option<seq<i32>>)
    modifies w
    ensures w.View() == Wrote(old(w.View()), FlagC(ListC(IntC())), v)
  {
    ghost var before := w.View();
    match v {
      case None =>
        w.U32(0);
      case Some(tags) =>
        w.U32(1);
        ghost var start := w.View();
        w.PutCount(|tags|);
        ListStarts(start, IntC(), tags);
        for i := 0 to |tags|
          invariant Listing(w.View(), start, IntC(), tags, i)
        {
          ListContinues(w.View(), start, IntC(), tags, i);
          w.I32(tags[i]);
        }
        ListEnds(w.View(), start, IntC(), tags);
        WroteTagged(before, 1, ListC(IntC()), tags);
    }
  }

  method WriteOptStrings(w: Writer, utf8: Utf8, v: Option<seq<Str>>)
    modifies w
    ensures w.View() == Wrote(old(w.View()), FlagC(ListC(StrC(utf8))), v)
  {
    ghost var before := w.View();
    match v {
      case None =>
        w.U32(0);
      case Some(list) =>
        w.U32(1);
        ghost var start := w.View();
        w.PutCount(|list|);
        ListStarts(start, StrC(utf8), list);
        for i := 0 to |list|
          invariant Listing(w.View(), start, StrC(utf8), list, i)
        {
          ListContinues(w.View(), start, StrC(utf8), list, i);
          w.PutStr(utf8, list[i]);
        }
        ListEnds(w.View(), start, StrC(utf8), list);
        WroteTagged(before, 1, ListC(StrC(utf8)), list);
    }
  }

  method WriteOptEdits(w: Writer, utf8: Utf8, v: Option<seq<TextEdit>>)
    modifies w
    ensures w.View() == Wrote(old(w.View()), FlagC(ListC(TextEditC(utf8))), v)
  {
    ghost var before := w.View();
    match v {
      case None =>
        w.U32(0);
      case Some(edits) =>
        w.U32(1);
        ghost var start := w.View();
        w.PutCount(|edits|);
        ListStarts(start, TextEditC(utf8), edits);
        for i := 0 to |edits|
          invariant Listing(w.View(), start, TextEditC(utf8), edits, i)
        {
          ListContinues(w.View(), start, TextEditC(utf8), edits, i);
          WriteTextEdit(w, utf8, edits[i]);
        }
        ListEnds(w.View(), start, TextEditC(utf8), edits);
        WroteTagged(before, 1, ListC(TextEditC(utf8)), edits);
    }
  }

  method WriteOptCommand(w: Writer, utf8: Utf8, v: Option<Command>)
    modifies w
    ensures w.View() == Wrote(old(w.View()), FlagC(CommandC(utf8)), v)
  {
    ghost var before := w.View();
    match v {
      case None =>
        w.U32(0);
      case Some(c) =>
        w.U32(1);
        ghost var tagged := w.View();
        w.PutStr(utf8, c.title);
        w.OptRef(utf8, c.tooltip);
        w.PutStr(utf8, c.command);
        w.OptRef(AnyBytes, c.arguments);
        WroteFour(tagged, StrC(utf8), OptRefC(utf8), StrC(utf8), OptRefC(AnyBytes), FromCommand(c));
        WroteTagged(before, 1, CommandC(utf8), c);
    }
  }

  method WriteOptEdit(w: Writer, utf8: Utf8, v: Option<CompletionEdit>)
    modifies w
    ensures w.View() == Wrote(old(w.View()), FlagC(EditC(utf8)), v)
  {
    ghost var before := w.View();
    match v {
      case None =>
        w.U32(0);
      case Some(e) =>
        w.U32(1);
        WriteEdit(w, utf8, e);
        WroteTagged(before, 1, EditC(utf8), e);
    }
  }

  method WriteItem(w: Writer, utf8: Utf8, i: CompletionItem)
    modifies w
    ensures w.View() == Wrote(old(w.View()), ItemC(utf8), i)
  {
    ghost var e0 := w.View();
    w.PutStr(utf8, i.labelText);
    WriteOptDetails(w, utf8, i.labelDetails);
    w.OptI32(i.kind);
    WriteOptTags(w, i.tags);
    w.OptRef(utf8, i.detail);
    WroteFive(e0, StrC(utf8), FlagC(DetailsC(utf8)), OptIntC(), FlagC(ListC(IntC())), OptRefC(utf8), HeadOf(i));
    ghost var e1 := w.View();
    WriteOptDoc(w, utf8, i.documentation);
    w.OptBool(i.deprecated);
    w.OptBool(i.preselect);
    w.OptRef(utf8, i.sortText);
    w.OptRef(utf8, i.filterText);
    WroteFive(e1, OptDocC(utf8), OptBoolC(), OptBoolC(), OptRefC(utf8), OptRefC(utf8), DocsOf(i));
    ghost var e2 := w.View();
    w.OptRef(utf8, i.insertText);
    w.OptI32(i.insertTextFormat);
    w.OptI32(i.insertTextMode);
    WriteOptEdit(w, utf8, i.textEdit);
    w.OptRef(utf8, i.textEditText);
    WroteFive(e2, OptRefC(utf8), OptIntC(), OptIntC(), FlagC(EditC(utf8)), OptRefC(utf8), InsertsOf(i));
    ghost var e3 := w.View();
    WriteOptEdits(w, utf8, i.additionalTextEdits);
    WriteOptStrings(w, utf8, i.commitCharacters);
    WriteOptCommand(w, utf8, i.command);
    w.OptRef(AnyBytes, i.data);
    WroteFour(e3, FlagC(ListC(TextEditC(utf8))), FlagC(ListC(StrC(utf8))), FlagC(CommandC(utf8)), OptRefC(AnyBytes), TailOf(i));
    WroteFour(e0, HeadC(utf8), DocsC(utf8), InsertsC(utf8), TailC(utf8), FromItem(i));
  }

  method WriteItems(w: Writer, utf8: Utf8, items: seq<CompletionItem>)
    modifies w
    ensures w.View() == Wrote(old(w.View()), ListC(ItemC(utf8)), items)
  {
    ghost var start := w.View();
    w.PutCount(|items|);
    ListStarts(start, ItemC(utf8), items);
    for i := 0 to |items|
      invariant Listing(w.View(), start, ItemC(utf8), items, i)
    {
      ListContinues(w.View(), start, ItemC(utf8), items, i);
      WriteItem(w, utf8, items[i]);
    }
    ListEnds(w.View(), start, ItemC(utf8), items);
  }

  method WriteOptEditRange(w: Writer, v: Option<EditRange>)
    modifies w
    ensures w.View() == Wrote(old(w.View()), OptEditRangeC(), v)
  {
    ghost var before := w.View();
    match v {
      case None =>
        w.U32(0);
      case Some(OneRange(r)) =>
        w.U32(1);
        WriteRng(w, r);
        WroteTagged(before, 1, RngC(), r);
      case Some(InsertReplaceRange(i, r)) =>
        w.U32(2);
        ghost var tagged := w.View();
        WriteRng(w, i);
        WriteRng(w, r);
        WrotePair(tagged, RngC(), RngC(), i, r);
        WroteTagged(before, 2, PairC(RngC(), RngC()), (i, r));
    }
    WroteMap(before, OptEitherC(RngC(), PairC(RngC(), RngC())), ToEditRange, FromEditRange, v);
  }

  method WriteOptDefaults(w: Writer, utf8: Utf8, v: Option<ItemDefaults>)
    modifies w
    ensures w.View() == Wrote(old(w.View()), FlagC(DefaultsC(utf8)), v)
  {
    ghost var before := w.View();
    match v {
      case None =>
        w.U32(0);
      case Some(d) =>
        w.U32(1);
        ghost var tagged := w.View();
        WriteOptStrings(w, utf8, d.commitCharacters);
        WriteOptEditRange(w, d.editRange);
        w.OptI32(d.insertTextFormat);
        w.OptI32(d.insertTextMode);
        w.OptRef(AnyBytes, d.data);
        WroteFive(tagged, FlagC(ListC(StrC(utf8))), OptEditRangeC(), OptIntC(), OptIntC(), OptRefC(AnyBytes), FromDefaults(d));
        WroteTagged(before, 1, DefaultsC(utf8), d);
    }
  }

  method WriteOptApply(w: Writer, v: Option<ApplyKind>)
    modifies w
    ensures w.View() == Wrote(old(w.View()), FlagC(ApplyC()), v)
  {
    ghost var before := w.View();
    match v {
      case None =>
        w.U32(0);
      case Some(a) =>
        w.U32(1);
        ghost var tagged := w.View();
        w.OptI32(a.commitCharacters);
        w.OptI32(a.data);
        WrotePair(tagged, OptIntC(), OptIntC(), a.commitCharacters, a.data);
        WroteMap(tagged, PairC(OptIntC(), OptIntC()), ToApply, FromApply, a);
        WroteTagged(before, 1, ApplyC(), a);
    }
  }

  /** Encodes a completion list; whatever comes out decodes back to it. */
  method EncodeCompletionList(utf8: Utf8, l: CompletionList) returns (r: Result<seq<byte>, AbiError>)
    ensures r == EncodeList(utf8, l)
    ensures r.Ok? <==> AllNarrow(PayloadWords(6, OfList(l)))
    ensures r.Ok? ==> IsPayload(r.value, 6, OfList(l))
    ensures r.Ok? && ValidList(utf8, l) ==> DecodeList(utf8, r.value) == Ok(l)
  {
    var w := new Writer();
    w.Bool32(l.isIncomplete);
    WriteOptDefaults(w, utf8, l.itemDefaults);
    WriteOptApply(w, l.applyKind);
    WriteItems(w, utf8, l.items);
    WroteFour(EMPTY, BoolC(), FlagC(DefaultsC(utf8)), FlagC(ApplyC()), ListC(ItemC(utf8)), FromList(l));
    EmptyWrote(CompletionListC(utf8), l);
    r := w.Done(KIND_COMPLETION_LIST);
    EncodedList(utf8, l);
    if r.Ok? && ValidList(utf8, l) {
      CompletionListRoundTrip(utf8, l);
    }
  }

  lemma EmptyWrote<T>(c: Codec<T>, v: T)
    ensures Wrote(EMPTY, c, v) == c.enc(v, 0)
  {
    assert [] + c.enc(v, 0).body == c.enc(v, 0).body && [] + c.enc(v, 0).blob == c.enc(v, 0).blob;
  }

  // ---------------------------------------------------------------------------
  // Reading
  // ---------------------------------------------------------------------------

  method ReadRng(r: Reader) returns (res: Result<Rng, AbiError>)
    requires r.Valid()
    modifies r
    ensures r.Valid() && Took(res, RngC().dec(old(r.Rest()), r.blob), r.Rest())
  {
    MapDec(FourC(WordC(), WordC(), WordC(), WordC()), ToRng, FromRng, r.Rest(), r.blob);
    var startLine :- r.U32();
    var startCharacter :- r.U32();
    var endLine :- r.U32();
    var endCharacter :- r.U32();
    return Ok(Rng(startLine, startCharacter, endLine, endCharacter));
  }

  method ReadTextEdit(r: Reader) returns (res: Result<TextEdit, AbiError>)
    requires r.Valid()
    modifies r
    ensures r.Valid() && Took(res, TextEditC(r.utf8).dec(old(r.Rest()), r.blob), r.Rest())
  {
    MapDec(PairC(RngC(), StrC(r.utf8)), ToTextEdit, FromTextEdit, r.Rest(), r.blob);
    var range :- ReadRng(r);
    var newText :- r.GetStr();
    return Ok(TextEdit(range, newText));
  }

  lemma MapDec<A, B>(c: Codec<A>, wrap: A -> B, unwrap: B -> A, s: seq<byte>, blob: seq<byte>)
    ensures MapC(c, wrap, unwrap).dec(s, blob) == MapRead(c.dec(s, blob), wrap)
  {
  }

  method ReadEdit(r: Reader) returns (res: Result<CompletionEdit, AbiError>)
    requires r.Valid()
    modifies r
    ensures r.Valid() && Took(res, EditC(r.utf8).dec(old(r.Rest()), r.blob), r.Rest())
  {
    MapDec(EitherC(TextEditC(r.utf8), BothC(r.utf8)), ToEdit, FromEdit, r.Rest(), r.blob);
    var tag :- r.U32();
    if tag == 0 {
      var e :- ReadTextEdit(r);
      return Ok(PlainEdit(e));
    } else if tag == 1 {
      MapDec(PairC(StrC(r.utf8), PairC(RngC(), RngC())), ToBoth, FromBoth, r.Rest(), r.blob);
      var newText :- r.GetStr();
      var insert :- ReadRng(r);
      var replace :- ReadRng(r);
      return Ok(InsertReplace(InsertReplaceEdit(newText, insert, replace)));
    } else {
      return Err(BadTag);
    }
  }

  method ReadOptDoc(r: Reader) returns (res: Result<Option<Documentation>, AbiError>)
    requires r.Valid()
    modifies r
    ensures r.Valid() && Took(res, OptDocC(r.utf8).dec(old(r.Rest()), r.blob), r.Rest())
  {
    MapDec(OptEitherC(StrC(r.utf8), MarkupC(r.utf8)), ToDoc, FromDoc, r.Rest(), r.blob);
    var tag :- r.U32();
    if tag == 0 {
      return Ok(None);
    } else if tag == 1 {
      var s :- r.GetStr();
      return Ok(Some(PlainDoc(s)));
    } else if tag == 2 {
      MapDec(PairC(StrC(r.utf8), StrC(r.utf8)), ToMarkup, FromMarkup, r.Rest(), r.blob);
      var kind :- r.GetStr();
      var value :- r.GetStr();
      return Ok(Some(Markup(MarkupContent(kind, value))));
    } else {
      return Err(BadTag);
    }
  }

  method ReadOptDetails(r: Reader) returns (res: Result<Option<LabelDetails>, AbiError>)
    requires r.Valid()
    modifies r
    ensures r.Valid() && Took(res, FlagC(DetailsC(r.utf8)).dec(old(r.Rest()), r.blob), r.Rest())
  {
    var present :- r.U32();
    if present == 0 {
      return Ok(None);
    }
    MapDec(PairC(OptRefC(r.utf8), OptRefC(r.utf8)), ToDetails, FromDetails, r.Rest(), r.blob);
    var detail :- r.OptRef(r.utf8);
    var description :- r.OptRef(r.utf8);
    return Ok(Some(LabelDetails(detail, description)));
  }

  /** A counted loop that has `n` elements to go and `out` behind it. */
  ghost predicate Reading<T(!new)>(c: Codec<T>, n: nat, s: seq<byte>, blob: seq<byte>, out: seq<T>, expected: Read<seq<T>>) {
    expected == Behind(out, Elements(c, n, s, blob))
  }

  /** A list whose first elements have been read already. */
  ghost function Behind<T>(out: seq<T>, read: Read<seq<T>>): Read<seq<T>> {
    match read
    case Err(e) => Err(e)
    case Ok((xs, after)) => Ok((out + xs, after))
  }

  /** A list is a count and a counted loop. */
  lemma ReadingStarts<T(!new)>(c: Codec<T>, s: seq<byte>, blob: seq<byte>)
    ensures match Count(s)
            case Err(e) => ListC(c).dec(s, blob) == Err(e)
            case Ok((n, rest)) => Reading(c, n, rest, blob, [], ListC(c).dec(s, blob))
  {
    assert forall xs: seq<T> :: [] + xs == xs;
  }

  /** One element was read from `s`, leaving `rest`. */
  lemma ReadingContinues<T(!new)>(c: Codec<T>, n: nat, s: seq<byte>, blob: seq<byte>, out: seq<T>, expected: Read<seq<T>>,
                                  read: Result<T, AbiError>, rest: seq<byte>)
    requires Reading(c, n, s, blob, out, expected) && n > 0 && Took(read, c.dec(s, blob), rest)
    ensures match read
            case Err(e) => expected == Err(e)
            case Ok(x) => Reading(c, n - 1, rest, blob, out + [x], expected)
  {
    if read.Ok? {
      assert forall xs: seq<T> :: out + ([read.value] + xs) == out + [read.value] + xs;
    }
  }

  lemma ReadingEnds<T(!new)>(c: Codec<T>, s: seq<byte>, blob: seq<byte>, out: seq<T>, expected: Read<seq<T>>)
    requires Reading(c, 0, s, blob, out, expected)
    ensures Took(Ok(out), expected, s)
  {
    assert out + [] == out;
  }

  method ReadNextTags(r: Reader, out: seq<i32>, ghost n: nat, ghost expected: Read<seq<i32>>) returns (res: Result<seq<i32>, AbiError>)
    requires r.Valid() && n > 0 && Reading(IntC(), n, r.Rest(), r.blob, out, expected)
    modifies r
    ensures r.Valid() && (res.Err? ==> expected == Err(res.error))
    ensures res.Ok? ==> Reading(IntC(), n - 1, r.Rest(), r.blob, res.value, expected)
  {
    ghost var s := r.Rest();
    var read := r.I32();
    ReadingContinues(IntC(), n, s, r.blob, out, expected, read, r.Rest());
    var x :- read;
    return Ok(out + [x]);
  }

  method ReadTags(r: Reader) returns (res: Result<seq<i32>, AbiError>)
    requires r.Valid()
    modifies r
    ensures r.Valid() && Took(res, ListC(IntC()).dec(old(r.Rest()), r.blob), r.Rest())
  {
    ghost var expected := ListC(IntC()).dec(r.Rest(), r.blob);
    ReadingStarts(IntC(), r.Rest(), r.blob);
    var n :- r.GetCount();
    var out: seq<i32> := [];
    for i := 0 to n
      invariant r.Valid() && Reading(IntC(), n - i, r.Rest(), r.blob, out, expected)
    {
      out :- ReadNextTags(r, out, n - i, expected);
    }
    ReadingEnds(IntC(), r.Rest(), r.blob, out, expected);
    return Ok(out);
  }

  method ReadOptTags(r: Reader) returns (res: Result<Option<seq<i32>>, AbiError>)
    requires r.Valid()
    modifies r
    ensures r.Valid() && Took(res, FlagC(ListC(IntC())).dec(old(r.Rest()), r.blob), r.Rest())
  {
    var present :- r.U32();
    if present == 0 {
      return Ok(None);
    }
    var list :- ReadTags(r);
    return Ok(Some(list));
  }

  method ReadNextStrings(r: Reader, out: seq<Str>, ghost n: nat, ghost expected: Read<seq<Str>>) returns (res: Result<seq<Str>, AbiError>)
    requires r.Valid() && n > 0 && Reading(StrC(r.utf8), n, r.Rest(), r.blob, out, expected)
    modifies r
    ensures r.Valid() && (res.Err? ==> expected == Err(res.error))
    ensures res.Ok? ==> Reading(StrC(r.utf8), n - 1, r.Rest(), r.blob, res.value, expected)
  {
    ghost var s := r.Rest();
    var read := r.GetStr();
    ReadingContinues(StrC(r.utf8), n, s, r.blob, out, expected, read, r.Rest());
    var x :- read;
    return Ok(out + [x]);
  }

  method ReadStrings(r: Reader) returns (res: Result<seq<Str>, AbiError>)
    requires r.Valid()
    modifies r
    ensures r.Valid() && Took(res, ListC(StrC(r.utf8)).dec(old(r.Rest()), r.blob), r.Rest())
  {
    ghost var expected := ListC(StrC(r.utf8)).dec(r.Rest(), r.blob);
    ReadingStarts(StrC(r.utf8), r.Rest(), r.blob);
    var n :- r.GetCount();
    var out: seq<Str> := [];
    for i := 0 to n
      invariant r.Valid() && Reading(StrC(r.utf8), n - i, r.Rest(), r.blob, out, expected)
    {
      out :- ReadNextStrings(r, out, n - i, expected);
    }
    ReadingEnds(StrC(r.utf8), r.Rest(), r.blob, out, expected);
    return Ok(out);
  }

  method ReadOptStrings(r: Reader) returns (res: Result<Option<seq<Str>>, AbiError>)
    requires r.Valid()
    modifies r
    ensures r.Valid() && Took(res, FlagC(ListC(StrC(r.utf8))).dec(old(r.Rest()), r.blob), r.Rest())
  {
    var present :- r.U32();
    if present == 0 {
      return Ok(None);
    }
    var list :- ReadStrings(r);
    return Ok(Some(list));
  }

  method ReadNextEdits(r: Reader, out: seq<TextEdit>, ghost n: nat, ghost expected: Read<seq<TextEdit>>) returns (res: Result<seq<TextEdit>, AbiError>)
    requires r.Valid() && n > 0 && Reading(TextEditC(r.utf8), n, r.Rest(), r.blob, out, expected)
    modifies r
    ensures r.Valid() && (res.Err? ==> expected == Err(res.error))
    ensures res.Ok? ==> Reading(TextEditC(r.utf8), n - 1, r.Rest(), r.blob, res.value, expected)
  {
    ghost var s := r.Rest();
    var read := ReadTextEdit(r);
    ReadingContinues(TextEditC(r.utf8), n, s, r.blob, out, expected, read, r.Rest());
    var x :- read;
    return Ok(out + [x]);
  }

  method ReadEdits(r: Reader) returns (res: Result<seq<TextEdit>, AbiError>)
    requires r.Valid()
    modifies r
    ensures r.Valid() && Took(res, ListC(TextEditC(r.utf8)).dec(old(r.Rest()), r.blob), r.Rest())
  {
    ghost var expected := ListC(TextEditC(r.utf8)).dec(r.Rest(), r.blob);
    ReadingStarts(TextEditC(r.utf8), r.Rest(), r.blob);
    var n :- r.GetCount();
    var out: seq<TextEdit> := [];
    for i := 0 to n
      invariant r.Valid() && Reading(TextEditC(r.utf8), n - i, r.Rest(), r.blob, out, expected)
    {
      out :- ReadNextEdits(r, out, n - i, expected);
    }
    ReadingEnds(TextEditC(r.utf8), r.Rest(), r.blob, out, expected);
    return Ok(out);
  }

  method ReadOptEdits(r: Reader) returns (res: Result<Option<seq<TextEdit>>, AbiError>)
    requires r.Valid()
    modifies r
    ensures r.Valid() && Took(res, FlagC(ListC(TextEditC(r.utf8))).dec(old(r.Rest()), r.blob), r.Rest())
  {
    var present :- r.U32();
    if present == 0 {
      return Ok(None);
    }
    var list :- ReadEdits(r);
    return Ok(Some(list));
  }

  method ReadOptCommand(r: Reader) returns (res: Result<Option<Command>, AbiError>)
    requires r.Valid()
    modifies r
    ensures r.Valid() && Took(res, FlagC(CommandC(r.utf8)).dec(old(r.Rest()), r.blob), r.Rest())
  {
    var present :- r.U32();
    if present == 0 {
      return Ok(None);
    }
    MapDec(FourC(StrC(r.utf8), OptRefC(r.utf8), StrC(r.utf8), OptRefC(AnyBytes)), ToCommand, FromCommand, r.Rest(), r.blob);
    var title :- r.GetStr();
    var tooltip :- r.OptRef(r.utf8);
    var command :- r.GetStr();
    var arguments :- r.OptRef(AnyBytes);
    return Ok(Some(Command(title, tooltip, command, arguments)));
  }

  method ReadOptEdit(r: Reader) returns (res: Result<Option<CompletionEdit>, AbiError>)
    requires r.Valid()
    modifies r
    ensures r.Valid() && Took(res, FlagC(EditC(r.utf8)).dec(old(r.Rest()), r.blob), r.Rest())
  {
    var present :- r.U32();
    if present == 0 {
      return Ok(None);
    }
    var e :- ReadEdit(r);
    return Ok(Some(e));
  }

  method ReadHead(r: Reader) returns (res: Result<Head, AbiError>)
    requires r.Valid()
    modifies r
    ensures r.Valid() && Took(res, HeadC(r.utf8).dec(old(r.Rest()), r.blob), r.Rest())
  {
    var labelText :- r.GetStr();
    var labelDetails :- ReadOptDetails(r);
    var kind :- r.OptI32();
    var tags :- ReadOptTags(r);
    var detail :- r.OptRef(r.utf8);
    return Ok((labelText, (labelDetails, (kind, (tags, detail)))));
  }

  method ReadDocs(r: Reader) returns (res: Result<Docs, AbiError>)
    requires r.Valid()
    modifies r
    ensures r.Valid() && Took(res, DocsC(r.utf8).dec(old(r.Rest()), r.blob), r.Rest())
  {
    var documentation :- ReadOptDoc(r);
    var deprecated :- r.OptBool();
    var preselect :- r.OptBool();
    var sortText :- r.OptRef(r.utf8);
    var filterText :- r.OptRef(r.utf8);
    return Ok((documentation, (deprecated, (preselect, (sortText, filterText)))));
  }

  method ReadInserts(r: Reader) returns (res: Result<Inserts, AbiError>)
    requires r.Valid()
    modifies r
    ensures r.Valid() && Took(res, InsertsC(r.utf8).dec(old(r.Rest()), r.blob), r.Rest())
  {
    var insertText :- r.OptRef(r.utf8);
    var format :- r.OptI32();
    var mode :- r.OptI32();
    var textEdit :- ReadOptEdit(r);
    var textEditText :- r.OptRef(r.utf8);
    return Ok((insertText, (format, (mode, (textEdit, textEditText)))));
  }

  method ReadTail(r: Reader) returns (res: Result<Tail, AbiError>)
    requires r.Valid()
    modifies r
    ensures r.Valid() && Took(res, TailC(r.utf8).dec(old(r.Rest()), r.blob), r.Rest())
  {
    var edits :- ReadOptEdits(r);
    var commit :- ReadOptStrings(r);
    var command :- ReadOptCommand(r);
    var data :- r.OptRef(AnyBytes);
    return Ok((edits, (commit, (command, data))));
  }

  method ReadItem(r: Reader) returns (res: Result<CompletionItem, AbiError>)
    requires r.Valid()
    modifies r
    ensures r.Valid() && Took(res, ItemC(r.utf8).dec(old(r.Rest()), r.blob), r.Rest())
  {
    MapDec(FourC(HeadC(r.utf8), DocsC(r.utf8), InsertsC(r.utf8), TailC(r.utf8)), ToItem, FromItem, r.Rest(), r.blob);
    var h :- ReadHead(r);
    var d :- ReadDocs(r);
    var x :- ReadInserts(r);
    var l :- ReadTail(r);
    return Ok(ToItem((h, (d, (x, l)))));
  }

  method ReadOptEditRange(r: Reader) returns (res: Result<Option<EditRange>, AbiError>)
    requires r.Valid()
    modifies r
    ensures r.Valid() && Took(res, OptEditRangeC().dec(old(r.Rest()), r.blob), r.Rest())
  {
    MapDec(OptEitherC(RngC(), PairC(RngC(), RngC())), ToEditRange, FromEditRange, r.Rest(), r.blob);
    var tag :- r.U32();
    if tag == 0 {
      return Ok(None);
    } else if tag == 1 {
      var range :- ReadRng(r);
      return Ok(Some(OneRange(range)));
    } else if tag == 2 {
      var insert :- ReadRng(r);
      var replace :- ReadRng(r);
      return Ok(Some(InsertReplaceRange(insert, replace)));
    } else {
      return Err(BadTag);
    }
  }

  method ReadOptDefaults(r: Reader) returns (res: Result<Option<ItemDefaults>, AbiError>)
    requires r.Valid()
    modifies r
    ensures r.Valid() && Took(res, FlagC(DefaultsC(r.utf8)).dec(old(r.Rest()), r.blob), r.Rest())
  {
    var present :- r.U32();
    if present == 0 {
      return Ok(None);
    }
    MapDec(FiveC(FlagC(ListC(StrC(r.utf8))), OptEditRangeC(), OptIntC(), OptIntC(), OptRefC(AnyBytes)),
           ToDefaults, FromDefaults, r.Rest(), r.blob);
    var commit :- ReadOptStrings(r);
    var editRange :- ReadOptEditRange(r);
    var format :- r.OptI32();
    var mode :- r.OptI32();
    var data :- r.OptRef(AnyBytes);
    return Ok(Some(ItemDefaults(commit, editRange, format, mode, data)));
  }

  method ReadOptApply(r: Reader) returns (res: Result<Option<ApplyKind>, AbiError>)
    requires r.Valid()
    modifies r
    ensures r.Valid() && Took(res, FlagC(ApplyC()).dec(old(r.Rest()), r.blob), r.Rest())
  {
    var present :- r.U32();
    if present == 0 {
      return Ok(None);
    }
    MapDec(PairC(OptIntC(), OptIntC()), ToApply, FromApply, r.Rest(), r.blob);
    var commit :- r.OptI32();
    var data :- r.OptI32();
    return Ok(Some(ApplyKind(commit, data)));
  }

  method ReadNextItems(r: Reader, out: seq<CompletionItem>, ghost n: nat, ghost expected: Read<seq<CompletionItem>>) returns (res: Result<seq<CompletionItem>, AbiError>)
    requires r.Valid() && n > 0 && Reading(ItemC(r.utf8), n, r.Rest(), r.blob, out, expected)
    modifies r
    ensures r.Valid() && (res.Err? ==> expected == Err(res.error))
    ensures res.Ok? ==> Reading(ItemC(r.utf8), n - 1, r.Rest(), r.blob, res.value, expected)
  {
    ghost var s := r.Rest();
    var read := ReadItem(r);
    ReadingContinues(ItemC(r.utf8), n, s, r.blob, out, expected, read, r.Rest());
    var x :- read;
    return Ok(out + [x]);
  }

  method ReadItems(r: Reader) returns (res: Result<seq<CompletionItem>, AbiError>)
    requires r.Valid()
    modifies r
    ensures r.Valid() && Took(res, ListC(ItemC(r.utf8)).dec(old(r.Rest()), r.blob), r.Rest())
  {
    ghost var expected := ListC(ItemC(r.utf8)).dec(r.Rest(), r.blob);
    ReadingStarts(ItemC(r.utf8), r.Rest(), r.blob);
    var n :- r.GetCount();
    var out: seq<CompletionItem> := [];
    for i := 0 to n
      invariant r.Valid() && Reading(ItemC(r.utf8), n - i, r.Rest(), r.blob, out, expected)
    {
      out :- ReadNextItems(r, out, n - i, expected);
    }
    ReadingEnds(ItemC(r.utf8), r.Rest(), r.blob, out, expected);
    return Ok(out);
  }

  method ReadList(r: Reader) returns (res: Result<CompletionList, AbiError>)
    requires r.Valid()
    modifies r
    ensures r.Valid() && Took(res, CompletionListC(r.utf8).dec(old(r.Rest()), r.blob), r.Rest())
  {
    MapDec(FourC(BoolC(), FlagC(DefaultsC(r.utf8)), FlagC(ApplyC()), ListC(ItemC(r.utf8))), ToList, FromList, r.Rest(), r.blob);
    var isIncomplete :- r.Bool32();
    var defaults :- ReadOptDefaults(r);
    var applyKind :- ReadOptApply(r);
    var items :- ReadItems(r);
    return Ok(CompletionList(isIncomplete, defaults, applyKind, items));
  }

  /** Validates the envelope, reads the list and insists that the body is used up. */
  method DecodeCompletionList(utf8: Utf8, buf: seq<byte>) returns (res: Result<CompletionList, AbiError>)
    ensures res == DecodeList(utf8, buf)
  {
    var parts :- OpenBuffer(buf, KIND_COMPLETION_LIST);
    var r := new Reader(parts.0, parts.1, utf8);
    var l :- ReadList(r);
    if r.pos != |r.body| {
      assert |r.Rest()| > 0;
      return Err(TrailingBytes);
    }
    return Ok(l);
  }

  method OpenBuffer(buf: seq<byte>, kind: u32) returns (r: Result<(seq<byte>, seq<byte>), AbiError>)
    ensures r == Open(buf, kind)
  {
    if |buf| < 16 {
      return Err(ShortBuffer);
    }
    if FromLe(buf[0..4]) != MAGIC {
      return Err(BadMagic);
    }
    if FromLe(buf[4..8]) != kind {
      return Err(WrongKind);
    }
    var bodyLen: nat, blobLen: nat := FromLe(buf[8..12]), FromLe(buf[12..16]);
    if 16 + bodyLen + blobLen != |buf| {
      return Err(LengthMismatch);
    }
    return Ok((buf[16..16 + bodyLen], buf[16 + bodyLen..]));
  }
}
