/** The numbers and texts of a completion list in the order in which the two sides of the boundary agree on. */
module CompletionLayout {
  import opened Options
  import opened Words
  import opened AbiCodec
  import opened AbiLayout
  import opened Completion

  // ---------------------------------------------------------------------------
  // Edits, documentation, commands
  // ---------------------------------------------------------------------------

  function OfRng(r: Rng): seq<Token> {
    [Number(r.startLine), Number(r.startCharacter), Number(r.endLine), Number(r.endCharacter)]
  }

  function OfText(b: Str): seq<Token> {
    [Text(b)]
  }

  function OfInt(i: i32): seq<Token> {
    [Signed(i)]
  }

  function OfTextEdit(e: TextEdit): seq<Token> {
    OfRng(e.range) + [Text(e.newText)]
  }

  function OfEdit(v: CompletionEdit): seq<Token> {
    match v
    case PlainEdit(e) => [Number(0)] + OfTextEdit(e)
    case InsertReplace(e) => [Number(1)] + ([Text(e.newText)] + (OfRng(e.insert) + OfRng(e.replace)))
  }

  function OfDoc(v: Option<Documentation>): seq<Token> {
    match v
    case None => [Number(0)]
    case Some(PlainDoc(s)) => [Number(1), Text(s)]
    case Some(Markup(m)) => [Number(2), Text(m.kind), Text(m.value)]
  }

  function OfDetails(d: LabelDetails): seq<Token> {
    OptText(d.detail) + OptText(d.description)
  }

  function OfCommand(c: Command): seq<Token> {
    Joined([[Text(c.title)], OptText(c.tooltip), [Text(c.command)], OptText(c.arguments)])
  }

  lemma RngLays(r: Rng)
    ensures Lays(RngC(), r, OfRng(r))
  {
    var ps := [[Number(r.startLine)], [Number(r.startCharacter)], [Number(r.endLine)], [Number(r.endCharacter)]];
    WordLays(r.startLine);
    WordLays(r.startCharacter);
    WordLays(r.endLine);
    WordLays(r.endCharacter);
    FourLays(WordC(), WordC(), WordC(), WordC(), FromRng(r), ps);
    MapLays(FourC(WordC(), WordC(), WordC(), WordC()), ToRng, FromRng, r, Joined(ps));
    JoinedFour(ps);
    assert Joined(ps) == OfRng(r);
  }

  lemma TextEditLays(utf8: Utf8, e: TextEdit)
    ensures Lays(TextEditC(utf8), e, OfTextEdit(e))
  {
    RngLays(e.range);
    StrLays(utf8, e.newText);
    PairLays(RngC(), StrC(utf8), FromTextEdit(e), OfRng(e.range), [Text(e.newText)]);
    MapLays(PairC(RngC(), StrC(utf8)), ToTextEdit, FromTextEdit, e, OfTextEdit(e));
  }

  lemma BothLays(utf8: Utf8, e: InsertReplaceEdit)
    ensures Lays(BothC(utf8), e, [Text(e.newText)] + (OfRng(e.insert) + OfRng(e.replace)))
  {
    RngLays(e.insert);
    RngLays(e.replace);
    StrLays(utf8, e.newText);
    PairLays(RngC(), RngC(), (e.insert, e.replace), OfRng(e.insert), OfRng(e.replace));
    PairLays(StrC(utf8), PairC(RngC(), RngC()), FromBoth(e), [Text(e.newText)], OfRng(e.insert) + OfRng(e.replace));
    MapLays(PairC(StrC(utf8), PairC(RngC(), RngC())), ToBoth, FromBoth, e,
            [Text(e.newText)] + (OfRng(e.insert) + OfRng(e.replace)));
  }

  lemma EditLays(utf8: Utf8, v: CompletionEdit)
    ensures Lays(EditC(utf8), v, OfEdit(v))
  {
    match v {
      case PlainEdit(e) =>
        TextEditLays(utf8, e);
        EitherLays(TextEditC(utf8), BothC(utf8), FromEdit(v), OfTextEdit(e));
      case InsertReplace(e) =>
        BothLays(utf8, e);
        EitherLays(TextEditC(utf8), BothC(utf8), FromEdit(v), [Text(e.newText)] + (OfRng(e.insert) + OfRng(e.replace)));
    }
    MapLays(EitherC(TextEditC(utf8), BothC(utf8)), ToEdit, FromEdit, v, OfEdit(v));
  }

  lemma MarkupLays(utf8: Utf8, m: MarkupContent)
    ensures Lays(MarkupC(utf8), m, [Text(m.kind), Text(m.value)])
  {
    StrLays(utf8, m.kind);
    StrLays(utf8, m.value);
    PairLays(StrC(utf8), StrC(utf8), FromMarkup(m), [Text(m.kind)], [Text(m.value)]);
    assert [Text(m.kind)] + [Text(m.value)] == [Text(m.kind), Text(m.value)];
    MapLays(PairC(StrC(utf8), StrC(utf8)), ToMarkup, FromMarkup, m, [Text(m.kind), Text(m.value)]);
  }

  lemma OptDocLays(utf8: Utf8, v: Option<Documentation>)
    ensures Lays(OptDocC(utf8), v, OfDoc(v))
  {
    var ts: seq<Token> := [];
    match v {
      case None =>
      case Some(PlainDoc(s)) =>
        StrLays(utf8, s);
        ts := [Text(s)];
      case Some(Markup(m)) =>
        MarkupLays(utf8, m);
        ts := [Text(m.kind), Text(m.value)];
    }
    var tag := if v.None? then 0 else if v.value.PlainDoc? then 1 else 2;
    assert [Number(tag)] + ts == OfDoc(v);
    OptEitherLays(StrC(utf8), MarkupC(utf8), FromDoc(v), ts);
    MapLays(OptEitherC(StrC(utf8), MarkupC(utf8)), ToDoc, FromDoc, v, OfDoc(v));
  }

  lemma DetailsLays(utf8: Utf8, d: LabelDetails)
    ensures Lays(DetailsC(utf8), d, OfDetails(d))
  {
    OptRefLays(utf8, d.detail);
    OptRefLays(utf8, d.description);
    PairLays(OptRefC(utf8), OptRefC(utf8), FromDetails(d), OptText(d.detail), OptText(d.description));
    MapLays(PairC(OptRefC(utf8), OptRefC(utf8)), ToDetails, FromDetails, d, OfDetails(d));
  }

  lemma CommandLays(utf8: Utf8, c: Command)
    ensures Lays(CommandC(utf8), c, OfCommand(c))
  {
    StrLays(utf8, c.title);
    OptRefLays(utf8, c.tooltip);
    StrLays(utf8, c.command);
    OptRefLays(AnyBytes, c.arguments);
    FourLays(StrC(utf8), OptRefC(utf8), StrC(utf8), OptRefC(AnyBytes), FromCommand(c),
             [[Text(c.title)], OptText(c.tooltip), [Text(c.command)], OptText(c.arguments)]);
    MapLays(FourC(StrC(utf8), OptRefC(utf8), StrC(utf8), OptRefC(AnyBytes)), ToCommand, FromCommand, c, OfCommand(c));
  }

  // ---------------------------------------------------------------------------
  // Optional values
  // ---------------------------------------------------------------------------

  /** A zero, or a one and the value. */
  function Opt<T>(tokens: T -> seq<Token>, v: Option<T>): seq<Token> {
    Optional(if v.None? then None else Some(tokens(v.value)))
  }

  function OptList<T>(tokens: T -> seq<Token>, v: Option<seq<T>>): seq<Token> {
    Optional(if v.None? then None else Some(Listed(tokens, v.value)))
  }

  lemma OptLays<T(!new)>(c: Codec<T>, tokens: T -> seq<Token>, v: Option<T>)
    requires v.Some? ==> Lays(c, v.value, tokens(v.value))
    ensures Lays(FlagC(c), v, Opt(tokens, v))
  {
    FlagLays(c, v, if v.None? then None else Some(tokens(v.value)));
  }

  lemma OptListLays<T(!new)>(c: Codec<T>, tokens: T -> seq<Token>, v: Option<seq<T>>)
    requires v.Some? ==> LaysEach(c, tokens, v.value)
    ensures Lays(FlagC(ListC(c)), v, OptList(tokens, v))
  {
    if v.Some? {
      ListLays(c, tokens, v.value);
    }
    FlagLays(ListC(c), v, if v.None? then None else Some(Listed(tokens, v.value)));
  }

  lemma OptTagsLay(tags: Option<seq<i32>>)
    ensures Lays(FlagC(ListC(IntC())), tags, OptList(OfInt, tags))
  {
    forall i: i32 ensures Lays(IntC(), i, OfInt(i)) {
      IntLays(i);
    }
    OptListLays(IntC(), OfInt, tags);
  }

  lemma OptEditsLay(utf8: Utf8, edits: Option<seq<TextEdit>>)
    ensures Lays(FlagC(ListC(TextEditC(utf8))), edits, OptList(OfTextEdit, edits))
  {
    forall e ensures Lays(TextEditC(utf8), e, OfTextEdit(e)) {
      TextEditLays(utf8, e);
    }
    OptListLays(TextEditC(utf8), OfTextEdit, edits);
  }

  lemma OptStringsLay(utf8: Utf8, strings: Option<seq<Str>>)
    ensures Lays(FlagC(ListC(StrC(utf8))), strings, OptList(OfText, strings))
  {
    forall s ensures Lays(StrC(utf8), s, OfText(s)) {
      StrLays(utf8, s);
    }
    OptListLays(StrC(utf8), OfText, strings);
  }

  // ---------------------------------------------------------------------------
  // Items
  // ---------------------------------------------------------------------------

  function HeadParts(i: CompletionItem): seq<seq<Token>> {
    [[Text(i.labelText)], Opt(OfDetails, i.labelDetails), OptInt(i.kind), OptList(OfInt, i.tags), OptText(i.detail)]
  }

  function DocParts(i: CompletionItem): seq<seq<Token>> {
    [OfDoc(i.documentation), OptFlag(i.deprecated), OptFlag(i.preselect), OptText(i.sortText), OptText(i.filterText)]
  }

  function InsertParts(i: CompletionItem): seq<seq<Token>> {
    [OptText(i.insertText), OptInt(i.insertTextFormat), OptInt(i.insertTextMode), Opt(OfEdit, i.textEdit), OptText(i.textEditText)]
  }

  function TailParts(i: CompletionItem): seq<seq<Token>> {
    [OptList(OfTextEdit, i.additionalTextEdits), OptList(OfText, i.commitCharacters), Opt(OfCommand, i.command), OptText(i.data)]
  }

  /** An item, field by field. */
  function OfItem(i: CompletionItem): seq<Token> {
    Joined(HeadParts(i) + DocParts(i) + InsertParts(i) + TailParts(i))
  }

  lemma HeadLays(utf8: Utf8, i: CompletionItem)
    ensures Lays(HeadC(utf8), HeadOf(i), Joined(HeadParts(i)))
  {
    StrLays(utf8, i.labelText);
    if i.labelDetails.Some? {
      DetailsLays(utf8, i.labelDetails.value);
    }
    OptLays(DetailsC(utf8), OfDetails, i.labelDetails);
    OptIntLays(i.kind);
    OptTagsLay(i.tags);
    OptRefLays(utf8, i.detail);
    FiveLays(StrC(utf8), FlagC(DetailsC(utf8)), OptIntC(), FlagC(ListC(IntC())), OptRefC(utf8), HeadOf(i), HeadParts(i));
  }

  lemma DocsLay(utf8: Utf8, i: CompletionItem)
    ensures Lays(DocsC(utf8), DocsOf(i), Joined(DocParts(i)))
  {
    OptDocLays(utf8, i.documentation);
    OptBoolLays(i.deprecated);
    OptBoolLays(i.preselect);
    OptRefLays(utf8, i.sortText);
    OptRefLays(utf8, i.filterText);
    FiveLays(OptDocC(utf8), OptBoolC(), OptBoolC(), OptRefC(utf8), OptRefC(utf8), DocsOf(i), DocParts(i));
  }

  lemma InsertsLay(utf8: Utf8, i: CompletionItem)
    ensures Lays(InsertsC(utf8), InsertsOf(i), Joined(InsertParts(i)))
  {
    OptRefLays(utf8, i.insertText);
    OptIntLays(i.insertTextFormat);
    OptIntLays(i.insertTextMode);
    if i.textEdit.Some? {
      EditLays(utf8, i.textEdit.value);
    }
    OptLays(EditC(utf8), OfEdit, i.textEdit);
    OptRefLays(utf8, i.textEditText);
    FiveLays(OptRefC(utf8), OptIntC(), OptIntC(), FlagC(EditC(utf8)), OptRefC(utf8), InsertsOf(i), InsertParts(i));
  }

  lemma TailLays(utf8: Utf8, i: CompletionItem)
    ensures Lays(TailC(utf8), TailOf(i), Joined(TailParts(i)))
  {
    OptEditsLay(utf8, i.additionalTextEdits);
    OptStringsLay(utf8, i.commitCharacters);
    if i.command.Some? {
      CommandLays(utf8, i.command.value);
    }
    OptLays(CommandC(utf8), OfCommand, i.command);
    OptRefLays(AnyBytes, i.data);
    FourLays(FlagC(ListC(TextEditC(utf8))), FlagC(ListC(StrC(utf8))), FlagC(CommandC(utf8)), OptRefC(AnyBytes),
             TailOf(i), TailParts(i));
  }

  lemma FourAssoc(x: seq<Token>, y: seq<Token>, z: seq<Token>, w: seq<Token>)
    ensures x + y + z + w == x + (y + (z + w))
  {
  }

  lemma JoinFourStretches(a: seq<seq<Token>>, b: seq<seq<Token>>, c: seq<seq<Token>>, d: seq<seq<Token>>, ps: seq<seq<Token>>)
    requires |ps| == 4 && ps[0] == Joined(a) && ps[1] == Joined(b) && ps[2] == Joined(c) && ps[3] == Joined(d)
    ensures Joined(a + b + c + d) == Joined(ps)
  {
    JoinedAppend(a + b + c, d);
    JoinedAppend(a + b, c);
    JoinedAppend(a, b);
    FourAssoc(ps[0], ps[1], ps[2], ps[3]);
    JoinedFour(ps);
  }

  lemma ItemLays(utf8: Utf8, i: CompletionItem)
    ensures Lays(ItemC(utf8), i, OfItem(i))
  {
    var ps := [Joined(HeadParts(i)), Joined(DocParts(i)), Joined(InsertParts(i)), Joined(TailParts(i))];
    HeadLays(utf8, i);
    DocsLay(utf8, i);
    InsertsLay(utf8, i);
    TailLays(utf8, i);
    FourLays(HeadC(utf8), DocsC(utf8), InsertsC(utf8), TailC(utf8), FromItem(i), ps);
    JoinFourStretches(HeadParts(i), DocParts(i), InsertParts(i), TailParts(i), ps);
    MapLays(FourC(HeadC(utf8), DocsC(utf8), InsertsC(utf8), TailC(utf8)), ToItem, FromItem, i, OfItem(i));
  }

  // ---------------------------------------------------------------------------
  // Lists
  // ---------------------------------------------------------------------------

  function OfEditRange(v: Option<EditRange>): seq<Token> {
    match v
    case None => [Number(0)]
    case Some(OneRange(r)) => [Number(1)] + OfRng(r)
    case Some(InsertReplaceRange(i, r)) => [Number(2)] + (OfRng(i) + OfRng(r))
  }

  function OfDefaults(d: ItemDefaults): seq<Token> {
    Joined([OptList(OfText, d.commitCharacters), OfEditRange(d.editRange), OptInt(d.insertTextFormat),
            OptInt(d.insertTextMode), OptText(d.data)])
  }

  function OfApply(a: ApplyKind): seq<Token> {
    OptInt(a.commitCharacters) + OptInt(a.data)
  }

  function OfList(l: CompletionList): seq<Token> {
    Joined([[Flag(l.isIncomplete)], Opt(OfDefaults, l.itemDefaults), Opt(OfApply, l.applyKind), Listed(OfItem, l.items)])
  }

  lemma OptEditRangeLays(v: Option<EditRange>)
    ensures Lays(OptEditRangeC(), v, OfEditRange(v))
  {
    var ts: seq<Token> := [];
    match v {
      case None =>
      case Some(OneRange(r)) =>
        RngLays(r);
        ts := OfRng(r);
      case Some(InsertReplaceRange(i, r)) =>
        RngLays(i);
        RngLays(r);
        PairLays(RngC(), RngC(), (i, r), OfRng(i), OfRng(r));
        ts := OfRng(i) + OfRng(r);
    }
    var tag := if v.None? then 0 else if v.value.OneRange? then 1 else 2;
    assert [Number(tag)] + ts == OfEditRange(v);
    OptEitherLays(RngC(), PairC(RngC(), RngC()), FromEditRange(v), ts);
    MapLays(OptEitherC(RngC(), PairC(RngC(), RngC())), ToEditRange, FromEditRange, v, OfEditRange(v));
  }

  lemma DefaultsLay(utf8: Utf8, d: ItemDefaults)
    ensures Lays(DefaultsC(utf8), d, OfDefaults(d))
  {
    OptStringsLay(utf8, d.commitCharacters);
    OptEditRangeLays(d.editRange);
    OptIntLays(d.insertTextFormat);
    OptIntLays(d.insertTextMode);
    OptRefLays(AnyBytes, d.data);
    FiveLays(FlagC(ListC(StrC(utf8))), OptEditRangeC(), OptIntC(), OptIntC(), OptRefC(AnyBytes), FromDefaults(d),
             [OptList(OfText, d.commitCharacters), OfEditRange(d.editRange), OptInt(d.insertTextFormat),
              OptInt(d.insertTextMode), OptText(d.data)]);
    MapLays(FiveC(FlagC(ListC(StrC(utf8))), OptEditRangeC(), OptIntC(), OptIntC(), OptRefC(AnyBytes)),
            ToDefaults, FromDefaults, d, OfDefaults(d));
  }

  lemma ApplyLays(a: ApplyKind)
    ensures Lays(ApplyC(), a, OfApply(a))
  {
    OptIntLays(a.commitCharacters);
    OptIntLays(a.data);
    PairLays(OptIntC(), OptIntC(), FromApply(a), OptInt(a.commitCharacters), OptInt(a.data));
    MapLays(PairC(OptIntC(), OptIntC()), ToApply, FromApply, a, OfApply(a));
  }

  lemma OptDefaultsLay(utf8: Utf8, v: Option<ItemDefaults>)
    ensures Lays(FlagC(DefaultsC(utf8)), v, Opt(OfDefaults, v))
  {
    if v.Some? {
      DefaultsLay(utf8, v.value);
    }
    OptLays(DefaultsC(utf8), OfDefaults, v);
  }

  lemma OptApplyLays(v: Option<ApplyKind>)
    ensures Lays(FlagC(ApplyC()), v, Opt(OfApply, v))
  {
    if v.Some? {
      ApplyLays(v.value);
    }
    OptLays(ApplyC(), OfApply, v);
  }

  lemma ItemsLay(utf8: Utf8, items: seq<CompletionItem>)
    ensures Lays(ListC(ItemC(utf8)), items, Listed(OfItem, items))
  {
    forall i ensures Lays(ItemC(utf8), i, OfItem(i)) {
      ItemLays(utf8, i);
    }
    ListLays(ItemC(utf8), OfItem, items);
  }

  lemma CompletionListLays(utf8: Utf8, l: CompletionList)
    ensures Lays(CompletionListC(utf8), l, OfList(l))
  {
    BoolLays(l.isIncomplete);
    OptDefaultsLay(utf8, l.itemDefaults);
    OptApplyLays(l.applyKind);
    ItemsLay(utf8, l.items);
    FourLays(BoolC(), FlagC(DefaultsC(utf8)), FlagC(ApplyC()), ListC(ItemC(utf8)), FromList(l),
             [[Flag(l.isIncomplete)], Opt(OfDefaults, l.itemDefaults), Opt(OfApply, l.applyKind), Listed(OfItem, l.items)]);
    MapLays(FourC(BoolC(), FlagC(DefaultsC(utf8)), FlagC(ApplyC()), ListC(ItemC(utf8))), ToList, FromList, l, OfList(l));
  }

  /** Every byte of an encoded completion list, which is of kind 6; it can be encoded exactly if every number
      in it, its own lengths included, fits 32 bits. */
  lemma EncodedList(utf8: Utf8, l: CompletionList)
    ensures EncodeList(utf8, l).Ok? <==> AllNarrow(PayloadWords(6, OfList(l)))
    ensures EncodeList(utf8, l).Ok? ==> IsPayload(EncodeList(utf8, l).value, 6, OfList(l))
    ensures EncodeList(utf8, l).Err? ==> EncodeList(utf8, l).error == TooLarge
  {
    CompletionListLays(utf8, l);
    EncodeMeans(CompletionListC(utf8), KIND_COMPLETION_LIST, l, OfList(l));
  }
}
