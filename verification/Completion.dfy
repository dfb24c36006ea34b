/**
  * The completion response across the compiler boundary: every optional scalar, nullable list and
  * variant of a completion list, as codecs.
  */
module Completion {
  import opened Options
  import opened Words
  import opened AbiCodec

  const KIND_COMPLETION_LIST: u32 := 6

  datatype Rng = Rng(startLine: u32, startCharacter: u32, endLine: u32, endCharacter: u32)

  datatype TextEdit = TextEdit(range: Rng, newText: Str)

  datatype InsertReplaceEdit = InsertReplaceEdit(newText: Str, insert: Rng, replace: Rng)

  datatype CompletionEdit = PlainEdit(edit: TextEdit) | InsertReplace(both: InsertReplaceEdit)

  datatype MarkupContent = MarkupContent(kind: Str, value: Str)

  datatype Documentation = PlainDoc(text: Str) | Markup(content: MarkupContent)

  datatype LabelDetails = LabelDetails(detail: Option<Str>, description: Option<Str>)

  datatype Command = Command(title: Str, tooltip: Option<Str>, command: Str, arguments: Option<Str>)

  datatype CompletionItem = CompletionItem(
    labelText: Str, labelDetails: Option<LabelDetails>, kind: Option<i32>, tags: Option<seq<i32>>, detail: Option<Str>,
    documentation: Option<Documentation>, deprecated: Option<bool>, preselect: Option<bool>,
    sortText: Option<Str>, filterText: Option<Str>,
    insertText: Option<Str>, insertTextFormat: Option<i32>, insertTextMode: Option<i32>,
    textEdit: Option<CompletionEdit>, textEditText: Option<Str>,
    additionalTextEdits: Option<seq<TextEdit>>, commitCharacters: Option<seq<Str>>, command: Option<Command>,
    data: Option<Str>)

  datatype EditRange = OneRange(range: Rng) | InsertReplaceRange(insert: Rng, replace: Rng)

  datatype ItemDefaults = ItemDefaults(commitCharacters: Option<seq<Str>>, editRange: Option<EditRange>,
                                       insertTextFormat: Option<i32>, insertTextMode: Option<i32>, data: Option<Str>)

  datatype ApplyKind = ApplyKind(commitCharacters: Option<i32>, data: Option<i32>)

  datatype CompletionList = CompletionList(isIncomplete: bool, itemDefaults: Option<ItemDefaults>,
                                           applyKind: Option<ApplyKind>, items: seq<CompletionItem>)

  // ---------------------------------------------------------------------------
  // Records
  // ---------------------------------------------------------------------------

  function ToRng(t: Four<u32, u32, u32, u32>): Rng {
    Rng(t.0, t.1.0, t.1.1.0, t.1.1.1)
  }

  function FromRng(r: Rng): Four<u32, u32, u32, u32> {
    (r.startLine, (r.startCharacter, (r.endLine, r.endCharacter)))
  }

  function RngC(): Codec<Rng> {
    MapC(FourC(WordC(), WordC(), WordC(), WordC()), ToRng, FromRng)
  }

  lemma RngFaithful(r: Rng)
    ensures Faithful(RngC(), r) && TakesAWord(RngC(), r)
  {
    WordFaithful(r.startLine);
    WordFaithful(r.startCharacter);
    WordFaithful(r.endLine);
    WordFaithful(r.endCharacter);
    FourFaithful(WordC(), WordC(), WordC(), WordC(), FromRng(r));
    MapFaithful(FourC(WordC(), WordC(), WordC(), WordC()), ToRng, FromRng, r);
  }

  function ToTextEdit(t: (Rng, Str)): TextEdit {
    TextEdit(t.0, t.1)
  }

  function FromTextEdit(e: TextEdit): (Rng, Str) {
    (e.range, e.newText)
  }

  function TextEditC(utf8: Utf8): Codec<TextEdit> {
    MapC(PairC(RngC(), StrC(utf8)), ToTextEdit, FromTextEdit)
  }

  lemma TextEditFaithful(utf8: Utf8, e: TextEdit)
    requires utf8(e.newText)
    ensures Faithful(TextEditC(utf8), e) && TakesAWord(TextEditC(utf8), e)
  {
    RngFaithful(e.range);
    StrFaithful(utf8, e.newText);
    PairFaithful(RngC(), StrC(utf8), FromTextEdit(e));
    MapFaithful(PairC(RngC(), StrC(utf8)), ToTextEdit, FromTextEdit, e);
    forall base: nat ensures |TextEditC(utf8).enc(e, base).body| >= 4 {
      assert |RngC().enc(e.range, base).body| >= 4;
    }
  }

  function ToBoth(t: (Str, (Rng, Rng))): InsertReplaceEdit {
    InsertReplaceEdit(t.0, t.1.0, t.1.1)
  }

  function FromBoth(e: InsertReplaceEdit): (Str, (Rng, Rng)) {
    (e.newText, (e.insert, e.replace))
  }

  function BothC(utf8: Utf8): Codec<InsertReplaceEdit> {
    MapC(PairC(StrC(utf8), PairC(RngC(), RngC())), ToBoth, FromBoth)
  }

  function ToEdit(v: Either<TextEdit, InsertReplaceEdit>): CompletionEdit {
    match v case Left(e) => PlainEdit(e) case Right(e) => InsertReplace(e)
  }

  function FromEdit(v: CompletionEdit): Either<TextEdit, InsertReplaceEdit> {
    match v case PlainEdit(e) => Left(e) case InsertReplace(e) => Right(e)
  }

  function EditC(utf8: Utf8): Codec<CompletionEdit> {
    MapC(EitherC(TextEditC(utf8), BothC(utf8)), ToEdit, FromEdit)
  }

  predicate ValidEdit(utf8: Utf8, e: CompletionEdit) {
    match e case PlainEdit(x) => utf8(x.newText) case InsertReplace(x) => utf8(x.newText)
  }

  lemma EditFaithful(utf8: Utf8, v: CompletionEdit)
    requires ValidEdit(utf8, v)
    ensures Faithful(EditC(utf8), v)
  {
    match v {
      case PlainEdit(e) => TextEditFaithful(utf8, e);
      case InsertReplace(e) =>
        StrFaithful(utf8, e.newText);
        RngFaithful(e.insert);
        RngFaithful(e.replace);
        PairFaithful(RngC(), RngC(), (e.insert, e.replace));
        PairFaithful(StrC(utf8), PairC(RngC(), RngC()), FromBoth(e));
        MapFaithful(PairC(StrC(utf8), PairC(RngC(), RngC())), ToBoth, FromBoth, e);
    }
    EitherCFaithful(TextEditC(utf8), BothC(utf8), FromEdit(v));
    MapFaithful(EitherC(TextEditC(utf8), BothC(utf8)), ToEdit, FromEdit, v);
  }

  function ToMarkup(t: (Str, Str)): MarkupContent {
    MarkupContent(t.0, t.1)
  }

  function FromMarkup(m: MarkupContent): (Str, Str) {
    (m.kind, m.value)
  }

  function MarkupC(utf8: Utf8): Codec<MarkupContent> {
    MapC(PairC(StrC(utf8), StrC(utf8)), ToMarkup, FromMarkup)
  }

  function ToDoc(v: Option<Either<Str, MarkupContent>>): Option<Documentation> {
    match v case None => None case Some(Left(s)) => Some(PlainDoc(s)) case Some(Right(m)) => Some(Markup(m))
  }

  function FromDoc(v: Option<Documentation>): Option<Either<Str, MarkupContent>> {
    match v case None => None case Some(PlainDoc(s)) => Some(Left(s)) case Some(Markup(m)) => Some(Right(m))
  }

  function OptDocC(utf8: Utf8): Codec<Option<Documentation>> {
    MapC(OptEitherC(StrC(utf8), MarkupC(utf8)), ToDoc, FromDoc)
  }

  predicate ValidDoc(utf8: Utf8, v: Option<Documentation>) {
    match v
    case None => true
    case Some(PlainDoc(s)) => utf8(s)
    case Some(Markup(m)) => utf8(m.kind) && utf8(m.value)
  }

  lemma OptDocFaithful(utf8: Utf8, v: Option<Documentation>)
    requires ValidDoc(utf8, v)
    ensures Faithful(OptDocC(utf8), v)
  {
    match v {
      case None =>
      case Some(PlainDoc(s)) => StrFaithful(utf8, s);
      case Some(Markup(m)) =>
        StrFaithful(utf8, m.kind);
        StrFaithful(utf8, m.value);
        PairFaithful(StrC(utf8), StrC(utf8), FromMarkup(m));
        MapFaithful(PairC(StrC(utf8), StrC(utf8)), ToMarkup, FromMarkup, m);
    }
    OptEitherCFaithful(StrC(utf8), MarkupC(utf8), FromDoc(v));
    MapFaithful(OptEitherC(StrC(utf8), MarkupC(utf8)), ToDoc, FromDoc, v);
  }

  predicate ValidOpt(utf8: Utf8, v: Option<Str>) {
    v.Some? ==> utf8(v.value)
  }

  predicate ValidStrings(utf8: Utf8, v: Option<seq<Str>>) {
    v.Some? ==> forall s | s in v.value :: utf8(s)
  }

  function ToDetails(t: (Option<Str>, Option<Str>)): LabelDetails {
    LabelDetails(t.0, t.1)
  }

  function FromDetails(d: LabelDetails): (Option<Str>, Option<Str>) {
    (d.detail, d.description)
  }

  function DetailsC(utf8: Utf8): Codec<LabelDetails> {
    MapC(PairC(OptRefC(utf8), OptRefC(utf8)), ToDetails, FromDetails)
  }

  lemma OptDetailsFaithful(utf8: Utf8, v: Option<LabelDetails>)
    requires v.Some? ==> ValidOpt(utf8, v.value.detail) && ValidOpt(utf8, v.value.description)
    ensures Faithful(FlagC(DetailsC(utf8)), v)
  {
    if v.Some? {
      OptRefFaithful(utf8, v.value.detail);
      OptRefFaithful(utf8, v.value.description);
      PairFaithful(OptRefC(utf8), OptRefC(utf8), FromDetails(v.value));
      MapFaithful(PairC(OptRefC(utf8), OptRefC(utf8)), ToDetails, FromDetails, v.value);
    }
    FlagFaithful(DetailsC(utf8), v);
  }

  function ToCommand(t: Four<Str, Option<Str>, Str, Option<Str>>): Command {
    Command(t.0, t.1.0, t.1.1.0, t.1.1.1)
  }

  function FromCommand(c: Command): Four<Str, Option<Str>, Str, Option<Str>> {
    (c.title, (c.tooltip, (c.command, c.arguments)))
  }

  function CommandC(utf8: Utf8): Codec<Command> {
    MapC(FourC(StrC(utf8), OptRefC(utf8), StrC(utf8), OptRefC(AnyBytes)), ToCommand, FromCommand)
  }

  predicate ValidCommand(utf8: Utf8, v: Option<Command>) {
    v.Some? ==> utf8(v.value.title) && ValidOpt(utf8, v.value.tooltip) && utf8(v.value.command)
  }

  lemma OptCommandFaithful(utf8: Utf8, v: Option<Command>)
    requires ValidCommand(utf8, v)
    ensures Faithful(FlagC(CommandC(utf8)), v)
  {
    if v.Some? {
      var c := v.value;
      StrFaithful(utf8, c.title);
      OptRefFaithful(utf8, c.tooltip);
      StrFaithful(utf8, c.command);
      OptRefFaithful(AnyBytes, c.arguments);
      FourFaithful(StrC(utf8), OptRefC(utf8), StrC(utf8), OptRefC(AnyBytes), FromCommand(c));
      MapFaithful(FourC(StrC(utf8), OptRefC(utf8), StrC(utf8), OptRefC(AnyBytes)), ToCommand, FromCommand, c);
    }
    FlagFaithful(CommandC(utf8), v);
  }

  lemma OptListsFaithful(utf8: Utf8, tags: Option<seq<i32>>, edits: Option<seq<TextEdit>>, strings: Option<seq<Str>>)
    requires edits.Some? ==> forall e | e in edits.value :: utf8(e.newText)
    requires ValidStrings(utf8, strings)
    ensures Faithful(FlagC(ListC(IntC())), tags)
    ensures Faithful(FlagC(ListC(TextEditC(utf8))), edits)
    ensures Faithful(FlagC(ListC(StrC(utf8))), strings)
  {
    if tags.Some? {
      forall i | i in tags.value ensures Faithful(IntC(), i) && TakesAWord(IntC(), i) {
        ScalarsFaithful(i, false, None, None);
      }
      ListFaithful(IntC(), tags.value);
    }
    if edits.Some? {
      forall e | e in edits.value ensures Faithful(TextEditC(utf8), e) && TakesAWord(TextEditC(utf8), e) {
        TextEditFaithful(utf8, e);
      }
      ListFaithful(TextEditC(utf8), edits.value);
    }
    if strings.Some? {
      forall s | s in strings.value ensures Faithful(StrC(utf8), s) && TakesAWord(StrC(utf8), s) {
        StrFaithful(utf8, s);
      }
      ListFaithful(StrC(utf8), strings.value);
    }
    FlagFaithful(ListC(IntC()), tags);
    FlagFaithful(ListC(TextEditC(utf8)), edits);
    FlagFaithful(ListC(StrC(utf8)), strings);
  }

  // ---------------------------------------------------------------------------
  // Completion items, in four stretches of their nineteen fields
  // ---------------------------------------------------------------------------

  type Head = Five<Str, Option<LabelDetails>, Option<i32>, Option<seq<i32>>, Option<Str>>
  type Docs = Five<Option<Documentation>, Option<bool>, Option<bool>, Option<Str>, Option<Str>>
  type Inserts = Five<Option<Str>, Option<i32>, Option<i32>, Option<CompletionEdit>, Option<Str>>
  type Tail = Four<Option<seq<TextEdit>>, Option<seq<Str>>, Option<Command>, Option<Str>>

  function HeadC(utf8: Utf8): Codec<Head> {
    FiveC(StrC(utf8), FlagC(DetailsC(utf8)), OptIntC(), FlagC(ListC(IntC())), OptRefC(utf8))
  }

  function DocsC(utf8: Utf8): Codec<Docs> {
    FiveC(OptDocC(utf8), OptBoolC(), OptBoolC(), OptRefC(utf8), OptRefC(utf8))
  }

  function InsertsC(utf8: Utf8): Codec<Inserts> {
    FiveC(OptRefC(utf8), OptIntC(), OptIntC(), FlagC(EditC(utf8)), OptRefC(utf8))
  }

  function TailC(utf8: Utf8): Codec<Tail> {
    FourC(FlagC(ListC(TextEditC(utf8))), FlagC(ListC(StrC(utf8))), FlagC(CommandC(utf8)), OptRefC(AnyBytes))
  }

  function HeadOf(i: CompletionItem): Head {
    (i.labelText, (i.labelDetails, (i.kind, (i.tags, i.detail))))
  }

  function DocsOf(i: CompletionItem): Docs {
    (i.documentation, (i.deprecated, (i.preselect, (i.sortText, i.filterText))))
  }

  function InsertsOf(i: CompletionItem): Inserts {
    (i.insertText, (i.insertTextFormat, (i.insertTextMode, (i.textEdit, i.textEditText))))
  }

  function TailOf(i: CompletionItem): Tail {
    (i.additionalTextEdits, (i.commitCharacters, (i.command, i.data)))
  }

  function FromItem(i: CompletionItem): Four<Head, Docs, Inserts, Tail> {
    (HeadOf(i), (DocsOf(i), (InsertsOf(i), TailOf(i))))
  }

  function ToItem(t: Four<Head, Docs, Inserts, Tail>): CompletionItem {
    var (h, (d, (x, l))) := t;
    CompletionItem(h.0, h.1.0, h.1.1.0, h.1.1.1.0, h.1.1.1.1,
                   d.0, d.1.0, d.1.1.0, d.1.1.1.0, d.1.1.1.1,
                   x.0, x.1.0, x.1.1.0, x.1.1.1.0, x.1.1.1.1,
                   l.0, l.1.0, l.1.1.0, l.1.1.1)
  }

  function ItemC(utf8: Utf8): Codec<CompletionItem> {
    MapC(FourC(HeadC(utf8), DocsC(utf8), InsertsC(utf8), TailC(utf8)), ToItem, FromItem)
  }

  /** All strings of the item are valid UTF-8; opaque bytes are free. */
  predicate ValidItem(utf8: Utf8, i: CompletionItem) {
    && utf8(i.labelText) && (i.labelDetails.Some? ==>
                               ValidOpt(utf8, i.labelDetails.value.detail) && ValidOpt(utf8, i.labelDetails.value.description))
    && ValidOpt(utf8, i.detail) && ValidDoc(utf8, i.documentation)
    && ValidOpt(utf8, i.sortText) && ValidOpt(utf8, i.filterText)
    && ValidOpt(utf8, i.insertText) && (i.textEdit.Some? ==> ValidEdit(utf8, i.textEdit.value)) && ValidOpt(utf8, i.textEditText)
    && (i.additionalTextEdits.Some? ==> forall e | e in i.additionalTextEdits.value :: utf8(e.newText))
    && ValidStrings(utf8, i.commitCharacters) && ValidCommand(utf8, i.command)
  }

  lemma HeadFaithful(utf8: Utf8, i: CompletionItem)
    requires ValidItem(utf8, i)
    ensures Faithful(HeadC(utf8), HeadOf(i))
  {
    StrFaithful(utf8, i.labelText);
    OptDetailsFaithful(utf8, i.labelDetails);
    ScalarsFaithful(0, false, i.kind, None);
    OptListsFaithful(utf8, i.tags, None, None);
    OptRefFaithful(utf8, i.detail);
    FiveFaithful(StrC(utf8), FlagC(DetailsC(utf8)), OptIntC(), FlagC(ListC(IntC())), OptRefC(utf8), HeadOf(i));
  }

  lemma DocsFaithful(utf8: Utf8, i: CompletionItem)
    requires ValidItem(utf8, i)
    ensures Faithful(DocsC(utf8), DocsOf(i))
  {
    OptDocFaithful(utf8, i.documentation);
    ScalarsFaithful(0, false, None, i.deprecated);
    ScalarsFaithful(0, false, None, i.preselect);
    OptRefFaithful(utf8, i.sortText);
    OptRefFaithful(utf8, i.filterText);
    FiveFaithful(OptDocC(utf8), OptBoolC(), OptBoolC(), OptRefC(utf8), OptRefC(utf8), DocsOf(i));
  }

  lemma InsertsFaithful(utf8: Utf8, i: CompletionItem)
    requires ValidItem(utf8, i)
    ensures Faithful(InsertsC(utf8), InsertsOf(i))
  {
    OptRefFaithful(utf8, i.insertText);
    ScalarsFaithful(0, false, i.insertTextFormat, None);
    ScalarsFaithful(0, false, i.insertTextMode, None);
    if i.textEdit.Some? {
      EditFaithful(utf8, i.textEdit.value);
    }
    FlagFaithful(EditC(utf8), i.textEdit);
    OptRefFaithful(utf8, i.textEditText);
    FiveFaithful(OptRefC(utf8), OptIntC(), OptIntC(), FlagC(EditC(utf8)), OptRefC(utf8), InsertsOf(i));
  }

  lemma TailFaithful(utf8: Utf8, i: CompletionItem)
    requires ValidItem(utf8, i)
    ensures Faithful(TailC(utf8), TailOf(i))
  {
    OptListsFaithful(utf8, None, i.additionalTextEdits, i.commitCharacters);
    OptCommandFaithful(utf8, i.command);
    OptRefFaithful(AnyBytes, i.data);
    FourFaithful(FlagC(ListC(TextEditC(utf8))), FlagC(ListC(StrC(utf8))), FlagC(CommandC(utf8)), OptRefC(AnyBytes), TailOf(i));
  }

  lemma ItemFaithful(utf8: Utf8, i: CompletionItem)
    requires ValidItem(utf8, i)
    ensures Faithful(ItemC(utf8), i) && TakesAWord(ItemC(utf8), i)
  {
    HeadFaithful(utf8, i);
    DocsFaithful(utf8, i);
    InsertsFaithful(utf8, i);
    TailFaithful(utf8, i);
    FourFaithful(HeadC(utf8), DocsC(utf8), InsertsC(utf8), TailC(utf8), FromItem(i));
    MapFaithful(FourC(HeadC(utf8), DocsC(utf8), InsertsC(utf8), TailC(utf8)), ToItem, FromItem, i);
  }

  // ---------------------------------------------------------------------------
  // Completion lists
  // ---------------------------------------------------------------------------

  function ToEditRange(v: Option<Either<Rng, (Rng, Rng)>>): Option<EditRange> {
    match v case None => None case Some(Left(r)) => Some(OneRange(r)) case Some(Right(p)) => Some(InsertReplaceRange(p.0, p.1))
  }

  function FromEditRange(v: Option<EditRange>): Option<Either<Rng, (Rng, Rng)>> {
    match v case None => None case Some(OneRange(r)) => Some(Left(r)) case Some(InsertReplaceRange(i, r)) => Some(Right((i, r)))
  }

  function OptEditRangeC(): Codec<Option<EditRange>> {
    MapC(OptEitherC(RngC(), PairC(RngC(), RngC())), ToEditRange, FromEditRange)
  }

  lemma OptEditRangeFaithful(v: Option<EditRange>)
    ensures Faithful(OptEditRangeC(), v)
  {
    match v {
      case None =>
      case Some(OneRange(r)) => RngFaithful(r);
      case Some(InsertReplaceRange(i, r)) =>
        RngFaithful(i);
        RngFaithful(r);
        PairFaithful(RngC(), RngC(), (i, r));
    }
    OptEitherCFaithful(RngC(), PairC(RngC(), RngC()), FromEditRange(v));
    MapFaithful(OptEitherC(RngC(), PairC(RngC(), RngC())), ToEditRange, FromEditRange, v);
  }

  type DefaultsTuple = Five<Option<seq<Str>>, Option<EditRange>, Option<i32>, Option<i32>, Option<Str>>

  function ToDefaults(t: DefaultsTuple): ItemDefaults {
    ItemDefaults(t.0, t.1.0, t.1.1.0, t.1.1.1.0, t.1.1.1.1)
  }

  function FromDefaults(d: ItemDefaults): DefaultsTuple {
    (d.commitCharacters, (d.editRange, (d.insertTextFormat, (d.insertTextMode, d.data))))
  }

  function DefaultsC(utf8: Utf8): Codec<ItemDefaults> {
    MapC(FiveC(FlagC(ListC(StrC(utf8))), OptEditRangeC(), OptIntC(), OptIntC(), OptRefC(AnyBytes)), ToDefaults, FromDefaults)
  }

  lemma OptDefaultsFaithful(utf8: Utf8, v: Option<ItemDefaults>)
    requires v.Some? ==> ValidStrings(utf8, v.value.commitCharacters)
    ensures Faithful(FlagC(DefaultsC(utf8)), v)
  {
    if v.Some? {
      var d := v.value;
      OptListsFaithful(utf8, None, None, d.commitCharacters);
      OptEditRangeFaithful(d.editRange);
      ScalarsFaithful(0, false, d.insertTextFormat, None);
      ScalarsFaithful(0, false, d.insertTextMode, None);
      OptRefFaithful(AnyBytes, d.data);
      FiveFaithful(FlagC(ListC(StrC(utf8))), OptEditRangeC(), OptIntC(), OptIntC(), OptRefC(AnyBytes), FromDefaults(d));
      MapFaithful(FiveC(FlagC(ListC(StrC(utf8))), OptEditRangeC(), OptIntC(), OptIntC(), OptRefC(AnyBytes)),
                  ToDefaults, FromDefaults, d);
    }
    FlagFaithful(DefaultsC(utf8), v);
  }

  function ToApply(t: (Option<i32>, Option<i32>)): ApplyKind {
    ApplyKind(t.0, t.1)
  }

  function FromApply(a: ApplyKind): (Option<i32>, Option<i32>) {
    (a.commitCharacters, a.data)
  }

  function ApplyC(): Codec<ApplyKind> {
    MapC(PairC(OptIntC(), OptIntC()), ToApply, FromApply)
  }

  lemma OptApplyFaithful(v: Option<ApplyKind>)
    ensures Faithful(FlagC(ApplyC()), v)
  {
    if v.Some? {
      ScalarsFaithful(0, false, v.value.commitCharacters, None);
      ScalarsFaithful(0, false, v.value.data, None);
      PairFaithful(OptIntC(), OptIntC(), FromApply(v.value));
      MapFaithful(PairC(OptIntC(), OptIntC()), ToApply, FromApply, v.value);
    }
    FlagFaithful(ApplyC(), v);
  }

  type ListTuple = Four<bool, Option<ItemDefaults>, Option<ApplyKind>, seq<CompletionItem>>

  function ToList(t: ListTuple): CompletionList {
    CompletionList(t.0, t.1.0, t.1.1.0, t.1.1.1)
  }

  function FromList(l: CompletionList): ListTuple {
    (l.isIncomplete, (l.itemDefaults, (l.applyKind, l.items)))
  }

  function CompletionListC(utf8: Utf8): Codec<CompletionList> {
    MapC(FourC(BoolC(), FlagC(DefaultsC(utf8)), FlagC(ApplyC()), ListC(ItemC(utf8))), ToList, FromList)
  }

  predicate ValidList(utf8: Utf8, l: CompletionList) {
    && (l.itemDefaults.Some? ==> ValidStrings(utf8, l.itemDefaults.value.commitCharacters))
    && (forall i | i in l.items :: ValidItem(utf8, i))
  }

  lemma CompletionListFaithful(utf8: Utf8, l: CompletionList)
    requires ValidList(utf8, l)
    ensures Faithful(CompletionListC(utf8), l)
  {
    ScalarsFaithful(0, l.isIncomplete, None, None);
    OptDefaultsFaithful(utf8, l.itemDefaults);
    OptApplyFaithful(l.applyKind);
    forall i | i in l.items ensures Faithful(ItemC(utf8), i) && TakesAWord(ItemC(utf8), i) {
      ItemFaithful(utf8, i);
    }
    ListFaithful(ItemC(utf8), l.items);
    FourFaithful(BoolC(), FlagC(DefaultsC(utf8)), FlagC(ApplyC()), ListC(ItemC(utf8)), FromList(l));
    MapFaithful(FourC(BoolC(), FlagC(DefaultsC(utf8)), FlagC(ApplyC()), ListC(ItemC(utf8))), ToList, FromList, l);
  }

  function EncodeList(utf8: Utf8, l: CompletionList): Result<seq<byte>, AbiError> {
    Encode(CompletionListC(utf8), KIND_COMPLETION_LIST, l)
  }

  function DecodeList(utf8: Utf8, buf: seq<byte>): Result<CompletionList, AbiError> {
    Decode(CompletionListC(utf8), KIND_COMPLETION_LIST, buf)
  }

  /** Whenever encoding a completion list succeeds, decoding the buffer gives the same list back. */
  lemma CompletionListRoundTrip(utf8: Utf8, l: CompletionList)
    requires ValidList(utf8, l) && EncodeList(utf8, l).Ok?
    ensures DecodeList(utf8, EncodeList(utf8, l).value) == Ok(l)
  {
    CompletionListFaithful(utf8, l);
    PayloadRoundTrip(CompletionListC(utf8), KIND_COMPLETION_LIST, l);
  }
}
