/**
  * The postings loop of ingest: every occurrence goes to the list of its document, to the definition or
  * the reference list of its alias group, and, when a rename may rewrite it, to the rename list.
  *
  * Whether the source token under an occurrence is the one a rename would rewrite is a parameter.
  */
module Ingest {
  import opened Options
  import opened Lookup
  import opened Slices
  import opened IndexModel
  import opened AliasGroups
  import opened Profiles
  import opened Symbols

  const DEFINITION: bv32 := 0x1
  const EDITABLE: bv32 := 0x2
  const GENERATED: bv32 := 0x4
  const READONLY: bv32 := 0x8
  const SYNTHETIC: bv32 := 0x10

  /** One indexed document: its batch document and what ingest knows about it. */
  datatype Primary = Primary(doc: Document, facts: DocFacts, epoch: int, targetOrd: nat)

  datatype GroupOcc = GroupOcc(docOrd: nat, epoch: int, targetOrd: nat, span: Span, flags: bv32)

  datatype DocOcc = DocOcc(symbolOrd: nat, span: Span, flags: bv32)

  function FlagIf(c: bool, bit: bv32): bv32 {
    if c then bit else 0
  }

  function FlagsFor(occ: Occurrence, facts: DocFacts): bv32 {
    FlagIf(occ.role.Definition?, DEFINITION)
    | FlagIf(facts.Editable(), EDITABLE)
    | FlagIf(facts.generated, GENERATED)
    | FlagIf(facts.readonly, READONLY)
    | FlagIf(occ.synthetic, SYNTHETIC)
  }

  /** Each flag says one thing, and there are no others. */
  predicate FlagsSay(flags: bv32, occ: Occurrence, facts: DocFacts) {
    && (flags & 0x1 != 0 <==> occ.role.Definition?)
    && (flags & 0x2 != 0 <==> !facts.generated && !facts.readonly && !facts.dependencySource)
    && (flags & 0x4 != 0 <==> facts.generated)
    && (flags & 0x8 != 0 <==> facts.readonly)
    && (flags & 0x10 != 0 <==> occ.synthetic)
    && flags & !0x1f == 0
  }

  lemma FlagsMean(occ: Occurrence, facts: DocFacts)
    ensures FlagsSay(FlagsFor(occ, facts), occ, facts)
  {
  }

  // ---------------------------------------------------------------------------
  // The stream of occurrences to file, and where each belongs
  // ---------------------------------------------------------------------------

  datatype Filing = Filing(docOrd: nat, occ: Occurrence, primary: Primary)

  function FileDoc(docOrd: nat, occs: seq<Occurrence>, p: Primary): seq<Filing> {
    if occs == [] then [] else FileDoc(docOrd, occs[..|occs| - 1], p) + [Filing(docOrd, occs[|occs| - 1], p)]
  }

  function FileAll(primaries: seq<Primary>): seq<Filing> {
    if primaries == [] then []
    else
      var last := |primaries| - 1;
      FileAll(primaries[..last]) + FileDoc(last, primaries[last].doc.occurrences, primaries[last])
  }

  function Posting(f: Filing): GroupOcc {
    GroupOcc(f.docOrd, f.primary.epoch, f.primary.targetOrd, f.occ.span, FlagsFor(f.occ, f.primary.facts))
  }

  /** The three ways of belonging to the lists of a group. */
  datatype Shelf = Defs | Refs | Renames

  type TokenTest = (nat, Occurrence) -> bool

  predicate Belongs(shelf: Shelf, index: map<SymbolKey, nat>, tokens: TokenTest, g: nat, f: Filing) {
    InGroup(index, g, f.occ.key)
    && match shelf
       case Defs => f.occ.role.Definition?
       case Refs => f.occ.role.Reference?
       case Renames => f.primary.facts.Editable() && !f.occ.synthetic && tokens(f.docOrd, f.occ)
  }

  /** The postings of one list of one group, in the order of the stream. */
  function Postings(shelf: Shelf, index: map<SymbolKey, nat>, tokens: TokenTest, g: nat, stream: seq<Filing>): seq<GroupOcc> {
    if stream == [] then []
    else
      var last := stream[|stream| - 1];
      var before := Postings(shelf, index, tokens, g, stream[..|stream| - 1]);
      if Belongs(shelf, index, tokens, g, last) then before + [Posting(last)] else before
  }

  function IsDefinitionOf(index: map<SymbolKey, nat>, g: nat): Filing -> bool {
    (f: Filing) => f.occ.key in index && index[f.occ.key] == g && f.occ.role.Definition?
  }

  function IsReferenceOf(index: map<SymbolKey, nat>, g: nat): Filing -> bool {
    (f: Filing) => f.occ.key in index && index[f.occ.key] == g && !f.occ.role.Definition?
  }

  function IsRenameableOf(index: map<SymbolKey, nat>, tokens: TokenTest, g: nat): Filing -> bool {
    (f: Filing) => && f.occ.key in index && index[f.occ.key] == g && !f.occ.synthetic && tokens(f.docOrd, f.occ)
                   && !f.primary.facts.generated && !f.primary.facts.readonly && !f.primary.facts.dependencySource
  }

  /** A posting carries where its occurrence is and what is known about it. */
  predicate PostingSays(o: GroupOcc, f: Filing) {
    && o.docOrd == f.docOrd && o.epoch == f.primary.epoch && o.targetOrd == f.primary.targetOrd
    && o.span == f.occ.span && FlagsSay(o.flags, f.occ, f.primary.facts)
  }

  /** The list holds the postings of exactly the filings that pass, in order. */
  ghost predicate ListSays(list: seq<GroupOcc>, stream: seq<Filing>, p: Filing -> bool) {
    ListsPicked(list, stream, p, PostingSays)
  }

  function ShelfTest(shelf: Shelf, index: map<SymbolKey, nat>, tokens: TokenTest, g: nat): Filing -> bool {
    match shelf
    case Defs => IsDefinitionOf(index, g)
    case Refs => IsReferenceOf(index, g)
    case Renames => IsRenameableOf(index, tokens, g)
  }

  lemma {:induction false} PostingsMean(shelf: Shelf, index: map<SymbolKey, nat>, tokens: TokenTest, g: nat, stream: seq<Filing>)
    ensures ListSays(Postings(shelf, index, tokens, g, stream), stream, ShelfTest(shelf, index, tokens, g))
    decreases |stream|
  {
    var p := ShelfTest(shelf, index, tokens, g);
    if stream == [] {
      NothingPicked(p, PostingSays);
    } else {
      var front, last := stream[..|stream| - 1], stream[|stream| - 1];
      assert front + [last] == stream;
      PostingsMean(shelf, index, tokens, g, front);
      FlagsMean(last.occ, last.primary.facts);
      ListsPickedNext(Postings(shelf, index, tokens, g, front), front, p, PostingSays, last, Posting(last));
    }
  }

  /** Each of the three lists of a group, without naming how it is computed. */
  ghost predicate ListsSay(ls: Lists, groups: AliasGroups, tokens: TokenTest, stream: seq<Filing>, g: nat) {
    && g < |ls.defs| && g < |ls.refs| && g < |ls.renames|
    && ListSays(ls.defs[g], stream, IsDefinitionOf(groups.refIndex, g))
    && ListSays(ls.refs[g], stream, IsReferenceOf(groups.refIndex, g))
    && ListSays(ls.renames[g], stream, IsRenameableOf(groups.renameIndex, tokens, g))
  }

  lemma {:induction false} GroupPostedSays(ls: Lists, groups: AliasGroups, tokens: TokenTest, stream: seq<Filing>, g: nat)
    requires g < |ls.defs| && g < |ls.refs| && g < |ls.renames|
    requires ls.defs[g] == Postings(Defs, groups.refIndex, tokens, g, stream)
    requires ls.refs[g] == Postings(Refs, groups.refIndex, tokens, g, stream)
    requires ls.renames[g] == Postings(Renames, groups.renameIndex, tokens, g, stream)
    ensures ListsSay(ls, groups, tokens, stream, g)
  {
    PostingsMean(Defs, groups.refIndex, tokens, g, stream);
    PostingsMean(Refs, groups.refIndex, tokens, g, stream);
    PostingsMean(Renames, groups.renameIndex, tokens, g, stream);
  }

  lemma {:induction false} AllPostedSay(ls: Lists, groups: AliasGroups, tokens: TokenTest, stream: seq<Filing>)
    requires AllPosted(ls, groups, tokens, stream) && |groups.renameGroups| == |groups.refGroups|
    ensures forall g | 0 <= g < |groups.refGroups| :: ListsSay(ls, groups, tokens, stream, g)
  {
    forall g | 0 <= g < |groups.refGroups| ensures ListsSay(ls, groups, tokens, stream, g) {
      GroupPostedSays(ls, groups, tokens, stream, g);
    }
  }

  lemma {:induction false} FileDocMeans(docOrd: nat, occs: seq<Occurrence>, p: Primary)
    ensures |FileDoc(docOrd, occs, p)| == |occs|
    ensures forall i | 0 <= i < |occs| :: FileDoc(docOrd, occs, p)[i] == Filing(docOrd, occs[i], p)
  {
    if occs != [] {
      FileDocMeans(docOrd, occs[..|occs| - 1], p);
    }
  }

  function FiledByDoc(primaries: seq<Primary>): (parts: seq<seq<Filing>>)
    ensures |parts| == |primaries|
    ensures forall d | 0 <= d < |primaries| :: parts[d] == FileDoc(d, primaries[d].doc.occurrences, primaries[d])
  {
    seq(|primaries|, d requires 0 <= d < |primaries| => FileDoc(d, primaries[d].doc.occurrences, primaries[d]))
  }

  /** What is filed is the occurrences of the documents laid end to end. */
  lemma {:induction false} FileAllMeans(primaries: seq<Primary>)
    ensures Concatenates(FileAll(primaries), FiledByDoc(primaries))
    decreases |primaries|
  {
    if primaries == [] {
      NothingConcatenates<Filing>();
      assert FiledByDoc(primaries) == [];
    } else {
      var n := |primaries| - 1;
      var part := FileDoc(n, primaries[n].doc.occurrences, primaries[n]);
      FileAllMeans(primaries[..n]);
      ConcatenatesNext(FileAll(primaries[..n]), FiledByDoc(primaries[..n]), part);
      assert FiledByDoc(primaries) == FiledByDoc(primaries[..n]) + [part];
    }
  }

  ghost predicate Posted(lists: seq<seq<GroupOcc>>, shelf: Shelf, index: map<SymbolKey, nat>, tokens: TokenTest, n: nat,
                         stream: seq<Filing>) {
    |lists| == n && forall g | 0 <= g < n :: lists[g] == Postings(shelf, index, tokens, g, stream)
  }

  /** Filing one more occurrence touches the list it belongs to and no other. */
  lemma PostNext(lists: seq<seq<GroupOcc>>, shelf: Shelf, index: map<SymbolKey, nat>, tokens: TokenTest, n: nat,
                 stream: seq<Filing>, f: Filing)
    requires Posted(lists, shelf, index, tokens, n, stream) && f.occ.key in index && index[f.occ.key] < n
    ensures var g := index[f.occ.key];
            Posted(if Belongs(shelf, index, tokens, g, f) then lists[g := lists[g] + [Posting(f)]] else lists,
                   shelf, index, tokens, n, stream + [f])
  {
    assert (stream + [f])[..|stream|] == stream;
  }

  // ---------------------------------------------------------------------------
  // The loop
  // ---------------------------------------------------------------------------

  datatype Lists = Lists(refs: seq<seq<GroupOcc>>, defs: seq<seq<GroupOcc>>, renames: seq<seq<GroupOcc>>)

  ghost predicate AllPosted(ls: Lists, groups: AliasGroups, tokens: TokenTest, stream: seq<Filing>) {
    && Posted(ls.defs, Defs, groups.refIndex, tokens, |groups.refGroups|, stream)
    && Posted(ls.refs, Refs, groups.refIndex, tokens, |groups.refGroups|, stream)
    && Posted(ls.renames, Renames, groups.renameIndex, tokens, |groups.renameGroups|, stream)
  }

  predicate Indexed(groups: AliasGroups, k: SymbolKey) {
    && k in groups.refIndex && groups.refIndex[k] < |groups.refGroups|
    && k in groups.renameIndex && groups.renameIndex[k] < |groups.renameGroups|
  }

  method FileOne(ls0: Lists, groups: AliasGroups, tokens: TokenTest, docOrd: nat, occ: Occurrence, p: Primary,
                 ghost stream: seq<Filing>) returns (ls: Lists)
    requires AllPosted(ls0, groups, tokens, stream) && Indexed(groups, occ.key)
    ensures AllPosted(ls, groups, tokens, stream + [Filing(docOrd, occ, p)])
  {
    ghost var f := Filing(docOrd, occ, p);
    PostNext(ls0.defs, Defs, groups.refIndex, tokens, |groups.refGroups|, stream, f);
    PostNext(ls0.refs, Refs, groups.refIndex, tokens, |groups.refGroups|, stream, f);
    PostNext(ls0.renames, Renames, groups.renameIndex, tokens, |groups.renameGroups|, stream, f);
    ls := ls0;
    var flags := FlagsFor(occ, p.facts);
    var g := groups.refIndex[occ.key];
    var groupOcc := GroupOcc(docOrd, p.epoch, p.targetOrd, occ.span, flags);
    if occ.role.Definition? {
      ls := ls.(defs := ls.defs[g := ls.defs[g] + [groupOcc]]);
    } else {
      ls := ls.(refs := ls.refs[g := ls.refs[g] + [groupOcc]]);
    }
    if p.facts.Editable() && !occ.synthetic && tokens(docOrd, occ) {
      var rg := groups.renameIndex[occ.key];
      assert flags | EDITABLE == flags;
      ls := ls.(renames := ls.renames[rg := ls.renames[rg] +
                                            [GroupOcc(docOrd, p.epoch, p.targetOrd, occ.span, flags | EDITABLE)]]);
    }
  }

  function DocPostings(ordOf: map<SymbolKey, nat>, occs: seq<Occurrence>, facts: DocFacts): seq<DocOcc>
    requires forall o | o in occs :: o.key in ordOf
  {
    seq(|occs|, i requires 0 <= i < |occs| =>
      assert occs[i] in occs; DocOcc(ordOf[occs[i].key], occs[i].span, FlagsFor(occs[i], facts)))
  }

  predicate FiledAs(ordOf: map<SymbolKey, nat>, p: Primary, filed: seq<DocOcc>) {
    (forall o | o in p.doc.occurrences :: o.key in ordOf) && filed == DocPostings(ordOf, p.doc.occurrences, p.facts)
  }

  predicate AllIndexed(primaries: seq<Primary>, groups: AliasGroups, ordOf: map<SymbolKey, nat>) {
    forall p | p in primaries :: forall o | o in p.doc.occurrences :: Indexed(groups, o.key) && o.key in ordOf
  }

  method FilePrimary(ls0: Lists, groups: AliasGroups, tokens: TokenTest, ordOf: map<SymbolKey, nat>, docOrd: nat, p: Primary,
                     ghost stream: seq<Filing>) returns (ls: Lists, docOccs: seq<DocOcc>)
    requires AllPosted(ls0, groups, tokens, stream)
    requires forall o | o in p.doc.occurrences :: Indexed(groups, o.key) && o.key in ordOf
    ensures AllPosted(ls, groups, tokens, stream + FileDoc(docOrd, p.doc.occurrences, p))
    ensures FiledAs(ordOf, p, docOccs)
  {
    var occs := p.doc.occurrences;
    ls, docOccs := ls0, [];
    assert stream + [] == stream;
    for i := 0 to |occs|
      invariant AllPosted(ls, groups, tokens, stream + FileDoc(docOrd, occs[..i], p))
      invariant |docOccs| == i && docOccs == DocPostings(ordOf, occs, p.facts)[..i]
    {
      assert occs[i] in occs && occs[..i + 1][..i] == occs[..i];
      docOccs := docOccs + [DocOcc(ordOf[occs[i].key], occs[i].span, FlagsFor(occs[i], p.facts))];
      ls := FileOne(ls, groups, tokens, docOrd, occs[i], p, stream + FileDoc(docOrd, occs[..i], p));
      assert stream + FileDoc(docOrd, occs[..i], p) + [Filing(docOrd, occs[i], p)]
          == stream + FileDoc(docOrd, occs[..i + 1], p);
    }
    assert occs[..|occs|] == occs;
  }

  /** The stored profile: the batch profile with the editable count of the materialized rename list. */
  function StoredProfile(p: RenameProfile, renames: seq<GroupOcc>): RenameProfile {
    p.(editableCount := |renames|)
  }

  method FilePostings(primaries: seq<Primary>, groups: AliasGroups, ordOf: map<SymbolKey, nat>, tokens: TokenTest,
                      profiles: seq<RenameProfile>)
    returns (ls: Lists, docOccs: seq<seq<DocOcc>>, stored: seq<RenameProfile>)
    requires AllIndexed(primaries, groups, ordOf) && |profiles| == |groups.renameGroups|
    ensures AllPosted(ls, groups, tokens, FileAll(primaries))
    ensures |docOccs| == |primaries|
    ensures forall d | 0 <= d < |primaries| :: FiledAs(ordOf, primaries[d], docOccs[d])
    ensures |stored| == |profiles| && forall g | 0 <= g < |stored| ::
              stored[g] == StoredProfile(profiles[g], ls.renames[g])
  {
    ls := Lists(seq(|groups.refGroups|, _ => []), seq(|groups.refGroups|, _ => []), seq(|groups.renameGroups|, _ => []));
    docOccs := [];
    for d := 0 to |primaries|
      invariant AllPosted(ls, groups, tokens, FileAll(primaries[..d]))
      invariant |docOccs| == d
      invariant forall e | 0 <= e < d :: FiledAs(ordOf, primaries[e], docOccs[e])
    {
      assert primaries[d] in primaries && primaries[..d + 1][..d] == primaries[..d];
      var filed;
      ls, filed := FilePrimary(ls, groups, tokens, ordOf, d, primaries[d], FileAll(primaries[..d]));
      docOccs := docOccs + [filed];
    }
    assert primaries[..|primaries|] == primaries;
    stored := seq(|profiles|, g requires 0 <= g < |profiles| => StoredProfile(profiles[g], ls.renames[g]));
  }

  // ---------------------------------------------------------------------------
  // Conservation
  // ---------------------------------------------------------------------------

  function Everything(index: map<SymbolKey, nat>, g: nat, stream: seq<Filing>): multiset<GroupOcc> {
    if stream == [] then multiset{}
    else
      var last := stream[|stream| - 1];
      Everything(index, g, stream[..|stream| - 1]) + if InGroup(index, g, last.occ.key) then multiset{Posting(last)} else multiset{}
  }

  /** A group's two lists hold each of its occurrences once, and the rename list holds some of them. */
  lemma {:induction false} GroupConservation(index: map<SymbolKey, nat>, tokens: TokenTest, g: nat, stream: seq<Filing>)
    ensures var defs, refs := Postings(Defs, index, tokens, g, stream), Postings(Refs, index, tokens, g, stream);
            var renames := Postings(Renames, index, tokens, g, stream);
            && multiset(defs) + multiset(refs) == Everything(index, g, stream)
            && multiset(renames) <= multiset(defs) + multiset(refs)
  {
    if stream != [] {
      GroupConservation(index, tokens, g, stream[..|stream| - 1]);
    }
  }

  function TotalLength<T>(lists: seq<seq<T>>): nat {
    if lists == [] then 0 else TotalLength(lists[..|lists| - 1]) + |lists[|lists| - 1]|
  }

  lemma {:induction false} TotalLengthPush<T>(lists: seq<seq<T>>, g: nat, x: T)
    requires g < |lists|
    ensures TotalLength(lists[g := lists[g] + [x]]) == TotalLength(lists) + 1
  {
    var last := |lists| - 1;
    var pushed := lists[g := lists[g] + [x]];
    if g == last {
      assert pushed[..last] == lists[..last];
    } else {
      assert pushed[..last] == lists[..last][g := lists[..last][g] + [x]];
      TotalLengthPush(lists[..last], g, x);
    }
  }

  ghost function ListsFor(shelf: Shelf, index: map<SymbolKey, nat>, tokens: TokenTest, n: nat, stream: seq<Filing>): seq<seq<GroupOcc>> {
    seq(n, g requires 0 <= g < n => Postings(shelf, index, tokens, g, stream))
  }

  lemma {:induction false} NoPostings<T>(n: nat, lists: seq<seq<T>>)
    requires |lists| == n && forall g | 0 <= g < n :: lists[g] == []
    ensures TotalLength(lists) == 0
  {
    if n > 0 {
      NoPostings(n - 1, lists[..n - 1]);
    }
  }

  /** Over all groups, the definition and reference lists hold as many postings as there are occurrences. */
  lemma {:induction false} TotalConservation(index: map<SymbolKey, nat>, tokens: TokenTest, n: nat, stream: seq<Filing>)
    requires forall f | f in stream :: f.occ.key in index && index[f.occ.key] < n
    ensures TotalLength(ListsFor(Defs, index, tokens, n, stream)) + TotalLength(ListsFor(Refs, index, tokens, n, stream))
         == |stream|
  {
    var defs, refs := ListsFor(Defs, index, tokens, n, stream), ListsFor(Refs, index, tokens, n, stream);
    if stream == [] {
      NoPostings(n, defs);
      NoPostings(n, refs);
    } else {
      var init, f := stream[..|stream| - 1], stream[|stream| - 1];
      var g := index[f.occ.key];
      TotalConservation(index, tokens, n, init);
      var defs', refs' := ListsFor(Defs, index, tokens, n, init), ListsFor(Refs, index, tokens, n, init);
      if f.occ.role.Definition? {
        assert defs == defs'[g := defs'[g] + [Posting(f)]] && refs == refs';
        TotalLengthPush(defs', g, Posting(f));
      } else {
        assert refs == refs'[g := refs'[g] + [Posting(f)]] && defs == defs';
        TotalLengthPush(refs', g, Posting(f));
      }
    }
  }

  ghost function Strip(stream: seq<Filing>): seq<Placed> {
    if stream == [] then []
    else Strip(stream[..|stream| - 1]) + [Placed(stream[|stream| - 1].occ, stream[|stream| - 1].primary.facts)]
  }

  /** The stored editable count never exceeds the editable occurrences that the batch counted. */
  lemma {:induction false} StoredCountIsBounded(index: map<SymbolKey, nat>, tokens: TokenTest, g: nat, stream: seq<Filing>)
    ensures |Postings(Renames, index, tokens, g, stream)| <= EditableCount(GroupOccs(Strip(stream), index, g))
  {
    if stream != [] {
      var init := stream[..|stream| - 1];
      StoredCountIsBounded(index, tokens, g, init);
      assert Strip(stream)[..|Strip(init)|] == Strip(init);
      var occs := GroupOccs(Strip(init), index, g);
      var last := Placed(stream[|stream| - 1].occ, stream[|stream| - 1].primary.facts);
      assert (occs + [last])[..|occs|] == occs;
    }
  }

  // ---------------------------------------------------------------------------
  // The batch from end to end: group, profile, file
  // ---------------------------------------------------------------------------

  function DocsOf(primaries: seq<Primary>): seq<Document> {
    seq(|primaries|, d requires 0 <= d < |primaries| => primaries[d].doc)
  }

  /** Ingest keeps one primary document per uri, so the facts by uri are the facts by document. */
  ghost predicate FactsByUri(primaries: seq<Primary>, facts: map<string, DocFacts>) {
    forall p | p in primaries :: FactsOf(facts, p.doc.uri) == p.facts
  }

  lemma {:induction false} StripDoc(docOrd: nat, occs: seq<Occurrence>, p: Primary, before: seq<Filing>)
    ensures Strip(before + FileDoc(docOrd, occs, p)) == Strip(before) + PlaceAll(occs, p.facts)
  {
    if occs == [] {
      assert before + [] == before;
    } else {
      var init := occs[..|occs| - 1];
      StripDoc(docOrd, init, p, before);
      var all := before + FileDoc(docOrd, occs, p);
      assert all[..|all| - 1] == before + FileDoc(docOrd, init, p);
    }
  }

  /** The loop files exactly the occurrences that the profiles were computed from. */
  lemma {:induction false} SameStream(primaries: seq<Primary>, facts: map<string, DocFacts>)
    requires FactsByUri(primaries, facts)
    ensures Strip(FileAll(primaries)) == Stream(DocsOf(primaries), facts)
  {
    if primaries != [] {
      var last := |primaries| - 1;
      var p := primaries[last];
      assert p in primaries;
      SameStream(primaries[..last], facts);
      StripDoc(last, p.doc.occurrences, p, FileAll(primaries[..last]));
      assert DocsOf(primaries)[..last] == DocsOf(primaries[..last]);
    }
  }

  lemma {:induction false} OccurrencesAreMentioned(docs: seq<Document>, d: nat, o: Occurrence)
    requires d < |docs| && o in docs[d].occurrences
    ensures o.key in MentionedKeys(docs)
  {
    var last := |docs| - 1;
    if d < last {
      OccurrencesAreMentioned(docs[..last], d, o);
    }
  }

  /** What is stored for group `g`: a rename list that is part of the group's two lists and no longer than its
      editable occurrences, and flags and reasons that say what the occurrences and the batch say. */
  ghost predicate StoredSafely(u: Unicode, docs: seq<Document>, stream: seq<Placed>, groups: AliasGroups, ls: Lists, stored: RenameProfile,
                               g: nat) {
    && g < |ls.renames| && g < |ls.defs| && g < |ls.refs| && g < |groups.renameGroups|
    && var occs := GroupOccs(stream, groups.renameIndex, g);
    && stored.editableCount == |ls.renames[g]| <= EditableCount(occs) <= |occs|
    && multiset(ls.renames[g]) <= multiset(ls.defs[g]) + multiset(ls.refs[g])
    && Explains(stored, u, BatchOf(docs), stream, groups.renameGroups[g], occs)
    && TellsOfDocuments(stored.mask, docs, groups.renameGroups[g])
  }

  lemma StoredIsSafe(u: Unicode, groups: AliasGroups, tokens: TokenTest, primaries: seq<Primary>,
                     facts: map<string, DocFacts>, ls: Lists, profile: RenameProfile, g: nat)
    requires AllPosted(ls, groups, tokens, FileAll(primaries)) && FactsByUri(primaries, facts)
    requires groups.renameGroups == groups.refGroups && groups.renameIndex == groups.refIndex && g < |groups.renameGroups|
    requires var stream := Stream(DocsOf(primaries), facts);
             Fits(profile, u, BatchOf(DocsOf(primaries)), stream, groups.renameGroups[g], GroupOccs(stream, groups.renameIndex, g))
    ensures StoredSafely(u, DocsOf(primaries), Stream(DocsOf(primaries), facts), groups, ls, StoredProfile(profile, ls.renames[g]), g)
  {
    var stream := Stream(DocsOf(primaries), facts);
    var occs := GroupOccs(stream, groups.renameIndex, g);
    SameStream(primaries, facts);
    GroupConservation(groups.refIndex, tokens, g, FileAll(primaries));
    StoredCountIsBounded(groups.renameIndex, tokens, g, FileAll(primaries));
    AllEditable(occs);
    SameReasons(profile, |ls.renames[g]|, u, BatchOf(DocsOf(primaries)), stream, groups.renameGroups[g], occs);
    ReasonsMean(profile.mask, DocsOf(primaries), groups.renameGroups[g]);
  }

  /** The editable count is no part of the explanation. */
  lemma SameReasons(p: RenameProfile, count: nat, u: Unicode, b: Batch, stream: seq<Placed>, group: set<SymbolKey>,
                    occs: seq<Placed>)
    requires Explains(p, u, b, stream, group, occs)
    ensures Explains(p.(editableCount := count), u, b, stream, group, occs)
  {
  }

  /** The postings of one document: its occurrences in order, each with its key's ordinal in the symbol
      table, its span and its flags. */
  ghost predicate FiledInOrder(keys: seq<SymbolKey>, p: Primary, filed: seq<DocOcc>) {
    && |filed| == |p.doc.occurrences|
    && forall i | 0 <= i < |filed| ::
         var occ := p.doc.occurrences[i];
         && filed[i].symbolOrd < |keys| && keys[filed[i].symbolOrd] == occ.key
         && filed[i].span == occ.span && FlagsSay(filed[i].flags, occ, p.facts)
  }

  lemma PostingsAreInOrder(keys: seq<SymbolKey>, ordOf: map<SymbolKey, nat>, p: Primary, filed: seq<DocOcc>)
    requires Numbers(ordOf, keys) && FiledAs(ordOf, p, filed)
    ensures FiledInOrder(keys, p, filed)
  {
    var occs := p.doc.occurrences;
    forall i | 0 <= i < |occs| ensures occs[i].key in ordOf && FlagsSay(FlagsFor(occs[i], p.facts), occs[i], p.facts) {
      assert occs[i] in occs;
      FlagsMean(occs[i], p.facts);
    }
  }

  ghost predicate Numbers(ordOf: map<SymbolKey, nat>, keys: seq<SymbolKey>) {
    (forall k | k in ordOf :: ordOf[k] < |keys| && keys[ordOf[k]] == k) && (forall k | k in keys :: k in ordOf)
  }

  /** The symbol table: the keys in order, and the ordinal of each. */
  method SymbolTable(universe: set<SymbolKey>) returns (keys: seq<SymbolKey>, ordOf: map<SymbolKey, nat>)
    ensures Sorted(keys) && Distinct(keys) && (forall k :: k in keys <==> k in universe) && Numbers(ordOf, keys)
  {
    keys := SortKeys(universe);
    ordOf := map i | 0 <= i < |keys| :: keys[i] := i;
    assert forall i | 0 <= i < |keys| :: keys[i] in ordOf;
  }

  /** From documents to what is stored; `keys` is the symbol table. */
  method IngestBatch(u: Unicode, primaries: seq<Primary>, facts: map<string, DocFacts>, tokens: TokenTest)
    returns (groups: AliasGroups, keys: seq<SymbolKey>, ls: Lists, docOccs: seq<seq<DocOcc>>, stored: seq<RenameProfile>)
    requires FactsByUri(primaries, facts)
    ensures var b := BatchOf(DocsOf(primaries));
            && ExactGroups(groups.renameGroups, groups.renameIndex, b.keys, PolicyEdges(u, b))
            && Sorted(keys) && Distinct(keys) && forall k :: k in keys <==> k in b.keys
    ensures |docOccs| == |primaries| && forall d | 0 <= d < |primaries| :: FiledInOrder(keys, primaries[d], docOccs[d])
    ensures Concatenates(FileAll(primaries), FiledByDoc(primaries))
    ensures |stored| == |groups.renameGroups|
    ensures forall g | 0 <= g < |stored| ::
              && ListsSay(ls, groups, tokens, FileAll(primaries), g)
              && StoredSafely(u, DocsOf(primaries), Stream(DocsOf(primaries), facts), groups, ls, stored[g], g)
    ensures TotalLength(ls.defs) + TotalLength(ls.refs) == |FileAll(primaries)|
  {
    var docs := DocsOf(primaries);
    ghost var b := BatchOf(docs);
    groups := Build(u, docs);
    var profiles := BuildProfiles(u, docs, groups, facts, b);
    var ordOf;
    keys, ordOf := SymbolTable(groups.refIndex.Keys);
    IndexedFromBuild(u, primaries, groups, ordOf);
    ls, docOccs, stored := FilePostings(primaries, groups, ordOf, tokens, profiles);
    forall d | 0 <= d < |primaries| ensures FiledInOrder(keys, primaries[d], docOccs[d]) {
      PostingsAreInOrder(keys, ordOf, primaries[d], docOccs[d]);
    }
    forall g | 0 <= g < |stored| ensures StoredSafely(u, docs, Stream(docs, facts), groups, ls, stored[g], g) {
      StoredIsSafe(u, groups, tokens, primaries, facts, ls, profiles[g], g);
    }
    AllPostedSay(ls, groups, tokens, FileAll(primaries));
    FileAllMeans(primaries);
    FiledAreConserved(primaries, groups, tokens, ordOf, ls);
  }

  lemma FiledAreConserved(primaries: seq<Primary>, groups: AliasGroups, tokens: TokenTest, ordOf: map<SymbolKey, nat>, ls: Lists)
    requires AllPosted(ls, groups, tokens, FileAll(primaries)) && AllIndexed(primaries, groups, ordOf)
    ensures TotalLength(ls.defs) + TotalLength(ls.refs) == |FileAll(primaries)|
  {
    var n, stream := |groups.refGroups|, FileAll(primaries);
    FiledAreIndexed(primaries, groups, ordOf);
    TotalConservation(groups.refIndex, tokens, n, stream);
    assert ls.defs == ListsFor(Defs, groups.refIndex, tokens, n, stream);
    assert ls.refs == ListsFor(Refs, groups.refIndex, tokens, n, stream);
  }

  lemma IndexedFromBuild(u: Unicode, primaries: seq<Primary>, groups: AliasGroups, ordOf: map<SymbolKey, nat>)
    requires ExactGroups(groups.refGroups, groups.refIndex, BatchOf(DocsOf(primaries)).keys,
                         PolicyEdges(u, BatchOf(DocsOf(primaries))))
    requires groups.renameGroups == groups.refGroups && groups.renameIndex == groups.refIndex
    requires forall k | k in groups.refIndex :: k in ordOf
    ensures AllIndexed(primaries, groups, ordOf)
  {
    forall p, o | p in primaries && o in p.doc.occurrences ensures Indexed(groups, o.key) && o.key in ordOf {
      var d :| 0 <= d < |primaries| && primaries[d] == p;
      OccurrencesAreMentioned(DocsOf(primaries), d, o);
    }
  }

  lemma {:induction false} FiledAreIndexed(primaries: seq<Primary>, groups: AliasGroups, ordOf: map<SymbolKey, nat>)
    requires AllIndexed(primaries, groups, ordOf)
    ensures forall f | f in FileAll(primaries) :: Indexed(groups, f.occ.key)
  {
    if primaries != [] {
      var last := |primaries| - 1;
      FiledAreIndexed(primaries[..last], groups, ordOf);
      assert primaries[last] in primaries;
      FiledDoc(last, primaries[last].doc.occurrences, primaries[last]);
    }
  }

  lemma {:induction false} FiledDoc(docOrd: nat, occs: seq<Occurrence>, p: Primary)
    ensures forall f | f in FileDoc(docOrd, occs, p) :: f.occ in occs
  {
    if occs != [] {
      FiledDoc(docOrd, occs[..|occs| - 1], p);
    }
  }
}
