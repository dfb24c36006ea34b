/**
  * Rename-safety profiles: one per rename group, from what the batch says about the group and what
  * the build says about the documents its occurrences lie in.
  */
module Profiles {
  import opened Options
  import opened Lookup
  import opened Slices
  import opened IndexModel
  import opened Symbols
  import opened AliasGroups
  import opened UnsafeReason

  /** What only the build knows about a document. */
  datatype DocFacts = DocFacts(generated: bool, readonly: bool, dependencySource: bool) {
    predicate Editable() {
      !generated && !readonly && !dependencySource
    }
  }

  const WORKSPACE_SOURCE := DocFacts(false, false, false)

  datatype RenameProfile = RenameProfile(isLocal: bool, isExternal: bool, hasGenerated: bool, hasReadonly: bool,
                                         hasOverrideFamily: bool, hasCompanion: bool, editableCount: nat, mask: bv64)

  // ---------------------------------------------------------------------------
  // Occurrences together with the facts of their document
  // ---------------------------------------------------------------------------

  datatype Placed = Placed(occ: Occurrence, facts: DocFacts)

  function FactsOf(facts: map<string, DocFacts>, uri: string): DocFacts {
    if uri in facts then facts[uri] else WORKSPACE_SOURCE
  }

  function PlaceAll(occs: seq<Occurrence>, facts: DocFacts): seq<Placed> {
    if occs == [] then [] else PlaceAll(occs[..|occs| - 1], facts) + [Placed(occs[|occs| - 1], facts)]
  }

  function Stream(docs: seq<Document>, facts: map<string, DocFacts>): seq<Placed> {
    if docs == [] then []
    else
      var doc := docs[|docs| - 1];
      Stream(docs[..|docs| - 1], facts) + PlaceAll(doc.occurrences, FactsOf(facts, doc.uri))
  }

  predicate InGroup(index: map<SymbolKey, nat>, g: nat, k: SymbolKey) {
    k in index && index[k] == g
  }

  /** The occurrences of the members of group `g`, in order. */
  function GroupOccs(stream: seq<Placed>, index: map<SymbolKey, nat>, g: nat): seq<Placed> {
    if stream == [] then []
    else
      var last := stream[|stream| - 1];
      var before := GroupOccs(stream[..|stream| - 1], index, g);
      if InGroup(index, g, last.occ.key) then before + [last] else before
  }

  function EditableCount(occs: seq<Placed>): nat {
    if occs == [] then 0
    else EditableCount(occs[..|occs| - 1]) + if occs[|occs| - 1].facts.Editable() then 1 else 0
  }

  ghost predicate HasDefinition(occs: seq<Placed>) {
    exists p | p in occs :: p.occ.role.Definition?
  }

  function DefinedGlobals(stream: seq<Placed>): set<SymbolKey> {
    set p | p in stream && p.occ.role.Definition? && !p.occ.key.IsLocal() :: p.occ.key
  }

  // ---------------------------------------------------------------------------
  // What these streams and counts are
  // ---------------------------------------------------------------------------

  lemma {:induction false} PlaceAllMeans(occs: seq<Occurrence>, facts: DocFacts)
    ensures |PlaceAll(occs, facts)| == |occs| && forall i | 0 <= i < |occs| :: PlaceAll(occs, facts)[i] == Placed(occs[i], facts)
  {
    if occs != [] {
      PlaceAllMeans(occs[..|occs| - 1], facts);
    }
  }

  /** The occurrences of each document, with the facts of the document. */
  function PlacedByDoc(docs: seq<Document>, facts: map<string, DocFacts>): (parts: seq<seq<Placed>>)
    ensures |parts| == |docs|
    ensures forall d | 0 <= d < |docs| :: parts[d] == PlaceAll(docs[d].occurrences, FactsOf(facts, docs[d].uri))
  {
    seq(|docs|, d requires 0 <= d < |docs| => PlaceAll(docs[d].occurrences, FactsOf(facts, docs[d].uri)))
  }

  /** Every occurrence of a document with its facts; a document without any is an ordinary source. */
  ghost predicate ArePlaced(part: seq<Placed>, doc: Document, facts: map<string, DocFacts>) {
    && |part| == |doc.occurrences|
    && forall i | 0 <= i < |part| ::
         && part[i].occ == doc.occurrences[i]
         && part[i].facts == if doc.uri in facts then facts[doc.uri] else DocFacts(false, false, false)
  }

  /** The stream is the occurrences of the documents laid end to end. */
  lemma StreamMeans(docs: seq<Document>, facts: map<string, DocFacts>)
    ensures Concatenates(Stream(docs, facts), PlacedByDoc(docs, facts))
    ensures forall d | 0 <= d < |docs| :: ArePlaced(PlacedByDoc(docs, facts)[d], docs[d], facts)
  {
    StreamConcatenates(docs, facts);
    forall d | 0 <= d < |docs| ensures ArePlaced(PlacedByDoc(docs, facts)[d], docs[d], facts) {
      PlaceAllMeans(docs[d].occurrences, FactsOf(facts, docs[d].uri));
    }
  }

  lemma {:induction false} StreamConcatenates(docs: seq<Document>, facts: map<string, DocFacts>)
    ensures Concatenates(Stream(docs, facts), PlacedByDoc(docs, facts))
    decreases |docs|
  {
    if docs == [] {
      NothingConcatenates<Placed>();
      assert PlacedByDoc(docs, facts) == [];
    } else {
      var front, last := docs[..|docs| - 1], docs[|docs| - 1];
      StreamConcatenates(front, facts);
      ConcatenatesNext(Stream(front, facts), PlacedByDoc(front, facts), PlaceAll(last.occurrences, FactsOf(facts, last.uri)));
      assert PlacedByDoc(docs, facts) == PlacedByDoc(front, facts) + [PlaceAll(last.occurrences, FactsOf(facts, last.uri))];
    }
  }

  function OfGroup(index: map<SymbolKey, nat>, g: nat): Placed -> bool {
    (p: Placed) => p.occ.key in index && index[p.occ.key] == g
  }

  /** A group's occurrences are exactly those in the stream whose key is in the group, in order. */
  lemma {:induction false} GroupOccsMean(stream: seq<Placed>, index: map<SymbolKey, nat>, g: nat) returns (at: seq<nat>)
    ensures Picks(stream, OfGroup(index, g), at)
    ensures |GroupOccs(stream, index, g)| == |at| && forall k | 0 <= k < |at| :: GroupOccs(stream, index, g)[k] == stream[at[k]]
    decreases |stream|
  {
    if stream == [] {
      return [];
    }
    var front: seq<Placed>, last: Placed := stream[..|stream| - 1], stream[|stream| - 1];
    assert front + [last] == stream;
    at := GroupOccsMean(front, index, g);
    PicksNext(front, OfGroup(index, g), at, last);
    at := at + if OfGroup(index, g)(last) then [|front|] else [];
  }

  /** The editable count is the number of positions that are editable. */
  lemma {:induction false} EditableCountMeans(occs: seq<Placed>)
    ensures EditableCount(occs) == |set i | 0 <= i < |occs| && occs[i].facts.Editable()|
    decreases |occs|
  {
    if occs != [] {
      var n := |occs| - 1;
      EditableCountMeans(occs[..n]);
      var before := set i | 0 <= i < |occs[..n]| && occs[..n][i].facts.Editable();
      var after := set i | 0 <= i < |occs| && occs[i].facts.Editable();
      assert forall i | 0 <= i < n :: occs[..n][i] == occs[i];
      assert after == before + if occs[n].facts.Editable() then {n} else {};
    }
  }

  // ---------------------------------------------------------------------------
  // The per-group tallies of the first pass
  // ---------------------------------------------------------------------------

  datatype Tallies = Tallies(definition: seq<bool>, generated: seq<bool>, readonly: seq<bool>, dependency: seq<bool>,
                             editable: seq<nat>)

  ghost predicate Tallied(t: Tallies, n: nat, stream: seq<Placed>, index: map<SymbolKey, nat>) {
    && |t.definition| == |t.generated| == |t.readonly| == |t.dependency| == |t.editable| == n
    && forall g | 0 <= g < n :: TalliedAt(t, g, GroupOccs(stream, index, g))
  }

  ghost predicate TalliedAt(t: Tallies, g: nat, occs: seq<Placed>)
    requires g < |t.definition| == |t.generated| == |t.readonly| == |t.dependency| == |t.editable|
  {
    && t.definition[g] == HasDefinition(occs)
    && t.generated[g] == (exists p | p in occs :: p.facts.generated)
    && t.readonly[g] == (exists p | p in occs :: p.facts.readonly)
    && t.dependency[g] == (exists p | p in occs :: p.facts.dependencySource)
    && t.editable[g] == EditableCount(occs)
  }

  method Tally(t0: Tallies, p: Placed, index: map<SymbolKey, nat>, ghost n: nat, ghost stream: seq<Placed>)
    returns (t: Tallies)
    requires Tallied(t0, n, stream, index) && forall k | k in index :: index[k] < n
    ensures Tallied(t, n, stream + [p], index)
  {
    t := t0;
    assert (stream + [p])[..|stream|] == stream;
    if p.occ.key in index {
      var g := index[p.occ.key];
      ghost var occs := GroupOccs(stream, index, g);
      if p.occ.role.Definition? {
        t := t.(definition := t.definition[g := true]);
      }
      if p.facts.generated {
        t := t.(generated := t.generated[g := true]);
      }
      if p.facts.readonly {
        t := t.(readonly := t.readonly[g := true]);
      }
      if p.facts.dependencySource {
        t := t.(dependency := t.dependency[g := true]);
      }
      if p.facts.Editable() {
        t := t.(editable := t.editable[g := t.editable[g] + 1]);
      }
      TallyPush(t0, t, g, occs, p);
    }
    forall h | 0 <= h < n ensures TalliedAt(t, h, GroupOccs(stream + [p], index, h)) {
      assert TalliedAt(t0, h, GroupOccs(stream, index, h));
      if !InGroup(index, h, p.occ.key) {
        TallyKeep(t0, t, h, GroupOccs(stream, index, h));
      }
    }
  }

  lemma TallyKeep(t0: Tallies, t: Tallies, h: nat, occs: seq<Placed>)
    requires h < |t0.definition| == |t0.generated| == |t0.readonly| == |t0.dependency| == |t0.editable|
    requires h < |t.definition| == |t.generated| == |t.readonly| == |t.dependency| == |t.editable|
    requires t.definition[h] == t0.definition[h] && t.generated[h] == t0.generated[h] && t.readonly[h] == t0.readonly[h]
    requires t.dependency[h] == t0.dependency[h] && t.editable[h] == t0.editable[h] && TalliedAt(t0, h, occs)
    ensures TalliedAt(t, h, occs)
  {
  }

  lemma TallyPush(t0: Tallies, t: Tallies, g: nat, occs: seq<Placed>, p: Placed)
    requires |t0.definition| == |t0.generated| == |t0.readonly| == |t0.dependency| == |t0.editable|
    requires |t.definition| == |t.generated| == |t.readonly| == |t.dependency| == |t.editable|
    requires g < |t0.definition| && g < |t.definition| && TalliedAt(t0, g, occs)
    requires t.definition[g] == (t0.definition[g] || p.occ.role.Definition?)
    requires t.generated[g] == (t0.generated[g] || p.facts.generated)
    requires t.readonly[g] == (t0.readonly[g] || p.facts.readonly)
    requires t.dependency[g] == (t0.dependency[g] || p.facts.dependencySource)
    requires t.editable[g] == t0.editable[g] + if p.facts.Editable() then 1 else 0
    ensures TalliedAt(t, g, occs + [p])
  {
    assert (occs + [p])[..|occs|] == occs;
    assert forall x :: x in occs + [p] <==> x in occs || x == p;
  }

  method TallyDoc(t0: Tallies, defined0: set<SymbolKey>, occs: seq<Occurrence>, f: DocFacts, index: map<SymbolKey, nat>,
                  ghost n: nat, ghost before: seq<Placed>)
    returns (t: Tallies, defined: set<SymbolKey>)
    requires Tallied(t0, n, before, index) && defined0 == DefinedGlobals(before) && forall k | k in index :: index[k] < n
    ensures Tallied(t, n, before + PlaceAll(occs, f), index) && defined == DefinedGlobals(before + PlaceAll(occs, f))
  {
    t, defined := t0, defined0;
    ghost var stream := before;
    for i := 0 to |occs|
      invariant stream == before + PlaceAll(occs[..i], f)
      invariant Tallied(t, n, stream, index) && defined == DefinedGlobals(stream)
    {
      var p := Placed(occs[i], f);
      assert occs[..i + 1][..i] == occs[..i];
      t := Tally(t, p, index, n, stream);
      stream := stream + [p];
      if occs[i].role.Definition? && !occs[i].key.IsLocal() {
        defined := defined + {occs[i].key};
      }
    }
    assert occs[..|occs|] == occs;
  }

  method TallyDocs(docs: seq<Document>, facts: map<string, DocFacts>, index: map<SymbolKey, nat>, n: nat)
    returns (t: Tallies, defined: set<SymbolKey>)
    requires forall k | k in index :: index[k] < n
    ensures Tallied(t, n, Stream(docs, facts), index) && defined == DefinedGlobals(Stream(docs, facts))
  {
    var none := seq(n, _ => false);
    t := Tallies(none, none, none, none, seq(n, _ => 0));
    defined := {};
    for d := 0 to |docs|
      invariant Tallied(t, n, Stream(docs[..d], facts), index)
      invariant defined == DefinedGlobals(Stream(docs[..d], facts))
    {
      var f := FactsOf(facts, docs[d].uri);
      assert docs[..d + 1][..d] == docs[..d];
      t, defined := TallyDoc(t, defined, docs[d].occurrences, f, index, n, Stream(docs[..d], facts));
    }
    assert docs[..|docs|] == docs;
  }

  // ---------------------------------------------------------------------------
  // Profiles
  // ---------------------------------------------------------------------------

  predicate AllLocal(group: set<SymbolKey>) {
    group != {} && forall k | k in group :: k.IsLocal()
  }

  predicate OwnerDefined(group: set<SymbolKey>, defined: set<SymbolKey>) {
    exists k | k in group :: !k.IsLocal() && SplitLast(k.symbol).Some? && Global(SplitLast(k.symbol).value.0) in defined
  }

  predicate HasCompanion(u: Unicode, group: set<SymbolKey>) {
    exists k | k in group ::
      !k.IsLocal() && EndsWith(k.symbol, '#')
      && Companion(u, k.symbol).Some? && Global(Companion(u, k.symbol).value) in group
  }

  function ProfileOf(u: Unicode, group: set<SymbolKey>, semantic: bv64, defined: set<SymbolKey>, t: Tallies, g: nat): RenameProfile
    requires g < |t.definition| == |t.generated| == |t.readonly| == |t.dependency| == |t.editable|
  {
    var isLocal := AllLocal(group);
    var syntheticOnly := !isLocal && !t.definition[g] && OwnerDefined(group, defined);
    var isExternal := !t.definition[g] && !syntheticOnly;
    var mask := FullMask(semantic, isExternal, syntheticOnly, t.generated[g], t.readonly[g], t.dependency[g]);
    RenameProfile(isLocal, isExternal, t.generated[g], t.readonly[g], semantic & OVERRIDE_FAMILY != 0,
                  HasCompanion(u, group), t.editable[g], mask)
  }

  /** The owner of some global member has a definition among the occurrences. */
  ghost predicate HasDefinedOwner(group: set<SymbolKey>, stream: seq<Placed>) {
    exists k: SymbolKey, p: Placed | k in group && p in stream ::
      && !k.IsLocal() && SplitLast(k.symbol).Some?
      && p.occ.role.Definition? && p.occ.key == SymbolKey(ImmediateOwner(k.symbol), None)
  }

  lemma OwnerDefinedMeans(group: set<SymbolKey>, stream: seq<Placed>)
    ensures OwnerDefined(group, DefinedGlobals(stream)) <==> HasDefinedOwner(group, stream)
  {
    if OwnerDefined(group, DefinedGlobals(stream)) {
      var k: SymbolKey :| k in group && !k.IsLocal() && SplitLast(k.symbol).Some?
                          && Global(SplitLast(k.symbol).value.0) in DefinedGlobals(stream);
      var p: Placed :| p in stream && p.occ.role.Definition? && !p.occ.key.IsLocal() && p.occ.key == Global(SplitLast(k.symbol).value.0);
      assert ImmediateOwner(k.symbol) == SplitLast(k.symbol).value.0;
    }
  }

  /** The group has a type `X#` and its companion term `X.`. */
  ghost predicate HasTypeAndTerm(u: Unicode, group: set<SymbolKey>) {
    exists k: SymbolKey, owner, name | k in group ::
      !k.IsLocal() && SplitLast(k.symbol) == Some((owner, Type(name))) && SymbolKey(owner + EncodeName(u, name) + ".", None) in group
  }

  lemma {:induction false} HasCompanionMeans(u: Unicode, group: set<SymbolKey>)
    ensures HasCompanion(u, group) <==> HasTypeAndTerm(u, group)
  {
    forall k: SymbolKey ensures EndsWith(k.symbol, '#') && Companion(u, k.symbol).Some? <==>
                     SplitLast(k.symbol).Some? && SplitLast(k.symbol).value.1.Type? {
      CompanionKinds(u, k.symbol);
    }
    if HasCompanion(u, group) {
      var k: SymbolKey :| k in group && !k.IsLocal() && EndsWith(k.symbol, '#')
               && Companion(u, k.symbol).Some? && Global(Companion(u, k.symbol).value) in group;
      var (owner, d) := SplitLast(k.symbol).value;
      assert SplitLast(k.symbol) == Some((owner, Type(d.name)));
    }
  }

  /** A member of a type that the workspace defines, without a definition of its own. */
  predicate IsSynthesized(group: set<SymbolKey>, defined: set<SymbolKey>) {
    !AllLocal(group) && OwnerDefined(group, defined)
  }

  ghost predicate IsSynthesizedIn(group: set<SymbolKey>, stream: seq<Placed>) {
    !AllLocal(group) && HasDefinedOwner(group, stream)
  }

  /** What the flags and the mask of a profile say about its group: each reason bit is set for its own
      reason and no other bit is. A zero mask means that a rename is safe: there is a definition in the
      batch, every occurrence is editable, and the group is semantically clean. */
  ghost predicate Explains(p: RenameProfile, u: Unicode, b: Batch, stream: seq<Placed>, group: set<SymbolKey>,
                           occs: seq<Placed>) {
    && (p.isLocal <==> group != {} && forall k | k in group :: k.IsLocal())
    && (p.isExternal <==> !HasDefinition(occs) && !IsSynthesizedIn(group, stream))
    && (p.hasGenerated <==> exists o | o in occs :: o.facts.generated)
    && (p.hasReadonly <==> exists o | o in occs :: o.facts.readonly)
    && (p.hasOverrideFamily <==> InOverrideFamily(b, group))
    && (p.hasCompanion <==> HasTypeAndTerm(u, group))
    && TellsReasons(p.mask, b, group)
    && (p.mask & 0x1 != 0 <==> p.isExternal)
    && (p.mask & 0x10 != 0 <==> !HasDefinition(occs) && IsSynthesizedIn(group, stream))
    && (p.mask & 0x2 != 0 <==> p.hasGenerated)
    && (p.mask & 0x4 != 0 <==> p.hasReadonly)
    && (p.mask & 0x100 != 0 <==> exists o | o in occs :: o.facts.dependencySource)
    && p.mask & !0x39f == 0
    && (p.mask == 0 <==> HasDefinition(occs) && (forall o | o in occs :: o.facts.Editable()) && Clean(b, group))
  }

  ghost predicate Fits(p: RenameProfile, u: Unicode, b: Batch, stream: seq<Placed>, group: set<SymbolKey>,
                       occs: seq<Placed>) {
    && Explains(p, u, b, stream, group, occs)
    && p.editableCount == EditableCount(occs)
    && (p.mask == 0 ==> p.editableCount == |occs|)
  }

  lemma {:induction false} AllEditable(occs: seq<Placed>)
    ensures EditableCount(occs) <= |occs|
    ensures (forall o | o in occs :: o.facts.Editable()) <==> EditableCount(occs) == |occs|
  {
    if occs != [] {
      var init := occs[..|occs| - 1];
      AllEditable(init);
      assert forall o :: o in occs <==> o in init || o == occs[|occs| - 1];
    }
  }

  /** The bits of a profile's mask, in terms of the tallies. */
  ghost predicate BitsTell(p: RenameProfile, semantic: bv64, synthetic: bool, dependency: bool) {
    && (p.mask & EXTERNAL != 0 <==> p.isExternal)
    && (p.mask & SYNTHETIC_ONLY != 0 <==> synthetic)
    && (p.mask & GENERATED_OCCURRENCE != 0 <==> p.hasGenerated)
    && (p.mask & READONLY_OCCURRENCE != 0 <==> p.hasReadonly)
    && (p.mask & DEPENDENCY_SOURCE != 0 <==> dependency)
    && p.mask & OVERRIDE_FAMILY == semantic & OVERRIDE_FAMILY
    && p.mask & UNSUPPORTED_SYMBOL_FAMILY == semantic & UNSUPPORTED_SYMBOL_FAMILY
    && p.mask & OPAQUE_TYPE == semantic & OPAQUE_TYPE
    && p.mask & !ALL == 0
    && (p.mask == 0 <==> semantic == 0 && !p.isExternal && !synthetic && !p.hasGenerated && !p.hasReadonly && !dependency)
  }

  lemma ProfileBits(u: Unicode, group: set<SymbolKey>, semantic: bv64, defined: set<SymbolKey>, t: Tallies, g: nat)
    requires g < |t.definition| == |t.generated| == |t.readonly| == |t.dependency| == |t.editable|
    requires semantic & !SEMANTIC == 0
    ensures BitsTell(ProfileOf(u, group, semantic, defined, t, g), semantic, !t.definition[g] && IsSynthesized(group, defined),
                     t.dependency[g])
  {
    var p := ProfileOf(u, group, semantic, defined, t, g);
    AddedBits(semantic, p.mask, p.isExternal, !t.definition[g] && IsSynthesized(group, defined), t.generated[g], t.readonly[g],
              t.dependency[g]);
  }

  lemma FitsFromBits(p: RenameProfile, u: Unicode, b: Batch, stream: seq<Placed>, group: set<SymbolKey>, occs: seq<Placed>,
                     semantic: bv64, dependency: bool)
    requires BitsTell(p, semantic, !HasDefinition(occs) && IsSynthesizedIn(group, stream), dependency)
    requires TellsReasons(semantic, b, group) && (semantic == 0 <==> Clean(b, group))
    requires (p.isLocal <==> AllLocal(group)) && (p.isExternal <==> !HasDefinition(occs) && !IsSynthesizedIn(group, stream))
    requires p.hasGenerated <==> exists o | o in occs :: o.facts.generated
    requires p.hasReadonly <==> exists o | o in occs :: o.facts.readonly
    requires dependency <==> exists o | o in occs :: o.facts.dependencySource
    requires (p.hasOverrideFamily <==> semantic & OVERRIDE_FAMILY != 0) && (p.hasCompanion <==> HasTypeAndTerm(u, group))
    requires p.editableCount == EditableCount(occs)
    ensures Fits(p, u, b, stream, group, occs)
  {
    AllEditable(occs);
    assert !p.hasGenerated && !p.hasReadonly && !dependency <==> forall o | o in occs :: o.facts.Editable();
  }

  lemma ProfileFits(u: Unicode, b: Batch, group: set<SymbolKey>, semantic: bv64, defined: set<SymbolKey>, t: Tallies, g: nat,
                    stream: seq<Placed>, occs: seq<Placed>)
    requires defined == DefinedGlobals(stream)
    requires g < |t.definition| == |t.generated| == |t.readonly| == |t.dependency| == |t.editable| && TalliedAt(t, g, occs)
    requires TellsReasons(semantic, b, group) && semantic & !SEMANTIC == 0 && (semantic == 0 <==> Clean(b, group))
    ensures Fits(ProfileOf(u, group, semantic, defined, t, g), u, b, stream, group, occs)
  {
    ProfileBits(u, group, semantic, defined, t, g);
    OwnerDefinedMeans(group, stream);
    HasCompanionMeans(u, group);
    FitsFromBits(ProfileOf(u, group, semantic, defined, t, g), u, b, stream, group, occs, semantic, t.dependency[g]);
  }

  method BuildProfiles(u: Unicode, docs: seq<Document>, groups: AliasGroups, facts: map<string, DocFacts>, ghost b: Batch)
    returns (profiles: seq<RenameProfile>)
    requires (forall k | k in groups.renameIndex :: groups.renameIndex[k] < |groups.renameGroups|)
    requires MasksFit(b, groups.renameGroups, groups.semanticMask)
    ensures |profiles| == |groups.renameGroups|
    ensures forall g | 0 <= g < |profiles| ::
              Fits(profiles[g], u, b, Stream(docs, facts), groups.renameGroups[g],
                   GroupOccs(Stream(docs, facts), groups.renameIndex, g))
  {
    var n := |groups.renameGroups|;
    var t, defined := TallyDocs(docs, facts, groups.renameIndex, n);
    profiles := seq(n, g requires 0 <= g < n =>
      ProfileOf(u, groups.renameGroups[g], groups.semanticMask[g], defined, t, g));
    forall g | 0 <= g < n
      ensures Fits(profiles[g], u, b, Stream(docs, facts), groups.renameGroups[g], GroupOccs(Stream(docs, facts), groups.renameIndex, g))
    {
      var occs := GroupOccs(Stream(docs, facts), groups.renameIndex, g);
      assert TalliedAt(t, g, occs);
      ProfileFits(u, b, groups.renameGroups[g], groups.semanticMask[g], defined, t, g, Stream(docs, facts), occs);
    }
  }
}
