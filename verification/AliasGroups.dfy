/** Reasons that make a rename group unsafe, as one bit each. */
module UnsafeReason {
  const EXTERNAL: bv64 := 0x1
  const GENERATED_OCCURRENCE: bv64 := 0x2
  const READONLY_OCCURRENCE: bv64 := 0x4
  const OVERRIDE_FAMILY: bv64 := 0x8
  const SYNTHETIC_ONLY: bv64 := 0x10
  const UNSUPPORTED_SYMBOL_FAMILY: bv64 := 0x80
  const DEPENDENCY_SOURCE: bv64 := 0x100
  const OPAQUE_TYPE: bv64 := 0x200

  /** The reasons that need no document facts, and all of them. */
  const SEMANTIC: bv64 := 0x288
  const ALL: bv64 := 0x39f

  function BitIf(c: bool, bit: bv64): bv64 {
    if c then bit else 0
  }

  /** The semantic reasons as one mask: each bit can be read back, and no other is set. */
  lemma SemanticBits(mask: bv64, override: bool, unsupported: bool, opaqueType: bool)
    requires mask == BitIf(override, OVERRIDE_FAMILY) | BitIf(unsupported, UNSUPPORTED_SYMBOL_FAMILY) | BitIf(opaqueType, OPAQUE_TYPE)
    ensures mask & OVERRIDE_FAMILY != 0 <==> override
    ensures mask & UNSUPPORTED_SYMBOL_FAMILY != 0 <==> unsupported
    ensures mask & OPAQUE_TYPE != 0 <==> opaqueType
    ensures mask & !SEMANTIC == 0
    ensures mask == 0 <==> !override && !unsupported && !opaqueType
  {
  }

  function FullMask(semantic: bv64, external: bool, synthetic: bool, generated: bool, readonly: bool, dependency: bool): bv64 {
    semantic
    | BitIf(external, EXTERNAL)
    | BitIf(synthetic, SYNTHETIC_ONLY)
    | BitIf(generated, GENERATED_OCCURRENCE)
    | BitIf(readonly, READONLY_OCCURRENCE)
    | BitIf(dependency, DEPENDENCY_SOURCE)
  }

  /** Adding the reasons that come from documents leaves the semantic ones as they are. */
  lemma AddedBits(semantic: bv64, mask: bv64, external: bool, synthetic: bool, generated: bool, readonly: bool, dependency: bool)
    requires semantic & !SEMANTIC == 0
    requires mask == FullMask(semantic, external, synthetic, generated, readonly, dependency)
    ensures mask & EXTERNAL != 0 <==> external
    ensures mask & SYNTHETIC_ONLY != 0 <==> synthetic
    ensures mask & GENERATED_OCCURRENCE != 0 <==> generated
    ensures mask & READONLY_OCCURRENCE != 0 <==> readonly
    ensures mask & DEPENDENCY_SOURCE != 0 <==> dependency
    ensures mask & SEMANTIC == semantic && mask & !ALL == 0
    ensures mask == 0 <==> semantic == 0 && !external && !synthetic && !generated && !readonly && !dependency
    ensures mask & OVERRIDE_FAMILY == semantic & OVERRIDE_FAMILY
    ensures mask & UNSUPPORTED_SYMBOL_FAMILY == semantic & UNSUPPORTED_SYMBOL_FAMILY
    ensures mask & OPAQUE_TYPE == semantic & OPAQUE_TYPE
  {
  }
}

/**
  * Alias groups of one ingest batch: the equivalence classes of the merge policy, computed by
  * union-find over the sorted keys.
  */
module AliasGroups {
  import opened Options
  import opened Lookup
  import opened IndexModel
  import opened Documents
  import opened Symbols
  import opened UnionFinds
  import opened Chains
  import opened UnsafeReason

  // ---------------------------------------------------------------------------
  // The merge policy
  // ---------------------------------------------------------------------------

  predicate EndsWith(s: string, c: char) {
    s != "" && s[|s| - 1] == c
  }

  /** A constructor merges with its class, apply and unapply with the companion class of their object,
      a setter with its getter and its field, and a type with its companion term. */
  predicate MergesInto(u: Unicode, symbol: string, target: string) {
    match SplitLast(symbol)
    case Some((owner, Method(name, _))) => MethodMergesInto(u, owner, name, target)
    case Some((_, Type(_))) => Companion(u, symbol) == Some(target)
    case _ => false
  }

  predicate MethodMergesInto(u: Unicode, owner: string, name: string, target: string) {
    if name == CONSTRUCTOR_NAME then EndsWith(owner, '#') && target == owner
    else if name == "apply" || name == "unapply" then EndsWith(owner, '.') && Companion(u, owner) == Some(target)
    else
      && IsSetterName(name)
      && var base := name[..|name| - 2];
      target == owner + Print(u, Method(base, "()")) || target == owner + Print(u, Term(base))
  }

  lemma {:induction false} SetterNames(name: string, base: string)
    ensures base != "" && name == base + "_=" ==> IsSetterName(name) && base == name[..|name| - 2]
    ensures IsSetterName(name) ==> name == name[..|name| - 2] + "_=" && name[..|name| - 2] != "" && name[|name| - 1] == '='
  {
    if name == base + "_=" {
      assert name[|base|..] == "_=" && name[..|base|] == base;
    }
    if IsSetterName(name) {
      assert name[|name| - 1] == name[|name| - 2..][1];
    }
  }

  lemma {:induction false} SettersMean(u: Unicode, symbol: string, target: string)
    requires SplitLast(symbol).Some? && SplitLast(symbol).value.1.Method?
    ensures var (owner, d) := SplitLast(symbol).value;
            SetterOf(u, symbol, target) <==>
            IsSetterName(d.name) && var base := EncodeName(u, d.name[..|d.name| - 2]);
                                    target == owner + base + "()." || target == owner + base + "."
  {
    var (owner, d) := SplitLast(symbol).value;
    if owner', base, disambiguator :|
      && base != "" && SplitLast(symbol) == Some((owner', Method(base + "_=", disambiguator)))
      && (target == owner' + EncodeName(u, base) + "()." || target == owner' + EncodeName(u, base) + ".") {
      SetterNames(d.name, base);
    }
    SetterNames(d.name, "");
    if IsSetterName(d.name) {
      assert SplitLast(symbol) == Some((owner, Method(d.name[..|d.name| - 2] + "_=", d.disambiguator)));
    }
  }

  lemma {:induction false} ConstructorsMean(symbol: string, target: string)
    requires SplitLast(symbol).Some? && SplitLast(symbol).value.1.Method?
    ensures var (owner, d) := SplitLast(symbol).value;
            ConstructorOf(symbol, target) <==> d.name == CONSTRUCTOR_NAME && EndsWith(owner, '#') && target == owner
  {
    var (owner, d) := SplitLast(symbol).value;
    if d.name == CONSTRUCTOR_NAME {
      assert SplitLast(symbol) == Some((owner, Method("<init>", d.disambiguator)));
    }
  }

  lemma {:induction false} AppliesMean(u: Unicode, symbol: string, target: string)
    requires SplitLast(symbol).Some? && SplitLast(symbol).value.1.Method?
    ensures var (owner, d) := SplitLast(symbol).value;
            ApplyOf(u, symbol, target) <==>
            (d.name == "apply" || d.name == "unapply") && EndsWith(owner, '.') && Companion(u, owner) == Some(target)
  {
    var (owner, d) := SplitLast(symbol).value;
    CompanionKinds(u, owner);
    if (d.name == "apply" || d.name == "unapply") && EndsWith(owner, '.') && Companion(u, owner) == Some(target) {
      var name := SplitLast(owner).value.1.name;
      assert SplitLast(owner).value.1 == Term(name);
      assert SplitLast(symbol) == Some((owner, Method("apply", d.disambiguator)))
          || SplitLast(symbol) == Some((owner, Method("unapply", d.disambiguator)));
    }
  }

  lemma {:induction false} MethodsMean(u: Unicode, owner: string, name: string, target: string)
    ensures MethodMergesInto(u, owner, name, target) <==>
            || (name == CONSTRUCTOR_NAME && EndsWith(owner, '#') && target == owner)
            || ((name == "apply" || name == "unapply") && EndsWith(owner, '.') && Companion(u, owner) == Some(target))
            || (IsSetterName(name) && var base := EncodeName(u, name[..|name| - 2]);
                                      target == owner + base + "()." || target == owner + base + ".")
  {
    SetterNames(name, "");
    if IsSetterName(name) {
      var base := name[..|name| - 2];
      assert owner + EncodeName(u, base) + "()." == owner + Print(u, Method(base, "()"));
      assert owner + EncodeName(u, base) + "." == owner + Print(u, Term(base));
    }
  }

  /** The policy, case by case. */
  lemma {:induction false} MergesMean(u: Unicode, symbol: string, target: string)
    ensures MergesInto(u, symbol, target) <==>
            || ConstructorOf(symbol, target)
            || ApplyOf(u, symbol, target)
            || SetterOf(u, symbol, target)
            || TypeWithTerm(u, symbol, target)
  {
    var split := SplitLast(symbol);
    if split.Some? && split.value.1.Method? {
      MethodsMean(u, split.value.0, split.value.1.name, target);
      ConstructorsMean(symbol, target);
      AppliesMean(u, symbol, target);
      SettersMean(u, symbol, target);
    }
  }

  /** `C#<init>(..).` and `C#`. */
  ghost predicate ConstructorOf(symbol: string, cls: string) {
    EndsWith(cls, '#') && exists disambiguator :: SplitLast(symbol) == Some((cls, Method("<init>", disambiguator)))
  }

  /** `X.apply(..).` or `X.unapply(..).` and `X#`. */
  ghost predicate ApplyOf(u: Unicode, symbol: string, cls: string) {
    exists owner, name, disambiguator ::
      && (SplitLast(symbol) == Some((owner, Method("apply", disambiguator)))
          || SplitLast(symbol) == Some((owner, Method("unapply", disambiguator))))
      && SplitLast(owner).Some? && SplitLast(owner).value.1 == Term(name)
      && cls == SplitLast(owner).value.0 + EncodeName(u, name) + "#"
  }

  /** `x_=(..).` and `x().` or `x.` of the same owner. */
  ghost predicate SetterOf(u: Unicode, symbol: string, target: string) {
    exists owner, base, disambiguator ::
      && base != "" && SplitLast(symbol) == Some((owner, Method(base + "_=", disambiguator)))
      && (target == owner + EncodeName(u, base) + "()." || target == owner + EncodeName(u, base) + ".")
  }

  /** `X#` and `X.`. */
  ghost predicate TypeWithTerm(u: Unicode, symbol: string, term: string) {
    exists owner, name :: SplitLast(symbol) == Some((owner, Type(name))) && term == owner + EncodeName(u, name) + "."
  }

  predicate Merges(u: Unicode, a: SymbolKey, b: SymbolKey) {
    !a.IsLocal() && !b.IsLocal() && MergesInto(u, a.symbol, b.symbol)
  }

  /** Owner and raw descriptor text. */
  function DescriptorSplit(symbol: string): Option<(string, string)> {
    match SplitLast(symbol)
    case None => None
    case Some((owner, _)) => Some((owner, symbol[|owner|..]))
  }

  predicate SameDescriptorElsewhere(a: string, b: string) {
    var x, y := DescriptorSplit(a), DescriptorSplit(b);
    x.Some? && y.Some? && x.value.1 == y.value.1 && x.value.0 != y.value.0
  }

  predicate IsMethod(info: map<SymbolKey, SymbolInfo>, k: SymbolKey) {
    k in info && info[k].kind.MethodKind?
  }

  /** What the batch knows: every key, the first info of each, and which are defined in it. */
  datatype Batch = Batch(keys: set<SymbolKey>, info: map<SymbolKey, SymbolInfo>, defined: set<SymbolKey>)

  /** `orig` is a defined method with the descriptor of `k` under another owner. */
  predicate IsOriginal(b: Batch, k: SymbolKey, orig: SymbolKey) {
    && orig in b.keys && !orig.IsLocal() && orig in b.defined && IsMethod(b.info, orig)
    && SameDescriptorElsewhere(k.symbol, orig.symbol)
  }

  predicate MayForward(b: Batch, k: SymbolKey) {
    k in b.keys && !k.IsLocal() && IsMethod(b.info, k) && k !in b.defined
  }

  /** An export forwarder: an undefined method with exactly one original. */
  ghost predicate Forwards(b: Batch, k: SymbolKey, orig: SymbolKey) {
    MayForward(b, k) && IsOriginal(b, k, orig) && forall o | IsOriginal(b, k, o) :: o == orig
  }

  ghost predicate IsForwarder(b: Batch, k: SymbolKey) {
    exists orig :: Forwards(b, k, orig)
  }

  ghost function PolicyEdges(u: Unicode, b: Batch): set<(SymbolKey, SymbolKey)> {
    (set x, y | x in b.keys && y in b.keys && Merges(u, x, y) :: (x, y)) +
    (set x, y | x in b.keys && y in b.keys && Forwards(b, x, y) :: (x, y))
  }

  // ---------------------------------------------------------------------------
  // The batch of a list of documents
  // ---------------------------------------------------------------------------

  function ImpliedClass(k: SymbolKey): Option<SymbolKey> {
    match SplitLast(k.symbol)
    case Some((owner, Method(name, _))) =>
      if !k.IsLocal() && name == CONSTRUCTOR_NAME && EndsWith(owner, '#') then Some(Global(owner)) else None
    case _ => None
  }

  /** Every key mentioned, and the class of every constructor mentioned. */
  function Universe(mentioned: set<SymbolKey>): set<SymbolKey> {
    mentioned + set k | k in mentioned && ImpliedClass(k).Some? :: ImpliedClass(k).value
  }

  function BatchOf(docs: seq<Document>): Batch {
    Batch(Universe(MentionedKeys(docs)), InfoMap(AllInfos(docs)), DefinedKeys(AllOccurrences(docs)))
  }

  /** The first info of each key, and the keys. */
  method CollectInfos(known: set<SymbolKey>, soFar: map<SymbolKey, SymbolInfo>, symbols: seq<SymbolInfo>,
                      ghost infos: seq<SymbolInfo>)
    returns (keys: set<SymbolKey>, info: map<SymbolKey, SymbolInfo>)
    requires soFar == InfoMap(infos)
    ensures keys == known + InfoKeys(symbols) && info == InfoMap(infos + symbols)
  {
    keys, info := known, soFar;
    assert infos + symbols[..0] == infos;
    for i := 0 to |symbols|
      invariant keys == known + InfoKeys(symbols[..i]) && info == InfoMap(infos + symbols[..i])
    {
      var s := symbols[i];
      InfosNext(infos, symbols, i);
      keys := keys + {s.key};
      if s.key !in info {
        info := info[s.key := s];
      }
    }
    assert symbols[..|symbols|] == symbols;
  }

  lemma InfosNext(infos: seq<SymbolInfo>, symbols: seq<SymbolInfo>, i: nat)
    requires i < |symbols|
    ensures var s, before := symbols[i], InfoMap(infos + symbols[..i]);
            && InfoKeys(symbols[..i + 1]) == InfoKeys(symbols[..i]) + {s.key}
            && InfoMap(infos + symbols[..i + 1]) == if s.key in before then before else before[s.key := s]
  {
    var s := symbols[i];
    assert symbols[..i + 1] == symbols[..i] + [s];
    assert infos + symbols[..i + 1] == (infos + symbols[..i]) + [s];
    InfoMapNext(infos + symbols[..i], s);
    InfoKeysAppend(symbols[..i], [s]);
  }

  method CollectOccurrences(known: set<SymbolKey>, occs: seq<Occurrence>) returns (keys: set<SymbolKey>)
    ensures keys == known + OccurrenceKeys(occs)
  {
    keys := known;
    for i := 0 to |occs|
      invariant keys == known + OccurrenceKeys(occs[..i])
    {
      assert occs[..i + 1] == occs[..i] + [occs[i]];
      OccurrenceKeysAppend(occs[..i], [occs[i]]);
      keys := keys + {occs[i].key};
    }
    assert occs[..|occs|] == occs;
  }

  lemma MentionedNext(docs: seq<Document>, d: nat)
    requires d < |docs|
    ensures AllInfos(docs[..d + 1]) == AllInfos(docs[..d]) + docs[d].symbols
    ensures MentionedKeys(docs[..d + 1])
            == MentionedKeys(docs[..d]) + InfoKeys(docs[d].symbols) + OccurrenceKeys(docs[d].occurrences)
  {
    assert docs[..d + 1][..d] == docs[..d];
    InfoKeysAppend(AllInfos(docs[..d]), docs[d].symbols);
    OccurrenceKeysAppend(AllOccurrences(docs[..d]), docs[d].occurrences);
  }

  method CollectKeys(docs: seq<Document>) returns (keys: set<SymbolKey>, info: map<SymbolKey, SymbolInfo>)
    ensures keys == MentionedKeys(docs) && info == InfoMap(AllInfos(docs))
  {
    keys, info := {}, map[];
    for d := 0 to |docs|
      invariant keys == MentionedKeys(docs[..d]) && info == InfoMap(AllInfos(docs[..d]))
    {
      MentionedNext(docs, d);
      keys, info := CollectInfos(keys, info, docs[d].symbols, AllInfos(docs[..d]));
      keys := CollectOccurrences(keys, docs[d].occurrences);
    }
    assert docs[..|docs|] == docs;
  }

  method ImpliedClasses(keys: set<SymbolKey>) returns (implied: set<SymbolKey>)
    ensures implied == set k | k in keys && ImpliedClass(k).Some? :: ImpliedClass(k).value
  {
    implied := {};
    var rest := keys;
    while rest != {}
      invariant rest <= keys
      invariant implied == set k | k in keys - rest && ImpliedClass(k).Some? :: ImpliedClass(k).value
    {
      var key :| key in rest;
      ghost var before := implied;
      if !key.IsLocal() {
        match SplitLast(key.symbol) {
          case Some((owner, Method(name, _))) =>
            if name == CONSTRUCTOR_NAME && EndsWith(owner, '#') {
              implied := implied + {Global(owner)};
            }
          case _ =>
        }
      }
      assert implied == before + if ImpliedClass(key).Some? then {ImpliedClass(key).value} else {};
      assert keys - (rest - {key}) == (keys - rest) + {key};
      rest := rest - {key};
    }
    assert keys - rest == keys;
  }

  // ---------------------------------------------------------------------------
  // Telling the union-find every policy edge
  // ---------------------------------------------------------------------------

  ghost predicate Tracks(uf: UnionFind, keys: seq<SymbolKey>, edges: set<(SymbolKey, SymbolKey)>)
    reads uf.parent, uf.rank
  {
    uf.Valid() && uf.parent.Length == |keys| && Partitions(uf.Reps(), keys, edges)
  }

  predicate Indexes(indexOf: map<SymbolKey, nat>, keys: seq<SymbolKey>) {
    && (forall k | k in indexOf :: indexOf[k] < |keys| && keys[indexOf[k]] == k)
    && (forall k | k in keys :: k in indexOf)
  }

  method UnionAt(uf: UnionFind, keys: seq<SymbolKey>, a: nat, b: nat, ghost edges: set<(SymbolKey, SymbolKey)>)
    requires Tracks(uf, keys, edges) && a < |keys| && b < |keys|
    modifies uf.parent, uf.rank
    ensures Tracks(uf, keys, edges + {(keys[a], keys[b])})
  {
    ghost var reps := uf.Reps();
    uf.Union(a, b);
    ghost var gone, kept :| {gone, kept} == {reps[a], reps[b]} && uf.Reps() == Merged(reps, gone, kept);
    AddEdge(reps, keys, edges, a, b, gone, kept);
  }

  ghost function EdgesTo(keys: seq<SymbolKey>, a: SymbolKey, targets: set<string>): set<(SymbolKey, SymbolKey)> {
    set t | t in targets && Global(t) in keys :: (a, Global(t))
  }

  method UnionWithGlobal(uf: UnionFind, keys: seq<SymbolKey>, indexOf: map<SymbolKey, nat>, a: nat, target: string,
                         ghost edges: set<(SymbolKey, SymbolKey)>, ghost targets: set<string>)
    requires Indexes(indexOf, keys) && a < |keys|
    requires Tracks(uf, keys, edges + EdgesTo(keys, keys[a], targets))
    modifies uf.parent, uf.rank
    ensures Tracks(uf, keys, edges + EdgesTo(keys, keys[a], targets + {target}))
  {
    ghost var told := edges + EdgesTo(keys, keys[a], targets);
    ghost var goal := edges + EdgesTo(keys, keys[a], targets + {target});
    if Global(target) in indexOf {
      UnionAt(uf, keys, a, indexOf[Global(target)], told);
      assert told + {(keys[a], Global(target))} == goal;
    } else {
      assert told == goal;
    }
  }

  ghost function MergeEdgesOf(u: Unicode, keys: seq<SymbolKey>, a: SymbolKey): set<(SymbolKey, SymbolKey)> {
    set b | b in keys && Merges(u, a, b) :: (a, b)
  }

  lemma TargetsAreMerges(u: Unicode, keys: seq<SymbolKey>, a: SymbolKey, targets: set<string>)
    requires if a.IsLocal() then targets == {} else forall t :: t in targets <==> MergesInto(u, a.symbol, t)
    ensures EdgesTo(keys, a, targets) == MergeEdgesOf(u, keys, a)
  {
    forall b | b in keys && Merges(u, a, b) ensures (a, b) in EdgesTo(keys, a, targets) {
      assert b == Global(b.symbol) && b.symbol in targets;
    }
  }

  /** The policy step for one key. */
  method MergeKey(u: Unicode, uf: UnionFind, keys: seq<SymbolKey>, indexOf: map<SymbolKey, nat>, i: nat,
                  ghost edges: set<(SymbolKey, SymbolKey)>)
    requires Tracks(uf, keys, edges) && Indexes(indexOf, keys) && i < |keys|
    modifies uf.parent, uf.rank
    ensures Tracks(uf, keys, edges + MergeEdgesOf(u, keys, keys[i]))
  {
    ghost var targets: set<string> := {};
    assert edges + EdgesTo(keys, keys[i], {}) == edges;
    if !keys[i].IsLocal() {
      match SplitLast(keys[i].symbol) {
        case Some((owner, Method(name, _))) =>
          targets := MethodTargets(u, owner, name);
          MethodMerges(u, keys[i].symbol);
          MergeMethod(u, uf, keys, indexOf, i, edges, owner, name);
        case Some((owner, Type(name))) =>
          UnionWithGlobal(uf, keys, indexOf, i, owner + EncodeName(u, name) + ".", edges, {});
          targets := {} + {owner + EncodeName(u, name) + "."};
        case _ =>
      }
    }
    TargetsAreMerges(u, keys, keys[i], targets);
  }

  ghost function MethodTargets(u: Unicode, owner: string, name: string): set<string> {
    if name == CONSTRUCTOR_NAME then (if EndsWith(owner, '#') then {owner} else {})
    else if name == "apply" || name == "unapply" then
      (if EndsWith(owner, '.') && Companion(u, owner).Some? then {Companion(u, owner).value} else {})
    else if IsSetterName(name) then
      var base := owner + EncodeName(u, name[..|name| - 2]);
      {base + "().", base + "."}
    else {}
  }

  lemma MethodMerges(u: Unicode, symbol: string)
    requires SplitLast(symbol).Some? && SplitLast(symbol).value.1.Method?
    ensures var (owner, d) := SplitLast(symbol).value;
            forall t :: t in MethodTargets(u, owner, d.name) <==> MergesInto(u, symbol, t)
  {
    var (owner, d) := SplitLast(symbol).value;
    TargetsOfMethod(u, owner, d.name);
  }

  lemma TargetsOfMethod(u: Unicode, owner: string, name: string)
    ensures forall t :: t in MethodTargets(u, owner, name) <==> MethodMergesInto(u, owner, name, t)
  {
    if IsSetterName(name) {
      var base := name[..|name| - 2];
      assert owner + EncodeName(u, base) + "()." == owner + Print(u, Method(base, "()"));
      assert owner + EncodeName(u, base) + "." == owner + Print(u, Term(base));
    }
  }

  method MergeMethod(u: Unicode, uf: UnionFind, keys: seq<SymbolKey>, indexOf: map<SymbolKey, nat>, i: nat,
                     ghost edges: set<(SymbolKey, SymbolKey)>, owner: string, name: string)
    requires i < |keys| && Tracks(uf, keys, edges + EdgesTo(keys, keys[i], {})) && Indexes(indexOf, keys)
    modifies uf.parent, uf.rank
    ensures Tracks(uf, keys, edges + EdgesTo(keys, keys[i], MethodTargets(u, owner, name)))
  {
    if name == CONSTRUCTOR_NAME {
      if EndsWith(owner, '#') {
        UnionWithGlobal(uf, keys, indexOf, i, owner, edges, {});
        assert {} + {owner} == {owner};
      }
    } else if name == "apply" || name == "unapply" {
      if EndsWith(owner, '.') {
        var cls := Companion(u, owner);
        if cls.Some? {
          if Global(cls.value) in indexOf {
            UnionWithGlobal(uf, keys, indexOf, i, cls.value, edges, {});
            assert {} + {cls.value} == {cls.value};
          } else {
            assert EdgesTo(keys, keys[i], {cls.value}) == EdgesTo(keys, keys[i], {});
          }
        }
      }
    } else if IsSetterName(name) {
      var base := owner + EncodeName(u, name[..|name| - 2]);
      UnionWithGlobal(uf, keys, indexOf, i, base + "().", edges, {});
      UnionWithGlobal(uf, keys, indexOf, i, base + ".", edges, {} + {base + "()."});
      assert {} + {base + "()."} + {base + "."} == {base + "().", base + "."};
    }
  }

  ghost function MergeEdges(u: Unicode, keys: seq<SymbolKey>, n: nat): set<(SymbolKey, SymbolKey)>
    requires n <= |keys|
  {
    set a, b | a in keys[..n] && b in keys && Merges(u, a, b) :: (a, b)
  }

  lemma MergeEdgesNext(u: Unicode, keys: seq<SymbolKey>, i: nat)
    requires i < |keys|
    ensures MergeEdges(u, keys, i + 1) == MergeEdges(u, keys, i) + MergeEdgesOf(u, keys, keys[i])
  {
    assert keys[..i + 1] == keys[..i] + [keys[i]];
    assert forall a :: a in keys[..i + 1] <==> a in keys[..i] || a == keys[i];
  }

  method MergePolicy(u: Unicode, uf: UnionFind, keys: seq<SymbolKey>, indexOf: map<SymbolKey, nat>)
    requires Tracks(uf, keys, {}) && Indexes(indexOf, keys)
    modifies uf.parent, uf.rank
    ensures Tracks(uf, keys, MergeEdges(u, keys, |keys|))
  {
    assert MergeEdges(u, keys, 0) == {};
    for i := 0 to |keys|
      invariant Tracks(uf, keys, MergeEdges(u, keys, i))
    {
      MergeEdgesNext(u, keys, i);
      MergeKey(u, uf, keys, indexOf, i, MergeEdges(u, keys, i));
    }
  }

  // ---------------------------------------------------------------------------
  // Export forwarders
  // ---------------------------------------------------------------------------

  predicate IsDefinedMethod(b: Batch, k: SymbolKey) {
    !k.IsLocal() && k in b.defined && IsMethod(b.info, k)
  }

  /** The defined methods that carry a descriptor. */
  ghost predicate Lists(b: Batch, keys: seq<SymbolKey>, desc: string, listed: seq<SymbolKey>) {
    && Distinct(listed)
    && forall k :: k in listed <==> k in keys && HasDescriptor(b, k, desc)
  }

  /** A defined method with the given raw descriptor. */
  predicate HasDescriptor(b: Batch, k: SymbolKey, desc: string) {
    var split := DescriptorSplit(k.symbol);
    IsDefinedMethod(b, k) && split.Some? && split.value.1 == desc
  }

  lemma ListsNext(b: Batch, keys: seq<SymbolKey>, k: SymbolKey, desc: string, listed: seq<SymbolKey>)
    requires Lists(b, keys, desc, listed) && k !in keys
    ensures Lists(b, keys + [k], desc, if HasDescriptor(b, k, desc) then listed + [k] else listed)
  {
  }

  function Listed(byDescriptor: map<string, seq<SymbolKey>>, desc: string): seq<SymbolKey> {
    if desc in byDescriptor then byDescriptor[desc] else []
  }

  method MethodsByDescriptor(b: Batch, keys: seq<SymbolKey>) returns (byDescriptor: map<string, seq<SymbolKey>>)
    requires Distinct(keys)
    ensures forall desc :: Lists(b, keys, desc, Listed(byDescriptor, desc))
  {
    byDescriptor := map[];
    for i := 0 to |keys|
      invariant forall desc :: Lists(b, keys[..i], desc, Listed(byDescriptor, desc))
    {
      var k := keys[i];
      ghost var before := byDescriptor;
      var split := DescriptorSplit(k.symbol);
      if IsDefinedMethod(b, k) && split.Some? {
        var desc := split.value.1;
        byDescriptor := byDescriptor[desc := Listed(byDescriptor, desc) + [k]];
      }
      assert keys[..i + 1] == keys[..i] + [k];
      forall desc ensures Lists(b, keys[..i + 1], desc, Listed(byDescriptor, desc)) {
        assert Lists(b, keys[..i], desc, Listed(before, desc));
        ListsNext(b, keys[..i], k, desc, Listed(before, desc));
      }
    }
    assert keys[..|keys|] == keys;
  }

  function UnderOtherOwner(listed: seq<SymbolKey>, owner: string): (r: seq<SymbolKey>)
    ensures forall k :: k in r <==>
                        && k in listed
                        && DescriptorSplit(k.symbol).Some? && DescriptorSplit(k.symbol).value.0 != owner
    ensures Distinct(listed) ==> Distinct(r)
  {
    if listed == [] then []
    else
      var last := listed[|listed| - 1];
      var split := DescriptorSplit(last.symbol);
      var before := UnderOtherOwner(listed[..|listed| - 1], owner);
      assert forall k :: k in listed <==> k in listed[..|listed| - 1] || k == last;
      if split.Some? && split.value.0 != owner then before + [last] else before
  }

  /** A key forwards exactly when its candidate list has one element. */
  lemma UniqueCandidate(b: Batch, keys: seq<SymbolKey>, k: SymbolKey, listed: seq<SymbolKey>)
    requires (forall x :: x in keys <==> x in b.keys) && MayForward(b, k) && DescriptorSplit(k.symbol).Some?
    requires Lists(b, keys, DescriptorSplit(k.symbol).value.1, listed)
    ensures var candidates := UnderOtherOwner(listed, DescriptorSplit(k.symbol).value.0);
            && (|candidates| == 1 ==> Forwards(b, k, candidates[0]))
            && (|candidates| != 1 ==> !IsForwarder(b, k))
  {
    var candidates := UnderOtherOwner(listed, DescriptorSplit(k.symbol).value.0);
    assert forall o :: o in candidates <==> IsOriginal(b, k, o);
    forall orig | Forwards(b, k, orig) ensures |candidates| == 1 {
      SoleElement(candidates, orig);
    }
  }

  lemma SoleElement<T(!new)>(s: seq<T>, x: T)
    requires Distinct(s) && x in s && forall y | y in s :: y == x
    ensures |s| == 1
  {
    assert s[0] in s && s[|s| - 1] in s;
  }

  ghost function ForwardEdges(b: Batch, keys: seq<SymbolKey>): set<(SymbolKey, SymbolKey)> {
    set x, y | x in keys && y in b.keys && Forwards(b, x, y) :: (x, y)
  }

  /** The forwarder step for one key. */
  method ForwardKey(uf: UnionFind, keys: seq<SymbolKey>, indexOf: map<SymbolKey, nat>, b: Batch,
                    byDescriptor: map<string, seq<SymbolKey>>, i: nat, ghost edges: set<(SymbolKey, SymbolKey)>)
    returns (forwards: bool)
    requires Tracks(uf, keys, edges) && Indexes(indexOf, keys) && i < |keys| && forall x :: x in keys <==> x in b.keys
    requires forall desc :: Lists(b, keys, desc, Listed(byDescriptor, desc))
    modifies uf.parent, uf.rank
    ensures Tracks(uf, keys, edges + ForwardEdges(b, [keys[i]]))
    ensures forwards <==> IsForwarder(b, keys[i])
  {
    var key := keys[i];
    var split := DescriptorSplit(key.symbol);
    ghost var goal := edges + ForwardEdges(b, [key]);
    forwards := false;
    if MayForward(b, key) && split.Some? {
      var candidates := UnderOtherOwner(Listed(byDescriptor, split.value.1), split.value.0);
      UniqueCandidate(b, keys, key, Listed(byDescriptor, split.value.1));
      if |candidates| == 1 {
        forwards := true;
        UnionAt(uf, keys, i, indexOf[candidates[0]], edges);
        assert edges + {(key, candidates[0])} == goal;
      }
    }
    if !forwards {
      assert goal == edges;
    }
  }

  lemma ForwardEdgesNext(b: Batch, keys: seq<SymbolKey>, i: nat)
    requires i < |keys|
    ensures ForwardEdges(b, keys[..i + 1]) == ForwardEdges(b, keys[..i]) + ForwardEdges(b, [keys[i]])
    ensures forall k :: k in keys[..i + 1] <==> k in keys[..i] || k == keys[i]
  {
    assert keys[..i + 1] == keys[..i] + [keys[i]];
  }

  method MergeForwarders(uf: UnionFind, keys: seq<SymbolKey>, indexOf: map<SymbolKey, nat>, b: Batch,
                         ghost edges: set<(SymbolKey, SymbolKey)>) returns (forwarders: set<SymbolKey>)
    requires Tracks(uf, keys, edges) && Indexes(indexOf, keys) && Distinct(keys) && forall x :: x in keys <==> x in b.keys
    modifies uf.parent, uf.rank
    ensures Tracks(uf, keys, edges + ForwardEdges(b, keys))
    ensures forall k :: k in forwarders <==> k in keys && IsForwarder(b, k)
  {
    var byDescriptor := MethodsByDescriptor(b, keys);
    forwarders := {};
    ghost var told := edges;
    for i := 0 to |keys|
      invariant Tracks(uf, keys, told) && told == edges + ForwardEdges(b, keys[..i])
      invariant forall k :: k in forwarders <==> k in keys[..i] && IsForwarder(b, k)
    {
      var forwards := ForwardKey(uf, keys, indexOf, b, byDescriptor, i, told);
      if forwards {
        forwarders := forwarders + {keys[i]};
      }
      told := told + ForwardEdges(b, [keys[i]]);
      ForwardEdgesNext(b, keys, i);
    }
    assert keys[..|keys|] == keys;
  }

  // ---------------------------------------------------------------------------
  // Assembling the groups
  // ---------------------------------------------------------------------------

  /** The groups are the connected components of the edges, and the index says which is whose. */
  ghost predicate ExactGroups(groups: seq<set<SymbolKey>>, index: map<SymbolKey, nat>, keys: set<SymbolKey>,
                              edges: set<(SymbolKey, SymbolKey)>) {
    && index.Keys == keys
    && (forall k | k in index :: index[k] < |groups| && k in groups[index[k]])
    && (forall g, k | 0 <= g < |groups| && k in groups[g] :: k in index && index[k] == g)
    && (forall g | 0 <= g < |groups| :: groups[g] != {})
    && (forall a, b | a in keys && b in keys :: index[a] == index[b] <==> Connected(edges, a, b))
  }

  /** Every member of a later group is preceded by some member of an earlier one. */
  ghost predicate OrderedByLeast(groups: seq<set<SymbolKey>>) {
    forall g, h, b | 0 <= g < h < |groups| && b in groups[h] :: exists a :: a in groups[g] && KeyLe(a, b)
  }

  /** `order` lists the representatives of the first `n` keys by first appearance. */
  ghost predicate FirstAppearance(reps: seq<nat>, n: nat, order: seq<nat>, first: seq<nat>) {
    && n <= |reps| && |first| == |order|
    && (forall x | 0 <= x < |order| :: first[x] < n && reps[first[x]] == order[x])
    && (forall x, y | 0 <= x < y < |order| :: first[x] < first[y] && order[x] != order[y])
    && (forall j | 0 <= j < n :: reps[j] in order)
    && (forall x, j | 0 <= x < |order| && 0 <= j < n && reps[j] == order[x] :: first[x] <= j)
  }

  /** The members that the first `n` keys give to the representative `r`. */
  ghost function Bucket(reps: seq<nat>, keys: seq<SymbolKey>, n: nat, r: nat): set<SymbolKey>
    requires n <= |reps| == |keys|
  {
    set j | 0 <= j < n && reps[j] == r :: keys[j]
  }

  lemma BucketPush(reps: seq<nat>, keys: seq<SymbolKey>, n: nat, r: nat)
    requires n < |reps| == |keys|
    ensures Bucket(reps, keys, n + 1, r) == Bucket(reps, keys, n, r) + if reps[n] == r then {keys[n]} else {}
  {
  }

  function Members(buckets: map<nat, seq<SymbolKey>>, r: nat): set<SymbolKey> {
    if r in buckets then set k | k in buckets[r] else {}
  }

  lemma NextAppearance(reps: seq<nat>, n: nat, order: seq<nat>, first: seq<nat>)
    requires FirstAppearance(reps, n, order, first) && n < |reps|
    ensures reps[n] in order ==> FirstAppearance(reps, n + 1, order, first)
    ensures reps[n] !in order ==> FirstAppearance(reps, n + 1, order + [reps[n]], first + [n])
  {
  }

  function Push(buckets: map<nat, seq<SymbolKey>>, r: nat, k: SymbolKey): map<nat, seq<SymbolKey>> {
    buckets[r := (if r in buckets then buckets[r] else []) + [k]]
  }

  lemma BucketStep(before: map<nat, seq<SymbolKey>>, reps: seq<nat>, keys: seq<SymbolKey>, n: nat)
    requires n < |reps| == |keys| && forall r: nat :: Members(before, r) == Bucket(reps, keys, n, r)
    ensures var after := Push(before, reps[n], keys[n]);
            && (forall r: nat :: Members(after, r) == Bucket(reps, keys, n + 1, r))
            && (forall r: nat :: r in after <==> r in before || r == reps[n])
  {
    var after := Push(before, reps[n], keys[n]);
    forall r: nat ensures Members(after, r) == Bucket(reps, keys, n + 1, r) {
      BucketPush(reps, keys, n, r);
      assert Members(after, r) == Members(before, r) + if r == reps[n] then {keys[n]} else {};
    }
  }

  /** The first `n` keys are in their buckets, and the buckets in order of first appearance. */
  ghost predicate Bucketed(reps: seq<nat>, keys: seq<SymbolKey>, n: nat, order: seq<nat>, first: seq<nat>,
                           buckets: map<nat, seq<SymbolKey>>) {
    && |reps| == |keys| && FirstAppearance(reps, n, order, first)
    && (forall r: nat :: r in buckets <==> r in order)
    && (forall r: nat :: Members(buckets, r) == Bucket(reps, keys, n, r))
  }

  method Place(root: nat, key: SymbolKey, order0: seq<nat>, buckets0: map<nat, seq<SymbolKey>>,
               ghost reps: seq<nat>, ghost keys: seq<SymbolKey>, ghost n: nat, ghost first0: seq<nat>)
    returns (order: seq<nat>, buckets: map<nat, seq<SymbolKey>>, ghost first: seq<nat>)
    requires Bucketed(reps, keys, n, order0, first0, buckets0) && n < |keys| && root == reps[n] && key == keys[n]
    ensures Bucketed(reps, keys, n + 1, order, first, buckets)
  {
    order, first := order0, first0;
    NextAppearance(reps, n, order, first);
    BucketStep(buckets0, reps, keys, n);
    if root !in buckets0 {
      order := order + [root];
      first := first + [n];
    }
    buckets := Push(buckets0, root, key);
  }

  method Buckets(uf: UnionFind, keys: seq<SymbolKey>)
    returns (order: seq<nat>, groups: seq<set<SymbolKey>>, ghost reps: seq<nat>, ghost first: seq<nat>)
    requires uf.Valid() && uf.parent.Length == |keys|
    modifies uf.parent
    ensures reps == old(uf.Reps()) && FirstAppearance(reps, |keys|, order, first) && Grouped(reps, keys, order, groups)
  {
    reps := uf.Reps();
    order, first := [], [];
    var buckets: map<nat, seq<SymbolKey>> := map[];
    NothingBucketed(reps, keys);
    for i := 0 to |keys|
      invariant uf.Valid() && uf.Reps() == reps
      invariant Bucketed(reps, keys, i, order, first, buckets)
    {
      var root, _ := uf.Find(i);
      order, buckets, first := Place(root, keys[i], order, buckets, reps, keys, i, first);
    }
    groups := Gather(order, buckets);
    AllBucketed(reps, keys, order, first, buckets, groups);
  }

  lemma NothingBucketed(reps: seq<nat>, keys: seq<SymbolKey>)
    requires |reps| == |keys|
    ensures Bucketed(reps, keys, 0, [], [], map[])
  {
  }

  function Gather(order: seq<nat>, buckets: map<nat, seq<SymbolKey>>): (groups: seq<set<SymbolKey>>)
    ensures |groups| == |order| && forall x | 0 <= x < |order| :: groups[x] == Members(buckets, order[x])
  {
    seq(|order|, x requires 0 <= x < |order| => Members(buckets, order[x]))
  }

  lemma AllBucketed(reps: seq<nat>, keys: seq<SymbolKey>, order: seq<nat>, first: seq<nat>, buckets: map<nat, seq<SymbolKey>>,
                    groups: seq<set<SymbolKey>>)
    requires Bucketed(reps, keys, |keys|, order, first, buckets) && |groups| == |order|
    requires forall x | 0 <= x < |order| :: groups[x] == Members(buckets, order[x])
    ensures Grouped(reps, keys, order, groups)
  {
  }

  ghost predicate InSome(groups: seq<set<SymbolKey>>, n: nat, k: SymbolKey) {
    exists h | 0 <= h < n && h < |groups| :: k in groups[h]
  }

  method IndexGroups(groups: seq<set<SymbolKey>>) returns (index: map<SymbolKey, nat>)
    ensures forall k :: k in index <==> InSome(groups, |groups|, k)
    ensures forall k | k in index :: index[k] < |groups| && k in groups[index[k]]
  {
    index := map[];
    for g := 0 to |groups|
      invariant forall k :: k in index <==> InSome(groups, g, k)
      invariant forall k | k in index :: index[k] < g && k in groups[index[k]]
    {
      index := index + map k | k in groups[g] :: g;
    }
  }

  method Assemble(uf: UnionFind, keys: seq<SymbolKey>, ghost universe: set<SymbolKey>,
                  ghost edges: set<(SymbolKey, SymbolKey)>)
    returns (groups: seq<set<SymbolKey>>, index: map<SymbolKey, nat>)
    requires Tracks(uf, keys, edges) && Sorted(keys) && forall k :: k in keys <==> k in universe
    modifies uf.parent
    ensures ExactGroups(groups, index, universe, edges) && OrderedByLeast(groups)
  {
    var order: seq<nat>;
    ghost var reps, first;
    order, groups, reps, first := Buckets(uf, keys);
    index := IndexGroups(groups);
    assert Distinct(keys);
    GroupsAreExact(reps, keys, universe, edges, order, first, groups, index);
    GroupsAreOrdered(reps, keys, order, first, groups);
  }

  ghost predicate Grouped(reps: seq<nat>, keys: seq<SymbolKey>, order: seq<nat>, groups: seq<set<SymbolKey>>) {
    && |reps| == |keys| && |groups| == |order|
    && forall x | 0 <= x < |order| :: groups[x] == Bucket(reps, keys, |keys|, order[x])
  }

  lemma GroupsAreOrdered(reps: seq<nat>, keys: seq<SymbolKey>, order: seq<nat>, first: seq<nat>, groups: seq<set<SymbolKey>>)
    requires Grouped(reps, keys, order, groups) && FirstAppearance(reps, |keys|, order, first) && Sorted(keys)
    ensures OrderedByLeast(groups)
  {
    forall g, h, b | 0 <= g < h < |groups| && b in groups[h] ensures exists a :: a in groups[g] && KeyLe(a, b) {
      var j :| 0 <= j < |keys| && keys[j] == b && reps[j] == order[h];
      var a := keys[first[g]];
      assert first[g] < first[h] <= j;
      assert a in groups[g] && KeyLe(a, b);
    }
  }

  /** Key `j` is in group `g` exactly when `g` collects its representative. */
  lemma MemberRep(reps: seq<nat>, keys: seq<SymbolKey>, order: seq<nat>, groups: seq<set<SymbolKey>>, j: nat, g: nat)
    requires Grouped(reps, keys, order, groups) && Distinct(keys) && j < |keys| && g < |groups|
    ensures keys[j] in groups[g] <==> reps[j] == order[g]
  {
    if keys[j] in groups[g] {
      var i :| 0 <= i < |keys| && reps[i] == order[g] && keys[i] == keys[j];
    }
  }

  lemma GroupsAreCovering(reps: seq<nat>, keys: seq<SymbolKey>, order: seq<nat>, first: seq<nat>,
                          groups: seq<set<SymbolKey>>, index: map<SymbolKey, nat>)
    requires Grouped(reps, keys, order, groups) && FirstAppearance(reps, |keys|, order, first) && Distinct(keys)
    requires forall k :: k in index <==> InSome(groups, |groups|, k)
    requires forall k | k in index :: index[k] < |groups| && k in groups[index[k]]
    ensures forall k :: k in index <==> k in keys
    ensures forall j | 0 <= j < |keys| :: keys[j] in index && order[index[keys[j]]] == reps[j]
    ensures forall g | 0 <= g < |groups| :: groups[g] != {}
  {
    forall j | 0 <= j < |keys| ensures keys[j] in index && order[index[keys[j]]] == reps[j] {
      var x :| 0 <= x < |order| && order[x] == reps[j];
      MemberRep(reps, keys, order, groups, j, x);
      MemberRep(reps, keys, order, groups, j, index[keys[j]]);
    }
    forall g | 0 <= g < |groups| ensures groups[g] != {} {
      assert keys[first[g]] in groups[g];
    }
  }

  lemma GroupsAreDisjoint(reps: seq<nat>, keys: seq<SymbolKey>, order: seq<nat>, groups: seq<set<SymbolKey>>,
                          index: map<SymbolKey, nat>)
    requires Grouped(reps, keys, order, groups) && Distinct(keys) && Distinct(order)
    requires forall j | 0 <= j < |keys| ::
               keys[j] in index && index[keys[j]] < |groups| && order[index[keys[j]]] == reps[j]
    ensures forall g, k | 0 <= g < |groups| && k in groups[g] :: k in index && index[k] == g
  {
    forall g, k | 0 <= g < |groups| && k in groups[g] ensures k in index && index[k] == g {
      var j :| 0 <= j < |keys| && keys[j] == k;
      MemberRep(reps, keys, order, groups, j, g);
    }
  }

  lemma GroupsAreExact(reps: seq<nat>, keys: seq<SymbolKey>, universe: set<SymbolKey>, edges: set<(SymbolKey, SymbolKey)>,
                       order: seq<nat>, first: seq<nat>, groups: seq<set<SymbolKey>>, index: map<SymbolKey, nat>)
    requires FirstAppearance(reps, |keys|, order, first) && Grouped(reps, keys, order, groups) && Distinct(keys)
    requires forall i, j | 0 <= i < |keys| && 0 <= j < |keys| :: SameIffConnected(reps, keys, edges, i, j)
    requires forall k :: k in keys <==> k in universe
    requires forall k :: k in index <==> InSome(groups, |groups|, k)
    requires forall k | k in index :: index[k] < |groups| && k in groups[index[k]]
    ensures ExactGroups(groups, index, universe, edges)
  {
    GroupsAreCovering(reps, keys, order, first, groups, index);
    CoveringIsExact(reps, keys, universe, edges, order, groups, index);
  }

  lemma CoveringIsExact(reps: seq<nat>, keys: seq<SymbolKey>, universe: set<SymbolKey>, edges: set<(SymbolKey, SymbolKey)>,
                        order: seq<nat>, groups: seq<set<SymbolKey>>, index: map<SymbolKey, nat>)
    requires Grouped(reps, keys, order, groups) && Distinct(keys) && Distinct(order)
    requires forall i, j | 0 <= i < |keys| && 0 <= j < |keys| :: SameIffConnected(reps, keys, edges, i, j)
    requires (forall k :: k in keys <==> k in universe) && (forall k :: k in index <==> k in keys)
    requires forall j | 0 <= j < |keys| :: keys[j] in index && index[keys[j]] < |order| && order[index[keys[j]]] == reps[j]
    requires forall k | k in index :: index[k] < |groups| && k in groups[index[k]]
    requires forall g | 0 <= g < |groups| :: groups[g] != {}
    ensures ExactGroups(groups, index, universe, edges)
  {
    assert index.Keys == universe;
    GroupsAreDisjoint(reps, keys, order, groups, index);
    SameGroupIffConnected(reps, keys, universe, edges, order, index);
  }

  lemma SameGroupIffConnected(reps: seq<nat>, keys: seq<SymbolKey>, universe: set<SymbolKey>,
                              edges: set<(SymbolKey, SymbolKey)>, order: seq<nat>, index: map<SymbolKey, nat>)
    requires |reps| == |keys| && (forall k :: k in keys <==> k in universe) && Distinct(order)
    requires forall j | 0 <= j < |keys| :: keys[j] in index && index[keys[j]] < |order| && order[index[keys[j]]] == reps[j]
    requires forall i, j | 0 <= i < |keys| && 0 <= j < |keys| :: SameIffConnected(reps, keys, edges, i, j)
    ensures forall a, b | a in universe && b in universe ::
              a in index && b in index && (index[a] == index[b] <==> Connected(edges, a, b))
  {
    forall a, b | a in universe && b in universe
      ensures a in index && b in index && (index[a] == index[b] <==> Connected(edges, a, b))
    {
      var i :| 0 <= i < |keys| && keys[i] == a;
      var j :| 0 <= j < |keys| && keys[j] == b;
      assert SameIffConnected(reps, keys, edges, i, j);
    }
  }

  // ---------------------------------------------------------------------------
  // The whole build
  // ---------------------------------------------------------------------------

  datatype AliasGroups = AliasGroups(refGroups: seq<set<SymbolKey>>, refIndex: map<SymbolKey, nat>,
                                     renameGroups: seq<set<SymbolKey>>, renameIndex: map<SymbolKey, nat>,
                                     semanticMask: seq<bv64>)

  predicate Overrides(b: Batch, k: SymbolKey) {
    k in b.info && b.info[k].overridden != []
  }

  predicate IsOpaque(b: Batch, k: SymbolKey) {
    k in b.info && b.info[k].properties & OPAQUE != 0
  }

  function OverriddenTargets(b: Batch): set<SymbolKey> {
    set k, s | k in b.info && s in b.info[k].overridden :: Global(s)
  }

  ghost predicate InOverrideFamily(b: Batch, group: set<SymbolKey>) {
    exists k | k in group :: Overrides(b, k) || k in OverriddenTargets(b)
  }

  ghost predicate HasForwarder(b: Batch, group: set<SymbolKey>) {
    exists k | k in group :: IsForwarder(b, k)
  }

  ghost predicate HasOpaque(b: Batch, group: set<SymbolKey>) {
    exists k | k in group :: IsOpaque(b, k)
  }

  /** The part of the unsafe mask that needs no document facts. */
  function SemanticMask(b: Batch, forwarders: set<SymbolKey>, group: set<SymbolKey>): bv64 {
    BitIf(exists k | k in group :: Overrides(b, k) || k in OverriddenTargets(b), OVERRIDE_FAMILY)
    | BitIf(exists k | k in group :: k in forwarders, UNSUPPORTED_SYMBOL_FAMILY)
    | BitIf(exists k | k in group :: IsOpaque(b, k), OPAQUE_TYPE)
  }

  /** A group is semantically clean when no member overrides, is overridden, forwards an export or is opaque. */
  ghost predicate Clean(b: Batch, group: set<SymbolKey>) {
    forall k | k in group :: !Overrides(b, k) && k !in OverriddenTargets(b) && !IsForwarder(b, k) && !IsOpaque(b, k)
  }

  /** Each semantic bit is set for its own reason, and no other bit is. */
  ghost predicate TellsReasons(mask: bv64, b: Batch, group: set<SymbolKey>) {
    && (mask & OVERRIDE_FAMILY != 0 <==> InOverrideFamily(b, group))
    && (mask & UNSUPPORTED_SYMBOL_FAMILY != 0 <==> HasForwarder(b, group))
    && (mask & OPAQUE_TYPE != 0 <==> HasOpaque(b, group))
  }

  lemma MaskTellsReasons(b: Batch, forwarders: set<SymbolKey>, group: set<SymbolKey>)
    requires group <= b.keys && forall k :: k in forwarders <==> k in b.keys && IsForwarder(b, k)
    ensures var mask := SemanticMask(b, forwarders, group);
            TellsReasons(mask, b, group) && mask & !SEMANTIC == 0 && (mask == 0 <==> Clean(b, group))
  {
    var forwards := exists k | k in group :: k in forwarders;
    SemanticBits(SemanticMask(b, forwarders, group), InOverrideFamily(b, group), forwards, HasOpaque(b, group));
    assert forwards <==> HasForwarder(b, group);
  }

  // ---------------------------------------------------------------------------
  // The reasons, told from the documents alone
  // ---------------------------------------------------------------------------

  ghost predicate SpeaksAsMethod(docs: seq<Document>, k: SymbolKey) {
    exists info :: Speaks(docs, k, info) && info.kind.MethodKind?
  }

  /** Some first-seen info names the key among the symbols that its own symbol overrides. */
  ghost predicate IsOverridden(docs: seq<Document>, k: SymbolKey) {
    exists other, info :: Speaks(docs, other, info) && exists s | s in info.overridden :: k == Global(s)
  }

  ghost predicate OverridesSome(docs: seq<Document>, k: SymbolKey) {
    exists info :: Speaks(docs, k, info) && info.overridden != []
  }

  ghost predicate SpeaksAsOpaque(docs: seq<Document>, k: SymbolKey) {
    exists info :: Speaks(docs, k, info) && info.properties & 0x200000 != 0
  }

  /** A method that is defined in the documents, with the descriptor of `k` under another owner. */
  ghost predicate IsOriginalIn(docs: seq<Document>, k: SymbolKey, orig: SymbolKey) {
    && !orig.IsLocal() && IsDefined(docs, orig) && SpeaksAsMethod(docs, orig)
    && SplitLast(k.symbol).Some? && SplitLast(orig.symbol).Some?
    && var owner, other := ImmediateOwner(k.symbol), ImmediateOwner(orig.symbol);
    owner != other && exists descriptor :: k.symbol == owner + descriptor && orig.symbol == other + descriptor
  }

  /** A global method without a definition that has exactly one original. */
  ghost predicate ForwardsIn(docs: seq<Document>, k: SymbolKey) {
    && !k.IsLocal() && SpeaksAsMethod(docs, k) && !IsDefined(docs, k)
    && exists orig :: IsOriginalIn(docs, k, orig) && forall o | IsOriginalIn(docs, k, o) :: o == orig
  }

  /** Each semantic bit, by what the documents say about the members of the group. */
  ghost predicate TellsOfDocuments(mask: bv64, docs: seq<Document>, group: set<SymbolKey>) {
    && (mask & 0x8 != 0 <==> exists k | k in group :: OverridesSome(docs, k) || IsOverridden(docs, k))
    && (mask & 0x80 != 0 <==> exists k | k in group :: ForwardsIn(docs, k))
    && (mask & 0x200 != 0 <==> exists k | k in group :: SpeaksAsOpaque(docs, k))
  }

  lemma OverridesMeans(docs: seq<Document>, k: SymbolKey)
    ensures Overrides(BatchOf(docs), k) <==> OverridesSome(docs, k)
    ensures IsOpaque(BatchOf(docs), k) <==> SpeaksAsOpaque(docs, k)
    ensures IsMethod(BatchOf(docs).info, k) <==> SpeaksAsMethod(docs, k)
  {
    var info := InfoMap(AllInfos(docs));
    if k in info {
      SpeaksMeans(docs, k, info[k]);
    }
    forall i ensures Speaks(docs, k, i) <==> k in info && info[k] == i {
      SpeaksMeans(docs, k, i);
    }
  }

  lemma OverriddenMeans(docs: seq<Document>, k: SymbolKey)
    ensures k in OverriddenTargets(BatchOf(docs)) <==> IsOverridden(docs, k)
  {
    var info := InfoMap(AllInfos(docs));
    forall other, i ensures Speaks(docs, other, i) <==> other in info && info[other] == i {
      SpeaksMeans(docs, other, i);
    }
    if other, s :| other in info && s in info[other].overridden && k == Global(s) {
      assert Speaks(docs, other, info[other]);
    }
  }

  lemma OriginalMeans(docs: seq<Document>, k: SymbolKey, orig: SymbolKey)
    ensures IsOriginal(BatchOf(docs), k, orig) <==> IsOriginalIn(docs, k, orig)
  {
    OverridesMeans(docs, orig);
    DefinedMeans(docs, orig);
    MentionedMeans(docs, orig);
    if IsDefined(docs, orig) {
      var d :| 0 <= d < |docs| && DefinesKey(docs[d], orig);
      assert MentionsKey(docs[d], orig);
    }
    SameDescriptorMeans(k.symbol, orig.symbol);
  }

  /** Two strings that end alike after two prefixes of theirs. */
  lemma {:induction false} SharedTail(a: string, x: string, b: string, y: string)
    requires x <= a && y <= b
    ensures (exists descriptor :: a == x + descriptor && b == y + descriptor) <==> a[|x|..] == b[|y|..]
  {
    assert a == x + a[|x|..] && b == y + b[|y|..];
    forall descriptor | a == x + descriptor && b == y + descriptor ensures a[|x|..] == b[|y|..] {
      assert a[|x|..] == descriptor && b[|y|..] == descriptor;
    }
  }

  lemma {:induction false} SameDescriptorMeans(a: string, b: string)
    ensures SameDescriptorElsewhere(a, b) <==>
            (&& SplitLast(a).Some? && SplitLast(b).Some? && ImmediateOwner(a) != ImmediateOwner(b)
             && exists descriptor :: a == ImmediateOwner(a) + descriptor && b == ImmediateOwner(b) + descriptor)
  {
    if SplitLast(a).Some? && SplitLast(b).Some? {
      SharedTail(a, ImmediateOwner(a), b, ImmediateOwner(b));
    }
  }

  lemma MayForwardMeans(docs: seq<Document>, k: SymbolKey)
    ensures MayForward(BatchOf(docs), k) <==> !k.IsLocal() && SpeaksAsMethod(docs, k) && !IsDefined(docs, k)
  {
    OverridesMeans(docs, k);
    DefinedMeans(docs, k);
    MentionedMeans(docs, k);
    if SpeaksAsMethod(docs, k) {
      SpeakerIsMentioned(docs, k);
    }
  }

  lemma OneOriginal(docs: seq<Document>, k: SymbolKey, orig: SymbolKey)
    ensures (IsOriginal(BatchOf(docs), k, orig) && forall o | IsOriginal(BatchOf(docs), k, o) :: o == orig) <==>
            (IsOriginalIn(docs, k, orig) && forall o | IsOriginalIn(docs, k, o) :: o == orig)
  {
    OriginalMeans(docs, k, orig);
    forall o | IsOriginal(BatchOf(docs), k, o) ensures IsOriginalIn(docs, k, o) {
      OriginalMeans(docs, k, o);
    }
    forall o | IsOriginalIn(docs, k, o) ensures IsOriginal(BatchOf(docs), k, o) {
      OriginalMeans(docs, k, o);
    }
  }

  lemma ForwarderMeans(docs: seq<Document>, k: SymbolKey)
    ensures IsForwarder(BatchOf(docs), k) <==> ForwardsIn(docs, k)
  {
    var b := BatchOf(docs);
    MayForwardMeans(docs, k);
    if orig :| IsOriginalIn(docs, k, orig) && forall o | IsOriginalIn(docs, k, o) :: o == orig {
      OneOriginal(docs, k, orig);
      assert MayForward(b, k) ==> Forwards(b, k, orig);
    }
    if orig :| Forwards(b, k, orig) {
      OneOriginal(docs, k, orig);
    }
  }

  lemma SpeakerIsMentioned(docs: seq<Document>, k: SymbolKey)
    requires SpeaksAsMethod(docs, k)
    ensures IsMentioned(docs, k)
  {
    var info :| Speaks(docs, k, info) && info.kind.MethodKind?;
    var d: nat, i: nat :| IsFirstFor(docs, d, i, k) && docs[d].symbols[i] == info;
    assert MentionsKey(docs[d], k);
  }

  /** The reasons of a batch are those of its documents. */
  lemma ReasonsMean(mask: bv64, docs: seq<Document>, group: set<SymbolKey>)
    requires TellsReasons(mask, BatchOf(docs), group)
    ensures TellsOfDocuments(mask, docs, group)
  {
    var b := BatchOf(docs);
    forall k ensures && (Overrides(b, k) <==> OverridesSome(docs, k)) && (IsOpaque(b, k) <==> SpeaksAsOpaque(docs, k))
                     && (k in OverriddenTargets(b) <==> IsOverridden(docs, k)) && (IsForwarder(b, k) <==> ForwardsIn(docs, k)) {
      OverridesMeans(docs, k);
      OverriddenMeans(docs, k);
      ForwarderMeans(docs, k);
    }
  }

  /** The keys that are grouped: those mentioned, and the class of every constructor mentioned. */
  ghost predicate IsGrouped(docs: seq<Document>, k: SymbolKey) {
    || IsMentioned(docs, k)
    || (&& !k.IsLocal() && EndsWith(k.symbol, '#')
        && exists c, disambiguator :: IsMentioned(docs, c) && !c.IsLocal()
                                      && SplitLast(c.symbol) == Some((k.symbol, Method("<init>", disambiguator))))
  }

  lemma KeysMean(docs: seq<Document>, k: SymbolKey)
    ensures k in BatchOf(docs).keys <==> IsGrouped(docs, k)
  {
    MentionedMeans(docs, k);
    if c :| c in MentionedKeys(docs) && ImpliedClass(c) == Some(k) {
      MentionedMeans(docs, c);
      var d := SplitLast(c.symbol).value.1;
      assert SplitLast(c.symbol) == Some((k.symbol, Method("<init>", d.disambiguator)));
    }
    if c, disambiguator :| && IsMentioned(docs, c) && !c.IsLocal() && !k.IsLocal() && EndsWith(k.symbol, '#')
                           && SplitLast(c.symbol) == Some((k.symbol, Method("<init>", disambiguator))) {
      MentionedMeans(docs, c);
      assert ImpliedClass(c) == Some(k);
    }
  }

  /** What the mask of every group says. */
  ghost predicate MasksFit(b: Batch, groups: seq<set<SymbolKey>>, mask: seq<bv64>) {
    && |mask| == |groups|
    && forall g | 0 <= g < |groups| ::
         TellsReasons(mask[g], b, groups[g]) && mask[g] & !SEMANTIC == 0 && (mask[g] == 0 <==> Clean(b, groups[g]))
  }

  method Masks(b: Batch, forwarders: set<SymbolKey>, groups: seq<set<SymbolKey>>) returns (mask: seq<bv64>)
    requires forall g | 0 <= g < |groups| :: groups[g] <= b.keys
    requires forall k :: k in forwarders <==> k in b.keys && IsForwarder(b, k)
    ensures MasksFit(b, groups, mask)
  {
    mask := seq(|groups|, g requires 0 <= g < |groups| => SemanticMask(b, forwarders, groups[g]));
    forall g | 0 <= g < |groups|
      ensures TellsReasons(mask[g], b, groups[g]) && mask[g] & !SEMANTIC == 0 && (mask[g] == 0 <==> Clean(b, groups[g]))
    {
      MaskTellsReasons(b, forwarders, groups[g]);
    }
  }

  method MergeAll(u: Unicode, b: Batch, keys: seq<SymbolKey>) returns (uf: UnionFind, forwarders: set<SymbolKey>)
    requires Distinct(keys) && forall k :: k in keys <==> k in b.keys
    ensures fresh(uf) && fresh(uf.parent) && fresh(uf.rank) && Tracks(uf, keys, PolicyEdges(u, b))
    ensures forall k :: k in forwarders <==> k in b.keys && IsForwarder(b, k)
  {
    var indexOf := map i | 0 <= i < |keys| :: keys[i] := i;
    assert forall i | 0 <= i < |keys| :: keys[i] in indexOf;
    uf := new UnionFind(|keys|);
    NoEdges(keys);
    MergePolicy(u, uf, keys, indexOf);
    forwarders := MergeForwarders(uf, keys, indexOf, b, MergeEdges(u, keys, |keys|));
    assert keys[..|keys|] == keys;
    assert MergeEdges(u, keys, |keys|) + ForwardEdges(b, keys) == PolicyEdges(u, b);
  }

  lemma GroupsHoldKeys(groups: seq<set<SymbolKey>>, index: map<SymbolKey, nat>, keys: set<SymbolKey>,
                       edges: set<(SymbolKey, SymbolKey)>)
    requires ExactGroups(groups, index, keys, edges)
    ensures forall g | 0 <= g < |groups| :: groups[g] <= keys
  {
    forall g, k | 0 <= g < |groups| && k in groups[g] ensures k in keys {
      assert k in index;
    }
  }

  method GroupBatch(u: Unicode, b: Batch) returns (r: AliasGroups)
    ensures ExactGroups(r.refGroups, r.refIndex, b.keys, PolicyEdges(u, b)) && OrderedByLeast(r.refGroups)
    ensures r.renameGroups == r.refGroups && r.renameIndex == r.refIndex
    ensures MasksFit(b, r.renameGroups, r.semanticMask)
  {
    var keys := SortKeys(b.keys);
    var uf, forwarders := MergeAll(u, b, keys);
    var groups, index := Assemble(uf, keys, b.keys, PolicyEdges(u, b));
    GroupsHoldKeys(groups, index, b.keys, PolicyEdges(u, b));
    var mask := Masks(b, forwarders, groups);
    r := AliasGroups(groups, index, groups, index, mask);
  }

  /** Groups a list of documents: exactly the classes of the merge policy, in order of least member,
      with the semantic mask of each. */
  method Build(u: Unicode, docs: seq<Document>) returns (r: AliasGroups)
    ensures ExactGroups(r.refGroups, r.refIndex, BatchOf(docs).keys, PolicyEdges(u, BatchOf(docs)))
    ensures OrderedByLeast(r.refGroups)
    ensures r.renameGroups == r.refGroups && r.renameIndex == r.refIndex
    ensures MasksFit(BatchOf(docs), r.renameGroups, r.semanticMask)
    ensures forall g | 0 <= g < |r.renameGroups| :: TellsOfDocuments(r.semanticMask[g], docs, r.renameGroups[g])
    ensures forall k :: k in r.refIndex <==> IsGrouped(docs, k)
  {
    var mentioned, info := CollectKeys(docs);
    var implied := ImpliedClasses(mentioned);
    r := GroupBatch(u, Batch(mentioned + implied, info, DefinedKeys(AllOccurrences(docs))));
    forall g | 0 <= g < |r.renameGroups| ensures TellsOfDocuments(r.semanticMask[g], docs, r.renameGroups[g]) {
      ReasonsMean(r.semanticMask[g], docs, r.renameGroups[g]);
    }
    forall k ensures k in r.refIndex <==> IsGrouped(docs, k) {
      KeysMean(docs, k);
    }
  }
}
