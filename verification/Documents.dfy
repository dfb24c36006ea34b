/** What a list of documents says about a key, told from their positions alone. */
module Documents {
  import opened IndexModel

  ghost predicate HasInfo(doc: Document, k: SymbolKey) {
    exists i | 0 <= i < |doc.symbols| :: doc.symbols[i].key == k
  }

  /** Info `i` of document `d` is the first info of its key. */
  ghost predicate IsFirstFor(docs: seq<Document>, d: nat, i: nat, k: SymbolKey) {
    && d < |docs| && IsFirstInfo(docs[d].symbols, i, k)
    && forall e | 0 <= e < d :: !HasInfo(docs[e], k)
  }

  /** The info that speaks for a key: the first one, in the order of documents and then of infos. */
  ghost predicate Speaks(docs: seq<Document>, k: SymbolKey, info: SymbolInfo) {
    exists d: nat, i: nat :: IsFirstFor(docs, d, i, k) && docs[d].symbols[i] == info
  }

  ghost predicate DefinesKey(doc: Document, k: SymbolKey) {
    exists i | 0 <= i < |doc.occurrences| :: doc.occurrences[i].key == k && doc.occurrences[i].role.Definition?
  }

  ghost predicate IsDefined(docs: seq<Document>, k: SymbolKey) {
    exists d | 0 <= d < |docs| :: DefinesKey(docs[d], k)
  }

  ghost predicate MentionsKey(doc: Document, k: SymbolKey) {
    HasInfo(doc, k) || exists i | 0 <= i < |doc.occurrences| :: doc.occurrences[i].key == k
  }

  ghost predicate IsMentioned(docs: seq<Document>, k: SymbolKey) {
    exists d | 0 <= d < |docs| :: MentionsKey(docs[d], k)
  }

  // ---------------------------------------------------------------------------
  // The streams that the batch is read as
  // ---------------------------------------------------------------------------

  lemma {:induction false} InfoMapAppend(a: seq<SymbolInfo>, b: seq<SymbolInfo>, k: SymbolKey)
    ensures var all := InfoMap(a + b);
            && (k in InfoMap(a) ==> k in all && all[k] == InfoMap(a)[k])
            && (k !in InfoMap(a) && k in all ==> exists i: nat :: IsFirstInfo(b, i, k) && all[k] == b[i])
            && (k !in InfoMap(a) && k !in all ==> forall i | 0 <= i < |b| :: b[i].key != k)
    decreases |b|
  {
    if b == [] {
      assert a + b == a;
    } else {
      var n := |b| - 1;
      InfoMapAppend(a, b[..n], k);
      assert a + b == (a + b[..n]) + [b[n]];
      InfoMapNext(a + b[..n], b[n]);
      var before := InfoMap(a + b[..n]);
      if k !in InfoMap(a) {
        if k in before {
          var i: nat :| IsFirstInfo(b[..n], i, k) && before[k] == b[..n][i];
          FirstStays(b, i, k);
        } else {
          assert forall i | 0 <= i < n :: b[..n][i] == b[i];
          if b[n].key == k {
            LastIsFirst(b, k);
          }
        }
      }
    }
  }

  lemma FirstStays(b: seq<SymbolInfo>, i: nat, k: SymbolKey)
    requires b != [] && IsFirstInfo(b[..|b| - 1], i, k)
    ensures IsFirstInfo(b, i, k) && b[..|b| - 1][i] == b[i]
  {
    assert forall j | 0 <= j < |b| - 1 :: b[..|b| - 1][j] == b[j];
  }

  lemma LastIsFirst(b: seq<SymbolInfo>, k: SymbolKey)
    requires b != [] && b[|b| - 1].key == k && forall j | 0 <= j < |b| - 1 :: b[j].key != k
    ensures IsFirstInfo(b, |b| - 1, k)
  {
  }

  ghost predicate NoInfo(docs: seq<Document>, k: SymbolKey) {
    forall d | 0 <= d < |docs| :: !HasInfo(docs[d], k)
  }

  lemma SpeaksStill(front: seq<Document>, doc: Document, k: SymbolKey, info: SymbolInfo)
    requires Speaks(front, k, info)
    ensures Speaks(front + [doc], k, info)
  {
    var d: nat, i: nat :| IsFirstFor(front, d, i, k) && front[d].symbols[i] == info;
    assert IsFirstFor(front + [doc], d, i, k);
  }

  lemma SpeaksNow(front: seq<Document>, doc: Document, k: SymbolKey, i: nat)
    requires NoInfo(front, k) && IsFirstInfo(doc.symbols, i, k)
    ensures Speaks(front + [doc], k, doc.symbols[i])
  {
    assert IsFirstFor(front + [doc], |front|, i, k);
  }

  /** What the map of a list of documents says about a key. */
  ghost predicate Answers(docs: seq<Document>, info: map<SymbolKey, SymbolInfo>, k: SymbolKey) {
    if k in info then Speaks(docs, k, info[k]) else NoInfo(docs, k)
  }

  lemma AnswersNext(front: seq<Document>, doc: Document, before: map<SymbolKey, SymbolInfo>, after: map<SymbolKey, SymbolInfo>,
                    k: SymbolKey)
    requires Answers(front, before, k)
    requires k in before ==> k in after && after[k] == before[k]
    requires k !in before && k in after ==> exists i: nat :: IsFirstInfo(doc.symbols, i, k) && after[k] == doc.symbols[i]
    requires k !in before && k !in after ==> !HasInfo(doc, k)
    ensures Answers(front + [doc], after, k)
  {
    if k in before {
      SpeaksStill(front, doc, k, before[k]);
    } else if k in after {
      var i: nat :| IsFirstInfo(doc.symbols, i, k) && after[k] == doc.symbols[i];
      SpeaksNow(front, doc, k, i);
    }
  }

  lemma {:induction false} InfoOfDocuments(docs: seq<Document>, k: SymbolKey)
    ensures Answers(docs, InfoMap(AllInfos(docs)), k)
    decreases |docs|
  {
    if docs != [] {
      var front, doc := docs[..|docs| - 1], docs[|docs| - 1];
      InfoOfDocuments(front, k);
      InfoMapAppend(AllInfos(front), doc.symbols, k);
      AnswersNext(front, doc, InfoMap(AllInfos(front)), InfoMap(AllInfos(docs)), k);
      assert front + [doc] == docs;
    }
  }

  lemma OnlyOneIsFirst(docs: seq<Document>, d: nat, i: nat, e: nat, j: nat, k: SymbolKey)
    requires IsFirstFor(docs, d, i, k) && IsFirstFor(docs, e, j, k)
    ensures d == e && i == j
  {
    assert HasInfo(docs[d], k) && HasInfo(docs[e], k);
  }

  /** The batch's info map holds exactly the infos that speak. */
  lemma SpeaksMeans(docs: seq<Document>, k: SymbolKey, info: SymbolInfo)
    ensures Speaks(docs, k, info) <==> k in InfoMap(AllInfos(docs)) && InfoMap(AllInfos(docs))[k] == info
  {
    InfoOfDocuments(docs, k);
    if Speaks(docs, k, info) {
      var d: nat, i: nat :| IsFirstFor(docs, d, i, k) && docs[d].symbols[i] == info;
      assert HasInfo(docs[d], k);
      var e: nat, j: nat :| IsFirstFor(docs, e, j, k) && docs[e].symbols[j] == InfoMap(AllInfos(docs))[k];
      OnlyOneIsFirst(docs, d, i, e, j, k);
    }
  }

  lemma {:induction false} OccurrencesOfDocuments(docs: seq<Document>, o: Occurrence)
    ensures o in AllOccurrences(docs) <==> exists d | 0 <= d < |docs| :: o in docs[d].occurrences
    decreases |docs|
  {
    if docs != [] {
      var n := |docs| - 1;
      OccurrencesOfDocuments(docs[..n], o);
      if o in AllOccurrences(docs[..n]) {
        var d :| 0 <= d < n && o in docs[..n][d].occurrences;
        assert o in docs[d].occurrences;
      }
      if d :| 0 <= d < |docs| && o in docs[d].occurrences {
        if d < n {
          assert docs[..n][d] == docs[d];
        }
      }
    }
  }

  lemma DefinedMeans(docs: seq<Document>, k: SymbolKey)
    ensures k in DefinedKeys(AllOccurrences(docs)) <==> IsDefined(docs, k)
  {
    if k in DefinedKeys(AllOccurrences(docs)) {
      var o :| o in AllOccurrences(docs) && o.role.Definition? && o.key == k;
      OccurrencesOfDocuments(docs, o);
      var d :| 0 <= d < |docs| && o in docs[d].occurrences;
      var i :| 0 <= i < |docs[d].occurrences| && docs[d].occurrences[i] == o;
      assert DefinesKey(docs[d], k);
    }
    if IsDefined(docs, k) {
      var d :| 0 <= d < |docs| && DefinesKey(docs[d], k);
      var i :| 0 <= i < |docs[d].occurrences| && docs[d].occurrences[i].key == k && docs[d].occurrences[i].role.Definition?;
      var o := docs[d].occurrences[i];
      assert o in docs[d].occurrences;
      OccurrencesOfDocuments(docs, o);
    }
  }

  lemma {:induction false} MentionedMeans(docs: seq<Document>, k: SymbolKey)
    ensures k in MentionedKeys(docs) <==> IsMentioned(docs, k)
    decreases |docs|
  {
    if docs != [] {
      var n := |docs| - 1;
      var doc := docs[n];
      MentionedMeans(docs[..n], k);
      InfoKeysAppend(AllInfos(docs[..n]), doc.symbols);
      OccurrenceKeysAppend(AllOccurrences(docs[..n]), doc.occurrences);
      MentionedInOne(doc, k);
      MentionedInFront(docs, k);
    }
  }

  lemma MentionedInOne(doc: Document, k: SymbolKey)
    ensures k in InfoKeys(doc.symbols) + OccurrenceKeys(doc.occurrences) <==> MentionsKey(doc, k)
  {
    if HasInfo(doc, k) {
      var i :| 0 <= i < |doc.symbols| && doc.symbols[i].key == k;
      assert doc.symbols[i] in doc.symbols;
    }
    if i :| 0 <= i < |doc.occurrences| && doc.occurrences[i].key == k {
      assert doc.occurrences[i] in doc.occurrences;
    }
  }

  lemma MentionedInFront(docs: seq<Document>, k: SymbolKey)
    requires docs != []
    ensures IsMentioned(docs, k) <==> IsMentioned(docs[..|docs| - 1], k) || MentionsKey(docs[|docs| - 1], k)
  {
    var n := |docs| - 1;
    if IsMentioned(docs[..n], k) {
      var d :| 0 <= d < n && MentionsKey(docs[..n][d], k);
      assert MentionsKey(docs[d], k);
    }
    if d :| 0 <= d < |docs| && MentionsKey(docs[d], k) {
      if d < n {
        assert MentionsKey(docs[..n][d], k);
      }
    }
  }
}
