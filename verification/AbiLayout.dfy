/**
  * Where every word of a payload lies. A payload is told as the numbers and the texts that it consists of,
  * one after the other: a number is one little-endian word of the body, a text is an offset and a length in
  * the body and its bytes in the blob.
  */
module AbiLayout {
  import opened Options
  import opened Words
  import opened AbiCodec

  datatype Token = Number(v: nat) | Text(bytes: Str)

  function BlobOf(t: Token): Str {
    if t.Text? then t.bytes else []
  }

  function WordsOf(t: Token, base: nat): seq<nat> {
    match t
    case Number(v) => [v]
    case Text(b) => [base, |b|]
  }

  /** The texts one after the other. */
  function AllTexts(ts: seq<Token>): Str {
    if ts == [] then [] else BlobOf(ts[0]) + AllTexts(ts[1..])
  }

  /** The words, if the texts begin at `base`. */
  function AllWords(ts: seq<Token>, base: nat): seq<nat>
    decreases |ts|
  {
    if ts == [] then [] else WordsOf(ts[0], base) + AllWords(ts[1..], base + |BlobOf(ts[0])|)
  }

  /** Four bytes, the lowest one first. */
  predicate IsLe(s: seq<byte>, v: nat) {
    |s| == 4 && v == s[0] as int + 256 * s[1] as int + 65536 * s[2] as int + 16777216 * s[3] as int
  }

  ghost predicate AreWords(s: seq<byte>, ws: seq<nat>) {
    |s| == 4 * |ws| && forall k | 0 <= k < |ws| :: IsLe(s[4 * k..4 * k + 4], ws[k])
  }

  ghost predicate AllNarrow(ws: seq<nat>) {
    forall k | 0 <= k < |ws| :: ws[k] < 0x1_0000_0000
  }

  lemma LeMeans(v: u32)
    ensures IsLe(Le(v), v)
  {
  }

  lemma AreWordsAppend(s: seq<byte>, t: seq<byte>, ws: seq<nat>, xs: seq<nat>)
    requires AreWords(s, ws) && AreWords(t, xs)
    ensures AreWords(s + t, ws + xs)
  {
    forall k | 0 <= k < |ws + xs| ensures IsLe((s + t)[4 * k..4 * k + 4], (ws + xs)[k]) {
      if k < |ws| {
        assert (s + t)[4 * k..4 * k + 4] == s[4 * k..4 * k + 4];
      } else {
        var i := k - |ws|;
        assert (s + t)[4 * k..4 * k + 4] == t[4 * i..4 * i + 4];
      }
    }
  }

  lemma AllNarrowAppend(ws: seq<nat>, xs: seq<nat>)
    ensures AllNarrow(ws + xs) <==> AllNarrow(ws) && AllNarrow(xs)
  {
    var all := ws + xs;
    assert forall k | 0 <= k < |ws| :: all[k] == ws[k];
    assert forall k | 0 <= k < |xs| :: all[|ws| + k] == xs[k];
  }

  lemma {:induction false} TextsAppend(s: seq<Token>, t: seq<Token>)
    ensures AllTexts(s + t) == AllTexts(s) + AllTexts(t)
    decreases |s|
  {
    if s == [] {
      assert [] + t == t;
    } else {
      assert (s + t)[1..] == s[1..] + t && (s + t)[0] == s[0];
      TextsAppend(s[1..], t);
      Assoc(BlobOf(s[0]), AllTexts(s[1..]), AllTexts(t));
    }
  }

  lemma WordsAssoc(a: seq<nat>, b: seq<nat>, c: seq<nat>)
    ensures a + b + c == a + (b + c)
  {
  }

  lemma {:induction false} WordsAppend(s: seq<Token>, t: seq<Token>, base: nat)
    ensures AllWords(s + t, base) == AllWords(s, base) + AllWords(t, base + |AllTexts(s)|)
    decreases |s|
  {
    if s == [] {
      assert [] + t == t;
    } else {
      assert (s + t)[1..] == s[1..] + t && (s + t)[0] == s[0];
      var next := base + |BlobOf(s[0])|;
      WordsAppend(s[1..], t, next);
      WordsAssoc(WordsOf(s[0], base), AllWords(s[1..], next), AllWords(t, base + |AllTexts(s)|));
    }
  }

  /** An encoding that is told that the blob ends at `base` lays out these tokens. */
  ghost predicate LaysOut(e: Enc, base: nat, ts: seq<Token>) {
    && |e.body| == 4 * |AllWords(ts, base)| && e.blob == AllTexts(ts)
    && (e.fits <==> AllNarrow(AllWords(ts, base)))
    && (e.fits ==> AreWords(e.body, AllWords(ts, base)))
  }

  lemma ThenLaysOut(a: Enc, b: Enc, base: nat, s: seq<Token>, t: seq<Token>)
    requires LaysOut(a, base, s) && LaysOut(b, base + |a.blob|, t)
    ensures LaysOut(Then(a, b), base, s + t)
  {
    var ws, xs := AllWords(s, base), AllWords(t, base + |a.blob|);
    TextsAppend(s, t);
    WordsAppend(s, t, base);
    AllNarrowAppend(ws, xs);
    if a.fits && b.fits {
      AreWordsAppend(a.body, b.body, ws, xs);
    }
  }

  /** Wherever it is written, the value is laid out as these tokens. */
  ghost predicate Lays<T(!new)>(c: Codec<T>, v: T, ts: seq<Token>) {
    forall base: nat :: LaysOut(c.enc(v, base), base, ts)
  }

  // ---------------------------------------------------------------------------
  // Single values
  // ---------------------------------------------------------------------------

  lemma OneToken(t: Token, base: nat)
    ensures AllTexts([t]) == BlobOf(t) && AllWords([t], base) == WordsOf(t, base)
  {
    var ts := [t];
    assert ts[0] == t && ts[1..] == [];
    assert AllTexts(ts) == BlobOf(t) + AllTexts(ts[1..]);
    assert BlobOf(t) + [] == BlobOf(t) && WordsOf(t, base) + [] == WordsOf(t, base);
  }

  lemma OneWord(v: nat, base: nat)
    ensures LaysOut(Enc(Le(Narrow(v)), [], v <= U32_MAX), base, [Number(v)])
  {
    LeMeans(Narrow(v));
    OneToken(Number(v), base);
    assert Le(Narrow(v))[0..4] == Le(Narrow(v));
    assert AllNarrow([v]) <==> [v][0] < 0x1_0000_0000;
  }

  lemma WordLaysOut(v: u32, base: nat)
    ensures LaysOut(WordEnc(v), base, [Number(v)])
  {
    OneWord(v, base);
  }

  lemma RefLaysOut(b: Str, base: nat)
    ensures LaysOut(RefEnc(b, base), base, [Text(b)])
  {
    var offset, length := Le(Narrow(base)), Le(Narrow(|b|));
    LeMeans(Narrow(base));
    LeMeans(Narrow(|b|));
    OneToken(Text(b), base);
    assert (offset + length)[0..4] == offset && (offset + length)[4..8] == length;
    assert AllNarrow([base, |b|]) <==> [base, |b|][0] < 0x1_0000_0000 && [base, |b|][1] < 0x1_0000_0000;
  }

  lemma WordLays(v: u32)
    ensures Lays(WordC(), v, [Number(v)])
  {
    forall base: nat ensures LaysOut(WordC().enc(v, base), base, [Number(v)]) {
      WordLaysOut(v, base);
    }
  }

  lemma StrLays(utf8: Utf8, b: Str)
    ensures Lays(StrC(utf8), b, [Text(b)])
  {
    forall base: nat ensures LaysOut(StrC(utf8).enc(b, base), base, [Text(b)]) {
      RefLaysOut(b, base);
    }
  }

  lemma TwoLayOut(a: Enc, b: Enc, base: nat, s: Token, t: Token)
    requires LaysOut(a, base, [s]) && LaysOut(b, base + |a.blob|, [t])
    ensures LaysOut(Then(a, b), base, [s, t])
  {
    ThenLaysOut(a, b, base, [s], [t]);
    assert [s] + [t] == [s, t];
  }

  lemma ThreeLayOut(e: Enc, base: nat, t: Token)
    requires e.blob == [] && LaysOut(e, base, [t])
    ensures LaysOut(Then(e, Then(e, e)), base, [t, t, t])
  {
    TwoLayOut(e, e, base, t, t);
    ThenLaysOut(e, Then(e, e), base, [t], [t, t]);
    assert [t] + [t, t] == [t, t, t];
  }

  /** An optional text is three words: absent, three zeros; present, a one and the reference. */
  function OptText(v: Option<Str>): seq<Token> {
    if v.None? then [Number(0), Number(0), Number(0)] else [Number(1), Text(v.value)]
  }

  lemma OptRefLays(utf8: Utf8, v: Option<Str>)
    ensures Lays(OptRefC(utf8), v, OptText(v))
  {
    forall base: nat ensures LaysOut(OptRefC(utf8).enc(v, base), base, OptText(v)) {
      if v.None? {
        WordLaysOut(0, base);
        ThreeLayOut(WordEnc(0), base, Number(0));
      } else {
        WordLaysOut(1, base);
        RefLaysOut(v.value, base);
        TwoLayOut(WordEnc(1), RefEnc(v.value, base), base, Number(1), Text(v.value));
      }
    }
  }

  /** Negative numbers wrap around. */
  function Signed(v: i32): Token {
    Number(if v < 0 then 0x1_0000_0000 + v else v)
  }

  function Flag(b: bool): Token {
    Number(if b then 1 else 0)
  }

  /** An optional number is two words: absent, two zeros; present, a one and the number. */
  function OptNumber(v: Option<Token>): seq<Token> {
    if v.None? then [Number(0), Number(0)] else [Number(1), v.value]
  }

  lemma OptWordLays(v: Option<u32>)
    ensures Lays(OptWordC(), v, OptNumber(if v.None? then None else Some(Number(v.value))))
  {
    var ts := OptNumber(if v.None? then None else Some(Number(v.value)));
    forall base: nat ensures LaysOut(OptWordC().enc(v, base), base, ts) {
      var (present, value) := if v.None? then (0, 0) else (1, v.value);
      WordLaysOut(present, base);
      WordLaysOut(value, base);
      TwoLayOut(WordEnc(present), WordEnc(value), base, Number(present), Number(value));
    }
  }

  lemma MapLays<A(!new), B(!new)>(c: Codec<A>, wrap: A -> B, unwrap: B -> A, v: B, ts: seq<Token>)
    requires Lays(c, unwrap(v), ts)
    ensures Lays(MapC(c, wrap, unwrap), v, ts)
  {
    forall base: nat ensures LaysOut(MapC(c, wrap, unwrap).enc(v, base), base, ts) {
      assert LaysOut(c.enc(unwrap(v), base), base, ts);
    }
  }

  lemma IntLays(v: i32)
    ensures Lays(IntC(), v, [Signed(v)])
  {
    WordLays(AsU32(v));
    MapLays(WordC(), AsI32, AsU32, v, [Signed(v)]);
  }

  lemma BoolLays(b: bool)
    ensures Lays(BoolC(), b, [Flag(b)])
  {
    WordLays(FromBool(b));
    MapLays(WordC(), ToBool, FromBool, b, [Flag(b)]);
  }

  function OptInt(v: Option<i32>): seq<Token> {
    OptNumber(if v.None? then None else Some(Signed(v.value)))
  }

  function OptFlag(v: Option<bool>): seq<Token> {
    OptNumber(if v.None? then None else Some(Flag(v.value)))
  }

  lemma OptIntLays(v: Option<i32>)
    ensures Lays(OptIntC(), v, OptInt(v))
  {
    OptWordLays(MapOption(v, AsU32));
    MapLays(OptWordC(), (v: Option<u32>) => MapOption(v, AsI32), (v: Option<i32>) => MapOption(v, AsU32), v, OptInt(v));
  }

  lemma OptBoolLays(v: Option<bool>)
    ensures Lays(OptBoolC(), v, OptFlag(v))
  {
    OptWordLays(MapOption(v, FromBool));
    MapLays(OptWordC(), (v: Option<u32>) => MapOption(v, ToBool), (v: Option<bool>) => MapOption(v, FromBool), v, OptFlag(v));
  }

  // ---------------------------------------------------------------------------
  // Values made of others
  // ---------------------------------------------------------------------------

  lemma PairLays<A(!new), B(!new)>(a: Codec<A>, b: Codec<B>, v: (A, B), s: seq<Token>, t: seq<Token>)
    requires Lays(a, v.0, s) && Lays(b, v.1, t)
    ensures Lays(PairC(a, b), v, s + t)
  {
    forall base: nat ensures LaysOut(PairC(a, b).enc(v, base), base, s + t) {
      var x := a.enc(v.0, base);
      assert LaysOut(x, base, s);
      assert LaysOut(b.enc(v.1, base + |x.blob|), base + |x.blob|, t);
      ThenLaysOut(x, b.enc(v.1, base + |x.blob|), base, s, t);
    }
  }

  lemma TagLaysOut<T(!new)>(tag: u32, c: Codec<T>, v: T, base: nat, ts: seq<Token>)
    requires Lays(c, v, ts)
    ensures LaysOut(Then(WordEnc(tag), c.enc(v, base)), base, [Number(tag)] + ts)
  {
    WordLaysOut(tag, base);
    assert LaysOut(c.enc(v, base), base, ts);
    ThenLaysOut(WordEnc(tag), c.enc(v, base), base, [Number(tag)], ts);
  }

  /** An optional value is a zero, or a one and the value. */
  function Optional(v: Option<seq<Token>>): seq<Token> {
    if v.None? then [Number(0)] else [Number(1)] + v.value
  }

  lemma FlagLays<T(!new)>(c: Codec<T>, v: Option<T>, ts: Option<seq<Token>>)
    requires v.Some? <==> ts.Some?
    requires v.Some? ==> Lays(c, v.value, ts.value)
    ensures Lays(FlagC(c), v, Optional(ts))
  {
    forall base: nat ensures LaysOut(FlagC(c).enc(v, base), base, Optional(ts)) {
      if v.None? {
        WordLaysOut(0, base);
      } else {
        TagLaysOut(1, c, v.value, base, ts.value);
      }
    }
  }

  function Joined(parts: seq<seq<Token>>): seq<Token> {
    if parts == [] then [] else parts[0] + Joined(parts[1..])
  }

  function Each<T>(tokens: T -> seq<Token>, xs: seq<T>): seq<Token> {
    Joined(seq(|xs|, i requires 0 <= i < |xs| => tokens(xs[i])))
  }

  ghost predicate LaysEach<T(!new)>(c: Codec<T>, tokens: T -> seq<Token>, xs: seq<T>) {
    forall i | 0 <= i < |xs| :: Lays(c, xs[i], tokens(xs[i]))
  }

  lemma {:induction false} ElementsLayOut<T(!new)>(c: Codec<T>, tokens: T -> seq<Token>, xs: seq<T>, base: nat)
    requires LaysEach(c, tokens, xs)
    ensures LaysOut(ElementsEnc(c, xs, base), base, Each(tokens, xs))
    decreases |xs|
  {
    if xs != [] {
      var x, more := c.enc(xs[0], base), xs[1..];
      assert Lays(c, xs[0], tokens(xs[0])) && LaysOut(x, base, tokens(xs[0]));
      assert forall i | 0 <= i < |more| :: more[i] == xs[i + 1];
      ElementsLayOut(c, tokens, more, base + |x.blob|);
      ThenLaysOut(x, ElementsEnc(c, more, base + |x.blob|), base, tokens(xs[0]), Each(tokens, more));
      var parts := seq(|xs|, i requires 0 <= i < |xs| => tokens(xs[i]));
      assert parts[1..] == seq(|more|, i requires 0 <= i < |more| => tokens(more[i]));
    }
  }

  /** A list is its length and its elements. */
  function Listed<T>(tokens: T -> seq<Token>, xs: seq<T>): seq<Token> {
    [Number(|xs|)] + Each(tokens, xs)
  }

  lemma ListLays<T(!new)>(c: Codec<T>, tokens: T -> seq<Token>, xs: seq<T>)
    requires LaysEach(c, tokens, xs)
    ensures Lays(ListC(c), xs, Listed(tokens, xs))
  {
    forall base: nat ensures LaysOut(ListC(c).enc(xs, base), base, Listed(tokens, xs)) {
      OneWord(|xs|, base);
      ElementsLayOut(c, tokens, xs, base);
      ThenLaysOut(CountEnc(|xs|), ElementsEnc(c, xs, base), base, [Number(|xs|)], Each(tokens, xs));
    }
  }

  lemma EitherLays<A(!new), B(!new)>(a: Codec<A>, b: Codec<B>, v: Either<A, B>, ts: seq<Token>)
    requires match v case Left(x) => Lays(a, x, ts) case Right(y) => Lays(b, y, ts)
    ensures Lays(EitherC(a, b), v, [Number(if v.Left? then 0 else 1)] + ts)
  {
    forall base: nat ensures LaysOut(EitherC(a, b).enc(v, base), base, [Number(if v.Left? then 0 else 1)] + ts) {
      match v
      case Left(x) => TagLaysOut(0, a, x, base, ts);
      case Right(y) => TagLaysOut(1, b, y, base, ts);
    }
  }

  lemma OptEitherLays<A(!new), B(!new)>(a: Codec<A>, b: Codec<B>, v: Option<Either<A, B>>, ts: seq<Token>)
    requires match v case None => ts == [] case Some(Left(x)) => Lays(a, x, ts) case Some(Right(y)) => Lays(b, y, ts)
    ensures Lays(OptEitherC(a, b), v, [Number(if v.None? then 0 else if v.value.Left? then 1 else 2)] + ts)
  {
    var tag := if v.None? then 0 else if v.value.Left? then 1 else 2;
    forall base: nat ensures LaysOut(OptEitherC(a, b).enc(v, base), base, [Number(tag)] + ts) {
      match v
      case None =>
        WordLaysOut(0, base);
        assert [Number(0)] + [] == [Number(0)];
      case Some(Left(x)) => TagLaysOut(1, a, x, base, ts);
      case Some(Right(y)) => TagLaysOut(2, b, y, base, ts);
    }
  }

  lemma {:induction false} JoinedCons(a: seq<Token>, ps: seq<seq<Token>>)
    ensures Joined([a] + ps) == a + Joined(ps)
  {
    assert ([a] + ps)[1..] == ps;
  }

  lemma {:induction false} JoinedFour(ps: seq<seq<Token>>)
    requires |ps| == 4
    ensures Joined(ps) == ps[0] + (ps[1] + (ps[2] + ps[3]))
  {
    JoinedCons(ps[3], []);
    JoinedCons(ps[2], [ps[3]]);
    JoinedCons(ps[1], [ps[2], ps[3]]);
    JoinedCons(ps[0], [ps[1], ps[2], ps[3]]);
    assert ps == [ps[0]] + [ps[1], ps[2], ps[3]];
    assert [ps[1], ps[2], ps[3]] == [ps[1]] + [ps[2], ps[3]] && [ps[2], ps[3]] == [ps[2]] + [ps[3]];
    assert [ps[3]] + [] == [ps[3]] && ps[3] + [] == ps[3];
  }

  lemma {:induction false} JoinedAppend(ps: seq<seq<Token>>, qs: seq<seq<Token>>)
    ensures Joined(ps + qs) == Joined(ps) + Joined(qs)
    decreases |ps|
  {
    if ps == [] {
      assert [] + qs == qs;
    } else {
      assert (ps + qs)[1..] == ps[1..] + qs;
      JoinedAppend(ps[1..], qs);
    }
  }

  lemma FourLays<A(!new), B(!new), C(!new), D(!new)>(a: Codec<A>, b: Codec<B>, c: Codec<C>, d: Codec<D>, v: Four<A, B, C, D>,
                                                     ps: seq<seq<Token>>)
    requires |ps| == 4
    requires Lays(a, v.0, ps[0]) && Lays(b, v.1.0, ps[1]) && Lays(c, v.1.1.0, ps[2]) && Lays(d, v.1.1.1, ps[3])
    ensures Lays(FourC(a, b, c, d), v, Joined(ps))
  {
    PairLays(c, d, v.1.1, ps[2], ps[3]);
    PairLays(b, PairC(c, d), v.1, ps[1], ps[2] + ps[3]);
    PairLays(a, PairC(b, PairC(c, d)), v, ps[0], ps[1] + (ps[2] + ps[3]));
    JoinedFour(ps);
  }

  lemma FiveLays<A(!new), B(!new), C(!new), D(!new), E(!new)>(a: Codec<A>, b: Codec<B>, c: Codec<C>, d: Codec<D>, e: Codec<E>,
                                                              v: Five<A, B, C, D, E>, ps: seq<seq<Token>>)
    requires |ps| == 5
    requires Lays(a, v.0, ps[0]) && Lays(b, v.1.0, ps[1]) && Lays(c, v.1.1.0, ps[2]) && Lays(d, v.1.1.1.0, ps[3])
    requires Lays(e, v.1.1.1.1, ps[4])
    ensures Lays(FiveC(a, b, c, d, e), v, Joined(ps))
  {
    FourLays(b, c, d, e, v.1, ps[1..]);
    PairLays(a, FourC(b, c, d, e), v, ps[0], Joined(ps[1..]));
  }

  // ---------------------------------------------------------------------------
  // Whole payloads
  // ---------------------------------------------------------------------------

  /** The four words of the envelope. */
  function Header(kind: u32, bodyLen: nat, blobLen: nat): seq<nat> {
    [0x4241504c, kind, bodyLen, blobLen]
  }

  lemma HeaderIsWords(kind: u32, bodyLen: u32, blobLen: u32)
    ensures AreWords(Le(MAGIC) + Le(kind) + Le(bodyLen) + Le(blobLen), Header(kind, bodyLen, blobLen))
  {
    OneIsWords(MAGIC);
    OneIsWords(kind);
    OneIsWords(bodyLen);
    OneIsWords(blobLen);
    AreWordsAppend(Le(MAGIC), Le(kind), [MAGIC], [kind]);
    AreWordsAppend(Le(MAGIC) + Le(kind), Le(bodyLen), [MAGIC] + [kind], [bodyLen]);
    AreWordsAppend(Le(MAGIC) + Le(kind) + Le(bodyLen), Le(blobLen), [MAGIC] + [kind] + [bodyLen], [blobLen]);
    assert [MAGIC] + [kind] + [bodyLen] + [blobLen] == Header(kind, bodyLen, blobLen);
  }

  lemma OneIsWords(v: u32)
    ensures AreWords(Le(v), [v])
  {
    LeMeans(v);
    assert Le(v)[0..4] == Le(v);
  }

  /** All words of a payload: the envelope's, then the body's. */
  function PayloadWords(kind: u32, ts: seq<Token>): seq<nat> {
    Header(kind, 4 * |AllWords(ts, 0)|, |AllTexts(ts)|) + AllWords(ts, 0)
  }

  /** The words in little-endian, then the texts. */
  ghost predicate IsPayload(buf: seq<byte>, kind: u32, ts: seq<Token>) {
    var n := 4 * |PayloadWords(kind, ts)|;
    n <= |buf| && AreWords(buf[..n], PayloadWords(kind, ts)) && buf[n..] == AllTexts(ts)
  }

  lemma PayloadNarrow(kind: u32, ts: seq<Token>)
    ensures AllNarrow(PayloadWords(kind, ts)) <==>
            AllNarrow(AllWords(ts, 0)) && 4 * |AllWords(ts, 0)| < 0x1_0000_0000 && |AllTexts(ts)| < 0x1_0000_0000
  {
    var header := Header(kind, 4 * |AllWords(ts, 0)|, |AllTexts(ts)|);
    AllNarrowAppend(header, AllWords(ts, 0));
    assert AllNarrow(header) <==> header[0] < 0x1_0000_0000 && header[1] < 0x1_0000_0000 && header[2] < 0x1_0000_0000
                                  && header[3] < 0x1_0000_0000;
  }

  /** Encoding succeeds exactly if every word fits 32 bits, and then the bytes are those of the tokens. */
  lemma EncodeMeans<T(!new)>(c: Codec<T>, kind: u32, v: T, ts: seq<Token>)
    requires Lays(c, v, ts)
    ensures Encode(c, kind, v).Ok? <==> AllNarrow(PayloadWords(kind, ts))
    ensures Encode(c, kind, v).Ok? ==> IsPayload(Encode(c, kind, v).value, kind, ts)
    ensures Encode(c, kind, v).Err? ==> Encode(c, kind, v).error == TooLarge
  {
    var e := c.enc(v, 0);
    assert LaysOut(e, 0, ts);
    PayloadNarrow(kind, ts);
    if Encode(c, kind, v).Ok? {
      PayloadBytes(e, kind, ts);
    }
  }

  lemma PayloadBytes(e: Enc, kind: u32, ts: seq<Token>)
    requires LaysOut(e, 0, ts) && Finish(e, kind).Ok?
    ensures IsPayload(Finish(e, kind).value, kind, ts)
  {
    var header := Le(MAGIC) + Le(kind) + Le(|e.body|) + Le(|e.blob|);
    HeaderIsWords(kind, |e.body|, |e.blob|);
    AreWordsAppend(header, e.body, Header(kind, |e.body|, |e.blob|), AllWords(ts, 0));
    var buf, n := Finish(e, kind).value, 4 * |PayloadWords(kind, ts)|;
    assert |header + e.body| == n && buf == (header + e.body) + e.blob;
    assert buf[..n] == header + e.body && buf[n..] == e.blob;
  }

  // ---------------------------------------------------------------------------
  // What is accepted, for every input
  // ---------------------------------------------------------------------------

  lemma LeOnce(s: seq<byte>, v: nat, w: nat)
    requires IsLe(s, v) && IsLe(s, w)
    ensures v == w
  {
  }

  lemma WordMeans(s: seq<byte>, v: u32, rest: seq<byte>)
    ensures Word(s) == Ok((v, rest)) <==> |s| >= 4 && IsLe(s[..4], v) && rest == s[4..]
  {
    if |s| >= 4 {
      assert IsLe(s[..4], FromLe(s[..4]));
      if IsLe(s[..4], v) {
        LeOnce(s[..4], v, FromLe(s[..4]));
      }
    }
  }

  /** A count is accepted exactly if that many words could follow. */
  lemma CountMeans(s: seq<byte>, n: nat, rest: seq<byte>)
    ensures Count(s) == Ok((n, rest)) <==> |s| >= 4 && IsLe(s[..4], n) && rest == s[4..] && 4 * n <= |rest|
  {
    if |s| >= 4 {
      WordMeans(s, FromLe(s[..4]), s[4..]);
      if IsLe(s[..4], n) {
        LeOnce(s[..4], n, FromLe(s[..4]));
      }
    }
  }

  /** A reference is accepted exactly if it lies in the blob and what is there is valid. */
  lemma StrMeans(utf8: Utf8, s: seq<byte>, blob: seq<byte>, b: Str, rest: seq<byte>)
    ensures StrC(utf8).dec(s, blob) == Ok((b, rest)) <==>
            && utf8(b) && |s| >= 8 && rest == s[8..]
            && exists offset: nat :: AreWords(s[..8], [offset, |b|]) && Holds(blob, offset, b)
  {
    if |s| >= 8 {
      var offset, len := FromLe(s[..4]), FromLe(s[4..8]);
      TwoAreWords(s, offset, len);
      assert s[4..][..4] == s[4..8] && s[4..][4..] == s[8..];
      WordMeans(s, offset, s[4..]);
      WordMeans(s[4..], len, s[8..]);
      forall at: nat | AreWords(s[..8], [at, |b|]) ensures at == offset && |b| == len {
        TwoWords(s, at, |b|);
        LeOnce(s[..4], at, offset);
        LeOnce(s[4..8], |b|, len);
      }
    }
  }

  lemma TwoWords(s: seq<byte>, v: nat, w: nat)
    requires |s| >= 8 && AreWords(s[..8], [v, w])
    ensures IsLe(s[..4], v) && IsLe(s[4..8], w)
  {
    assert IsLe(s[..8][4 * 0..4 * 0 + 4], [v, w][0]) && IsLe(s[..8][4 * 1..4 * 1 + 4], [v, w][1]);
    assert s[..8][0..4] == s[..4] && s[..8][4..8] == s[4..8];
  }

  lemma TwoAreWords(s: seq<byte>, v: nat, w: nat)
    requires |s| >= 8 && IsLe(s[..4], v) && IsLe(s[4..8], w)
    ensures AreWords(s[..8], [v, w])
  {
    assert s[..8][0..4] == s[..4] && s[..8][4..8] == s[4..8];
  }

  /** An envelope is accepted exactly if its four words are the mark, the kind and the lengths of what follows. */
  lemma OpenMeans(buf: seq<byte>, kind: u32, body: seq<byte>, blob: seq<byte>)
    ensures Open(buf, kind) == Ok((body, blob)) <==>
            |buf| >= 16 && AreWords(buf[..16], Header(kind, |body|, |blob|)) && buf[16..] == body + blob
  {
    if |buf| >= 16 {
      if AreWords(buf[..16], Header(kind, |body|, |blob|)) && buf[16..] == body + blob {
        HeaderOpens(buf, kind, body, blob);
      }
      if Open(buf, kind) == Ok((body, blob)) {
        OpenedHeader(buf, kind, body, blob);
      }
    }
  }

  lemma WordOfHeader(buf: seq<byte>, ws: seq<nat>, k: nat)
    requires |buf| >= 16 && |ws| == 4 && AreWords(buf[..16], ws) && k < 4
    ensures IsLe(buf[4 * k..4 * k + 4], ws[k]) && FromLe(buf[4 * k..4 * k + 4]) == ws[k]
  {
    assert buf[..16][4 * k..4 * k + 4] == buf[4 * k..4 * k + 4];
  }

  lemma HeaderOpens(buf: seq<byte>, kind: u32, body: seq<byte>, blob: seq<byte>)
    requires |buf| >= 16 && AreWords(buf[..16], Header(kind, |body|, |blob|)) && buf[16..] == body + blob
    ensures Open(buf, kind) == Ok((body, blob))
  {
    var ws := Header(kind, |body|, |blob|);
    WordOfHeader(buf, ws, 0);
    WordOfHeader(buf, ws, 1);
    WordOfHeader(buf, ws, 2);
    WordOfHeader(buf, ws, 3);
    assert buf[16..16 + |body|] == buf[16..][..|body|] && buf[16 + |body|..] == buf[16..][|body|..];
  }

  lemma OpenedHeader(buf: seq<byte>, kind: u32, body: seq<byte>, blob: seq<byte>)
    requires Open(buf, kind) == Ok((body, blob))
    ensures |buf| >= 16 && AreWords(buf[..16], Header(kind, |body|, |blob|)) && buf[16..] == body + blob
  {
    var ws := Header(kind, |body|, |blob|);
    forall k | 0 <= k < 4 ensures IsLe(buf[..16][4 * k..4 * k + 4], ws[k]) {
      assert buf[..16][4 * k..4 * k + 4] == buf[4 * k..4 * k + 4];
    }
    assert buf[16..] == buf[16..16 + |body|] + buf[16 + |body|..];
  }
}
