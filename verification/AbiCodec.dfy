/**
  * The flat little-endian codec of the compiler boundary: a 16-byte envelope, a body of 32-bit words,
  * and a blob that holds the strings the body refers to by offset and length.
  *
  * A codec pairs an encoder, which is told where the blob ends so far, with a decoder, which reads off
  * the front of the body. Codecs are built from smaller ones, and each way of building one is shown to
  * keep the round trip. UTF-8 validity is a parameter.
  */
module AbiCodec {
  import opened Options
  import opened Words

  datatype AbiError =
    | ShortBuffer | BadMagic | WrongKind | LengthMismatch | BodyUnderrun | CountTooLarge | BlobOutOfRange
    | InvalidUtf8 | BadTag | TrailingBytes | TooLarge

  const MAGIC: u32 := 0x4241_504c
  const U32_MAX := 0xffff_ffff

  type Read<T> = Result<(T, seq<byte>), AbiError>

  // ---------------------------------------------------------------------------
  // Words
  // ---------------------------------------------------------------------------

  function Le(v: u32): (s: seq<byte>)
    ensures |s| == 4
  {
    var a := v / 0x100;
    var b := a / 0x100;
    [v % 0x100, a % 0x100, b % 0x100, b / 0x100]
  }

  function FromLe(s: seq<byte>): u32
    requires |s| == 4
  {
    s[0] as int + 0x100 * (s[1] as int + 0x100 * (s[2] as int + 0x100 * s[3] as int))
  }

  lemma LeRoundTrip(v: u32)
    ensures FromLe(Le(v)) == v
  {
  }

  function Word(s: seq<byte>): (r: Read<u32>)
    ensures r.Ok? ==> |r.value.1| + 4 == |s|
  {
    if |s| < 4 then Err(BodyUnderrun) else Ok((FromLe(s[..4]), s[4..]))
  }

  lemma WordOfLe(v: u32, rest: seq<byte>)
    ensures Word(Le(v) + rest) == Ok((v, rest))
  {
    assert (Le(v) + rest)[..4] == Le(v) && (Le(v) + rest)[4..] == rest;
    LeRoundTrip(v);
  }

  function AsU32(v: i32): u32 {
    if v < 0 then v + 0x1_0000_0000 else v
  }

  function AsI32(v: u32): i32 {
    if v < 0x8000_0000 then v else v - 0x1_0000_0000
  }

  // ---------------------------------------------------------------------------
  // Codecs
  // ---------------------------------------------------------------------------

  /** What writing a value appends, and whether every length in it fits 32 bits. */
  datatype Enc = Enc(body: seq<byte>, blob: seq<byte>, fits: bool)

  function Then(a: Enc, b: Enc): Enc {
    Enc(a.body + b.body, a.blob + b.blob, a.fits && b.fits)
  }

  const EMPTY := Enc([], [], true)

  datatype Codec<!T> = Codec(enc: (T, nat) -> Enc, dec: (seq<byte>, seq<byte>) -> Read<T>)

  predicate Holds(blob: seq<byte>, base: nat, part: seq<byte>) {
    base + |part| <= |blob| && blob[base..base + |part|] == part
  }

  predicate DecodesBack<T(==)>(c: Codec<T>, v: T, base: nat, blob: seq<byte>, rest: seq<byte>) {
    var e := c.enc(v, base);
    e.fits && Holds(blob, base, e.blob) ==> c.dec(e.body + rest, blob) == Ok((v, rest))
  }

  /** Whatever blob the encoding ends up in and whatever follows it, the value decodes back. */
  ghost predicate Faithful<T(!new)>(c: Codec<T>, v: T) {
    forall base: nat, blob: seq<byte>, rest: seq<byte> :: DecodesBack(c, v, base, blob, rest)
  }

  /** Every encoding of the value takes at least one word. */
  ghost predicate TakesAWord<T(!new)>(c: Codec<T>, v: T) {
    forall base: nat :: |c.enc(v, base).body| >= 4
  }

  function WordEnc(v: u32): Enc {
    Enc(Le(v), [], true)
  }

  function WordC(): Codec<u32> {
    Codec((v: u32, base: nat) => WordEnc(v), (s: seq<byte>, blob: seq<byte>) => Word(s))
  }

  lemma WordFaithful(v: u32)
    ensures Faithful(WordC(), v)
  {
    forall base: nat, blob: seq<byte>, rest: seq<byte> ensures DecodesBack(WordC(), v, base, blob, rest) {
      WordOfLe(v, rest);
    }
  }

  // ---------------------------------------------------------------------------
  // Building codecs
  // ---------------------------------------------------------------------------

  function MapRead<A, B>(r: Read<A>, f: A -> B): Read<B> {
    match r
    case Err(e) => Err(e)
    case Ok((v, rest)) => Ok((f(v), rest))
  }

  /** The same bytes, seen as another type. */
  function MapC<A, B>(c: Codec<A>, wrap: A -> B, unwrap: B -> A): Codec<B> {
    Codec((v: B, base: nat) => c.enc(unwrap(v), base), (s: seq<byte>, blob: seq<byte>) => MapRead(c.dec(s, blob), wrap))
  }

  lemma MapFaithful<A(!new), B(!new)>(c: Codec<A>, wrap: A -> B, unwrap: B -> A, v: B)
    requires wrap(unwrap(v)) == v && Faithful(c, unwrap(v))
    ensures Faithful(MapC(c, wrap, unwrap), v)
  {
    forall base: nat, blob: seq<byte>, rest: seq<byte> ensures DecodesBack(MapC(c, wrap, unwrap), v, base, blob, rest) {
      assert DecodesBack(c, unwrap(v), base, blob, rest);
    }
  }

  function PairEnc<A, B>(a: Codec<A>, b: Codec<B>, v: (A, B), base: nat): Enc {
    var x := a.enc(v.0, base);
    Then(x, b.enc(v.1, base + |x.blob|))
  }

  function PairDec<A, B>(a: Codec<A>, b: Codec<B>, s: seq<byte>, blob: seq<byte>): Read<(A, B)> {
    match a.dec(s, blob)
    case Err(e) => Err(e)
    case Ok((x, rest)) =>
      match b.dec(rest, blob)
      case Err(e) => Err(e)
      case Ok((y, after)) => Ok(((x, y), after))
  }

  function PairC<A, B>(a: Codec<A>, b: Codec<B>): Codec<(A, B)> {
    Codec((v: (A, B), base: nat) => PairEnc(a, b, v, base), (s: seq<byte>, blob: seq<byte>) => PairDec(a, b, s, blob))
  }

  lemma HoldsParts(blob: seq<byte>, base: nat, x: seq<byte>, y: seq<byte>)
    requires Holds(blob, base, x + y)
    ensures Holds(blob, base, x) && Holds(blob, base + |x|, y)
  {
    var whole := blob[base..base + |x| + |y|];
    assert whole[..|x|] == x && whole[|x|..] == y;
    assert blob[base..base + |x|] == whole[..|x|];
    assert blob[base + |x|..base + |x| + |y|] == whole[|x|..];
  }

  lemma Assoc4(a: seq<byte>, b: seq<byte>, c: seq<byte>, d: seq<byte>)
    ensures a + (b + c) + d == a + (b + (c + d))
    ensures a + b + c + d == a + (b + (c + d))
  {
  }

  lemma PairFaithful<A(!new), B(!new)>(a: Codec<A>, b: Codec<B>, v: (A, B))
    requires Faithful(a, v.0) && Faithful(b, v.1)
    ensures Faithful(PairC(a, b), v)
  {
    forall base: nat, blob: seq<byte>, rest: seq<byte> ensures DecodesBack(PairC(a, b), v, base, blob, rest) {
      var x := a.enc(v.0, base);
      var y := b.enc(v.1, base + |x.blob|);
      if x.fits && y.fits && Holds(blob, base, x.blob + y.blob) {
        HoldsParts(blob, base, x.blob, y.blob);
        Assoc(x.body, y.body, rest);
        assert DecodesBack(a, v.0, base, blob, y.body + rest);
        assert DecodesBack(b, v.1, base + |x.blob|, blob, rest);
      }
    }
  }

  /** A value behind a presence word; absent values take the word alone. */
  function FlagEnc<T>(c: Codec<T>, v: Option<T>, base: nat): Enc {
    if v.None? then WordEnc(0) else Then(WordEnc(1), c.enc(v.value, base))
  }

  function FlagDec<T>(c: Codec<T>, s: seq<byte>, blob: seq<byte>): Read<Option<T>> {
    match Word(s)
    case Err(e) => Err(e)
    case Ok((present, rest)) =>
      if present == 0 then Ok((None, rest))
      else
        match c.dec(rest, blob)
        case Err(e) => Err(e)
        case Ok((v, after)) => Ok((Some(v), after))
  }

  function FlagC<T>(c: Codec<T>): Codec<Option<T>> {
    Codec((v: Option<T>, base: nat) => FlagEnc(c, v, base), (s: seq<byte>, blob: seq<byte>) => FlagDec(c, s, blob))
  }

  lemma FlagFaithful<T(!new)>(c: Codec<T>, v: Option<T>)
    requires v.Some? ==> Faithful(c, v.value)
    ensures Faithful(FlagC(c), v)
  {
    forall base: nat, blob: seq<byte>, rest: seq<byte> ensures DecodesBack(FlagC(c), v, base, blob, rest) {
      if v.None? {
        WordOfLe(0, rest);
      } else {
        var e := c.enc(v.value, base);
        WordOfLe(1, e.body + rest);
        Assoc(Le(1), e.body, rest);
        assert [] + e.blob == e.blob;
        assert DecodesBack(c, v.value, base, blob, rest);
      }
    }
  }

  // ---------------------------------------------------------------------------
  // Lists: a count word, then the elements
  // ---------------------------------------------------------------------------

  function Narrow(n: nat): u32 {
    if n <= U32_MAX then n else 0
  }

  function CountEnc(n: nat): Enc {
    Enc(Le(Narrow(n)), [], n <= U32_MAX)
  }

  /** A count, refused when the remaining body could not hold that many words. */
  function Count(s: seq<byte>): Read<nat> {
    match Word(s)
    case Err(e) => Err(e)
    case Ok((n, rest)) => if n > |rest| / 4 then Err(CountTooLarge) else Ok((n, rest))
  }

  function ElementsEnc<T>(c: Codec<T>, xs: seq<T>, base: nat): Enc {
    if xs == [] then EMPTY
    else
      var x := c.enc(xs[0], base);
      Then(x, ElementsEnc(c, xs[1..], base + |x.blob|))
  }

  function Elements<T>(c: Codec<T>, n: nat, s: seq<byte>, blob: seq<byte>): Read<seq<T>>
    decreases n
  {
    if n == 0 then Ok(([], s))
    else
      match c.dec(s, blob)
      case Err(e) => Err(e)
      case Ok((x, rest)) =>
        match Elements(c, n - 1, rest, blob)
        case Err(e) => Err(e)
        case Ok((xs, after)) => Ok(([x] + xs, after))
  }

  function ListEnc<T>(c: Codec<T>, xs: seq<T>, base: nat): Enc {
    Then(CountEnc(|xs|), ElementsEnc(c, xs, base))
  }

  function ListDec<T>(c: Codec<T>, s: seq<byte>, blob: seq<byte>): Read<seq<T>> {
    match Count(s)
    case Err(e) => Err(e)
    case Ok((n, rest)) => Elements(c, n, rest, blob)
  }

  function ListC<T>(c: Codec<T>): Codec<seq<T>> {
    Codec((xs: seq<T>, base: nat) => ListEnc(c, xs, base), (s: seq<byte>, blob: seq<byte>) => ListDec(c, s, blob))
  }

  lemma {:induction false} ElementsLength<T(!new)>(c: Codec<T>, xs: seq<T>, base: nat)
    requires forall x | x in xs :: TakesAWord(c, x)
    ensures |ElementsEnc(c, xs, base).body| >= 4 * |xs|
  {
    if xs != [] {
      assert xs[0] in xs;
      ElementsLength(c, xs[1..], base + |c.enc(xs[0], base).blob|);
    }
  }

  lemma {:induction false} ElementsDecodeBack<T(!new)>(c: Codec<T>, xs: seq<T>, base: nat, blob: seq<byte>, rest: seq<byte>)
    requires forall x | x in xs :: Faithful(c, x)
    requires ElementsEnc(c, xs, base).fits && Holds(blob, base, ElementsEnc(c, xs, base).blob)
    ensures Elements(c, |xs|, ElementsEnc(c, xs, base).body + rest, blob) == Ok((xs, rest))
    decreases |xs|
  {
    if xs == [] {
      assert [] + rest == rest;
    } else {
      var x := c.enc(xs[0], base);
      var more := ElementsEnc(c, xs[1..], base + |x.blob|);
      assert xs[0] in xs;
      HoldsParts(blob, base, x.blob, more.blob);
      Assoc(x.body, more.body, rest);
      assert DecodesBack(c, xs[0], base, blob, more.body + rest);
      ElementsDecodeBack(c, xs[1..], base + |x.blob|, blob, rest);
      assert [xs[0]] + xs[1..] == xs;
    }
  }

  /** The count guard never refuses a list that was written. */
  lemma ListFaithful<T(!new)>(c: Codec<T>, xs: seq<T>)
    requires forall x | x in xs :: Faithful(c, x) && TakesAWord(c, x)
    ensures Faithful(ListC(c), xs)
  {
    forall base: nat, blob: seq<byte>, rest: seq<byte> ensures DecodesBack(ListC(c), xs, base, blob, rest) {
      var e := ElementsEnc(c, xs, base);
      if |xs| <= U32_MAX && e.fits && Holds(blob, base, [] + e.blob) {
        assert [] + e.blob == e.blob;
        ElementsLength(c, xs, base);
        WordOfLe(|xs|, e.body + rest);
        Assoc(Le(|xs|), e.body, rest);
        ElementsDecodeBack(c, xs, base, blob, rest);
      }
    }
  }

  // ---------------------------------------------------------------------------
  // Strings and opaque bytes in the blob
  // ---------------------------------------------------------------------------

  type Utf8 = seq<byte> -> bool

  function RefEnc(b: seq<byte>, base: nat): Enc {
    Enc(Le(Narrow(base)) + Le(Narrow(|b|)), b, base <= U32_MAX && |b| <= U32_MAX)
  }

  function Slice(blob: seq<byte>, offset: u32, len: u32): Result<seq<byte>, AbiError> {
    if offset + len > |blob| then Err(BlobOutOfRange) else Ok(blob[offset..offset + len])
  }

  function Checked(utf8: Utf8, slice: Result<seq<byte>, AbiError>): Result<seq<byte>, AbiError> {
    if slice.Ok? && !utf8(slice.value) then Err(InvalidUtf8) else slice
  }

  function StrDec(utf8: Utf8, s: seq<byte>, blob: seq<byte>): Read<seq<byte>> {
    match Word(s)
    case Err(e) => Err(e)
    case Ok((offset, rest)) =>
      match Word(rest)
      case Err(e) => Err(e)
      case Ok((len, after)) =>
        match Checked(utf8, Slice(blob, offset, len))
        case Err(e) => Err(e)
        case Ok(b) => Ok((b, after))
  }

  function StrC(utf8: Utf8): Codec<seq<byte>> {
    Codec(RefEnc, (s: seq<byte>, blob: seq<byte>) => StrDec(utf8, s, blob))
  }

  lemma StrFaithful(utf8: Utf8, b: seq<byte>)
    requires utf8(b)
    ensures Faithful(StrC(utf8), b) && TakesAWord(StrC(utf8), b)
  {
    forall base: nat, blob: seq<byte>, rest: seq<byte> ensures DecodesBack(StrC(utf8), b, base, blob, rest) {
      if base <= U32_MAX && |b| <= U32_MAX {
        WordOfLe(base, Le(|b|) + rest);
        WordOfLe(|b|, rest);
        Assoc(Le(base), Le(|b|), rest);
      }
    }
  }

  /** An optional blob reference always takes three words; absent ones are zeroed. */
  function OptRefEnc(v: Option<seq<byte>>, base: nat): Enc {
    if v.None? then Then(WordEnc(0), Then(WordEnc(0), WordEnc(0))) else Then(WordEnc(1), RefEnc(v.value, base))
  }

  function OptRefDec(utf8: Utf8, s: seq<byte>, blob: seq<byte>): Read<Option<seq<byte>>> {
    match Word(s)
    case Err(e) => Err(e)
    case Ok((present, rest)) =>
      match Word(rest)
      case Err(e) => Err(e)
      case Ok((offset, rest')) =>
        match Word(rest')
        case Err(e) => Err(e)
        case Ok((len, after)) =>
          if present == 0 then Ok((None, after))
          else
            match Checked(utf8, Slice(blob, offset, len))
            case Err(e) => Err(e)
            case Ok(b) => Ok((Some(b), after))
  }

  function OptRefC(utf8: Utf8): Codec<Option<seq<byte>>> {
    Codec(OptRefEnc, (s: seq<byte>, blob: seq<byte>) => OptRefDec(utf8, s, blob))
  }

  lemma OptRefFaithful(utf8: Utf8, v: Option<seq<byte>>)
    requires v.Some? ==> utf8(v.value)
    ensures Faithful(OptRefC(utf8), v)
  {
    forall base: nat, blob: seq<byte>, rest: seq<byte> ensures DecodesBack(OptRefC(utf8), v, base, blob, rest) {
      if v.None? {
        AbsentDecodesBack(utf8, base, blob, rest);
      } else {
        PresentDecodesBack(utf8, v.value, base, blob, rest);
      }
    }
  }

  lemma AbsentDecodesBack(utf8: Utf8, base: nat, blob: seq<byte>, rest: seq<byte>)
    ensures DecodesBack(OptRefC(utf8), None, base, blob, rest)
  {
    WordOfLe(0, Le(0) + (Le(0) + rest));
    WordOfLe(0, Le(0) + rest);
    WordOfLe(0, rest);
    Assoc4(Le(0), Le(0), Le(0), rest);
  }

  lemma PresentDecodesBack(utf8: Utf8, s: seq<byte>, base: nat, blob: seq<byte>, rest: seq<byte>)
    requires utf8(s)
    ensures DecodesBack(OptRefC(utf8), Some(s), base, blob, rest)
  {
    if base <= U32_MAX && |s| <= U32_MAX {
      var n := |s|;
      WordOfLe(1, Le(base) + (Le(n) + rest));
      WordOfLe(base, Le(n) + rest);
      WordOfLe(n, rest);
      Assoc4(Le(1), Le(base), Le(n), rest);
      assert [] + s == s;
    }
  }

  // ---------------------------------------------------------------------------
  // Optional words
  // ---------------------------------------------------------------------------

  /** A presence word and a value word, both always there. */
  function OptWordEnc(v: Option<u32>, base: nat): Enc {
    if v.None? then Then(WordEnc(0), WordEnc(0)) else Then(WordEnc(1), WordEnc(v.value))
  }

  function OptWordDec(s: seq<byte>, blob: seq<byte>): Read<Option<u32>> {
    match Word(s)
    case Err(e) => Err(e)
    case Ok((present, rest)) =>
      match Word(rest)
      case Err(e) => Err(e)
      case Ok((v, after)) => Ok((if present == 0 then None else Some(v), after))
  }

  function OptWordC(): Codec<Option<u32>> {
    Codec(OptWordEnc, OptWordDec)
  }

  lemma OptWordFaithful(v: Option<u32>)
    ensures Faithful(OptWordC(), v)
  {
    forall base: nat, blob: seq<byte>, rest: seq<byte> ensures DecodesBack(OptWordC(), v, base, blob, rest) {
      var (present, value) := if v.None? then (0, 0) else (1, v.value);
      WordOfLe(present, Le(value) + rest);
      WordOfLe(value, rest);
      Assoc(Le(present), Le(value), rest);
    }
  }

  // ---------------------------------------------------------------------------
  // Scalars
  // ---------------------------------------------------------------------------

  function MapOption<A, B>(v: Option<A>, f: A -> B): Option<B> {
    if v.None? then None else Some(f(v.value))
  }

  function ToBool(w: u32): bool {
    w != 0
  }

  function FromBool(b: bool): u32 {
    if b then 1 else 0
  }

  function IntC(): Codec<i32> {
    MapC(WordC(), AsI32, AsU32)
  }

  function BoolC(): Codec<bool> {
    MapC(WordC(), ToBool, FromBool)
  }

  function OptIntC(): Codec<Option<i32>> {
    MapC(OptWordC(), (v: Option<u32>) => MapOption(v, AsI32), (v: Option<i32>) => MapOption(v, AsU32))
  }

  function OptBoolC(): Codec<Option<bool>> {
    MapC(OptWordC(), (v: Option<u32>) => MapOption(v, ToBool), (v: Option<bool>) => MapOption(v, FromBool))
  }

  /** Opaque bytes are not checked for UTF-8. */
  function AnyBytes(b: Str): bool {
    true
  }

  lemma ScalarsFaithful(i: i32, b: bool, oi: Option<i32>, ob: Option<bool>)
    ensures Faithful(IntC(), i) && TakesAWord(IntC(), i)
    ensures Faithful(BoolC(), b)
    ensures Faithful(OptIntC(), oi)
    ensures Faithful(OptBoolC(), ob)
  {
    WordFaithful(AsU32(i));
    MapFaithful(WordC(), AsI32, AsU32, i);
    WordFaithful(FromBool(b));
    MapFaithful(WordC(), ToBool, FromBool, b);
    OptWordFaithful(MapOption(oi, AsU32));
    MapFaithful(OptWordC(), (v: Option<u32>) => MapOption(v, AsI32), (v: Option<i32>) => MapOption(v, AsU32), oi);
    OptWordFaithful(MapOption(ob, FromBool));
    MapFaithful(OptWordC(), (v: Option<u32>) => MapOption(v, ToBool), (v: Option<bool>) => MapOption(v, FromBool), ob);
  }

  // ---------------------------------------------------------------------------
  // Variants behind a tag word
  // ---------------------------------------------------------------------------

  datatype Either<+A, +B> = Left(a: A) | Right(b: B)

  /** Two variants tagged `t` and `t + 1`; any other tag is refused. */
  function EitherEnc<A, B>(t: u32, a: Codec<A>, b: Codec<B>, v: Either<A, B>, base: nat): Enc
    requires t < 2
  {
    match v
    case Left(x) => Then(WordEnc(t), a.enc(x, base))
    case Right(y) => Then(WordEnc(t + 1), b.enc(y, base))
  }

  function EitherDec<A, B>(t: u32, a: Codec<A>, b: Codec<B>, tag: u32, s: seq<byte>, blob: seq<byte>): Read<Either<A, B>> {
    if tag == t then MapRead(a.dec(s, blob), (x: A) => Left(x))
    else if tag == t + 1 then MapRead(b.dec(s, blob), (y: B) => Right(y))
    else Err(BadTag)
  }

  function TaggedDec<A, B>(a: Codec<A>, b: Codec<B>, s: seq<byte>, blob: seq<byte>): Read<Either<A, B>> {
    match Word(s)
    case Err(e) => Err(e)
    case Ok((tag, rest)) => EitherDec(0, a, b, tag, rest, blob)
  }

  function EitherC<A, B>(a: Codec<A>, b: Codec<B>): Codec<Either<A, B>> {
    Codec((v: Either<A, B>, base: nat) => EitherEnc(0, a, b, v, base),
          (s: seq<byte>, blob: seq<byte>) => TaggedDec(a, b, s, blob))
  }

  /** Absent is tag zero. */
  function OptEitherEnc<A, B>(a: Codec<A>, b: Codec<B>, v: Option<Either<A, B>>, base: nat): Enc {
    if v.None? then WordEnc(0) else EitherEnc(1, a, b, v.value, base)
  }

  function OptEitherDec<A, B>(a: Codec<A>, b: Codec<B>, s: seq<byte>, blob: seq<byte>): Read<Option<Either<A, B>>> {
    match Word(s)
    case Err(e) => Err(e)
    case Ok((tag, rest)) =>
      if tag == 0 then Ok((None, rest))
      else
        match EitherDec(1, a, b, tag, rest, blob)
        case Err(e) => Err(e)
        case Ok((v, after)) => Ok((Some(v), after))
  }

  function OptEitherC<A, B>(a: Codec<A>, b: Codec<B>): Codec<Option<Either<A, B>>> {
    Codec((v: Option<Either<A, B>>, base: nat) => OptEitherEnc(a, b, v, base),
          (s: seq<byte>, blob: seq<byte>) => OptEitherDec(a, b, s, blob))
  }

  ghost predicate EitherFaithful<A(!new), B(!new)>(a: Codec<A>, b: Codec<B>, v: Either<A, B>) {
    match v
    case Left(x) => Faithful(a, x)
    case Right(y) => Faithful(b, y)
  }

  lemma TaggedDecodesBack<A(!new), B(!new)>(t: u32, a: Codec<A>, b: Codec<B>, v: Either<A, B>, base: nat, blob: seq<byte>, rest: seq<byte>)
    returns (tag: u32, s: seq<byte>)
    requires t < 2 && EitherFaithful(a, b, v)
    requires EitherEnc(t, a, b, v, base).fits && Holds(blob, base, EitherEnc(t, a, b, v, base).blob)
    ensures t <= tag && Word(EitherEnc(t, a, b, v, base).body + rest) == Ok((tag, s))
    ensures EitherDec(t, a, b, tag, s, blob) == Ok((v, rest))
  {
    tag := if v.Left? then t else t + 1;
    var e := if v.Left? then a.enc(v.a, base) else b.enc(v.b, base);
    s := e.body + rest;
    assert [] + e.blob == e.blob;
    WordOfLe(tag, s);
    Assoc(Le(tag), e.body, rest);
    if v.Left? {
      assert DecodesBack(a, v.a, base, blob, rest);
    } else {
      assert DecodesBack(b, v.b, base, blob, rest);
    }
  }

  lemma EitherCFaithful<A(!new), B(!new)>(a: Codec<A>, b: Codec<B>, v: Either<A, B>)
    requires EitherFaithful(a, b, v)
    ensures Faithful(EitherC(a, b), v)
  {
    forall base: nat, blob: seq<byte>, rest: seq<byte> ensures DecodesBack(EitherC(a, b), v, base, blob, rest) {
      var e := EitherEnc(0, a, b, v, base);
      if e.fits && Holds(blob, base, e.blob) {
        var tag, s := TaggedDecodesBack(0, a, b, v, base, blob, rest);
      }
    }
  }

  lemma OptEitherCFaithful<A(!new), B(!new)>(a: Codec<A>, b: Codec<B>, v: Option<Either<A, B>>)
    requires v.Some? ==> EitherFaithful(a, b, v.value)
    ensures Faithful(OptEitherC(a, b), v)
  {
    forall base: nat, blob: seq<byte>, rest: seq<byte> ensures DecodesBack(OptEitherC(a, b), v, base, blob, rest) {
      if v.None? {
        WordOfLe(0, rest);
      } else {
        var e := EitherEnc(1, a, b, v.value, base);
        if e.fits && Holds(blob, base, e.blob) {
          var tag, s := TaggedDecodesBack(1, a, b, v.value, base, blob, rest);
        }
      }
    }
  }

  // ---------------------------------------------------------------------------
  // Records
  // ---------------------------------------------------------------------------

  type Four<A, B, C, D> = (A, (B, (C, D)))
  type Five<A, B, C, D, E> = (A, (B, (C, (D, E))))

  function FourC<A, B, C, D>(a: Codec<A>, b: Codec<B>, c: Codec<C>, d: Codec<D>): Codec<Four<A, B, C, D>> {
    PairC(a, PairC(b, PairC(c, d)))
  }

  function FiveC<A, B, C, D, E>(a: Codec<A>, b: Codec<B>, c: Codec<C>, d: Codec<D>, e: Codec<E>): Codec<Five<A, B, C, D, E>> {
    PairC(a, FourC(b, c, d, e))
  }

  lemma FourFaithful<A(!new), B(!new), C(!new), D(!new)>(a: Codec<A>, b: Codec<B>, c: Codec<C>, d: Codec<D>, v: Four<A, B, C, D>)
    requires Faithful(a, v.0) && Faithful(b, v.1.0) && Faithful(c, v.1.1.0) && Faithful(d, v.1.1.1)
    ensures Faithful(FourC(a, b, c, d), v)
  {
    PairFaithful(c, d, v.1.1);
    PairFaithful(b, PairC(c, d), v.1);
    PairFaithful(a, PairC(b, PairC(c, d)), v);
  }

  lemma FiveFaithful<A(!new), B(!new), C(!new), D(!new), E(!new)>(a: Codec<A>, b: Codec<B>, c: Codec<C>, d: Codec<D>, e: Codec<E>,
                                                                  v: Five<A, B, C, D, E>)
    requires Faithful(a, v.0) && Faithful(b, v.1.0) && Faithful(c, v.1.1.0) && Faithful(d, v.1.1.1.0) && Faithful(e, v.1.1.1.1)
    ensures Faithful(FiveC(a, b, c, d, e), v)
  {
    FourFaithful(b, c, d, e, v.1);
    PairFaithful(a, FourC(b, c, d, e), v);
  }

  // ---------------------------------------------------------------------------
  // Whole payloads: envelope, body, blob
  // ---------------------------------------------------------------------------

  function Finish(e: Enc, kind: u32): Result<seq<byte>, AbiError> {
    if !e.fits || |e.body| > U32_MAX || |e.blob| > U32_MAX then Err(TooLarge)
    else Ok(Le(MAGIC) + Le(kind) + Le(|e.body|) + Le(|e.blob|) + e.body + e.blob)
  }

  function Open(buf: seq<byte>, kind: u32): Result<(seq<byte>, seq<byte>), AbiError> {
    if |buf| < 16 then Err(ShortBuffer)
    else if FromLe(buf[0..4]) != MAGIC then Err(BadMagic)
    else if FromLe(buf[4..8]) != kind then Err(WrongKind)
    else
      var bodyLen, blobLen := FromLe(buf[8..12]), FromLe(buf[12..16]);
      if 16 + bodyLen + blobLen != |buf| then Err(LengthMismatch)
      else Ok((buf[16..16 + bodyLen], buf[16 + bodyLen..]))
  }

  lemma OpenFinished(e: Enc, kind: u32)
    requires Finish(e, kind).Ok?
    ensures Open(Finish(e, kind).value, kind) == Ok((e.body, e.blob))
  {
    var buf := Finish(e, kind).value;
    LeRoundTrip(MAGIC);
    LeRoundTrip(kind);
    LeRoundTrip(|e.body|);
    LeRoundTrip(|e.blob|);
    assert buf[0..4] == Le(MAGIC) && buf[4..8] == Le(kind) && buf[8..12] == Le(|e.body|) && buf[12..16] == Le(|e.blob|);
    assert buf[16..16 + |e.body|] == e.body && buf[16 + |e.body|..] == e.blob;
  }

  function Encode<T>(c: Codec<T>, kind: u32, v: T): Result<seq<byte>, AbiError> {
    Finish(c.enc(v, 0), kind)
  }

  function Decode<T>(c: Codec<T>, kind: u32, buf: seq<byte>): Result<T, AbiError> {
    match Open(buf, kind)
    case Err(e) => Err(e)
    case Ok((body, blob)) =>
      match c.dec(body, blob)
      case Err(e) => Err(e)
      case Ok((v, rest)) => if rest != [] then Err(TrailingBytes) else Ok(v)
  }

  /** Whenever encoding succeeds, decoding gives the value back and consumes the whole body. */
  lemma PayloadRoundTrip<T(!new)>(c: Codec<T>, kind: u32, v: T)
    requires Faithful(c, v) && Encode(c, kind, v).Ok?
    ensures Decode(c, kind, Encode(c, kind, v).value) == Ok(v)
  {
    var e := c.enc(v, 0);
    OpenFinished(e, kind);
    assert DecodesBack(c, v, 0, e.blob, []);
    assert e.body + [] == e.body && e.blob[0..|e.blob|] == e.blob;
  }
}
