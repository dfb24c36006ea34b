/**
  * The buffers that carry a payload across the boundary: a writer that grows a body and a blob and
  * remembers whether a length overflowed, and a reader that moves a cursor over the body.
  */
module AbiBuffers {
  import opened Options
  import opened Words
  import opened AbiCodec

  // ---------------------------------------------------------------------------
  // Writing
  // ---------------------------------------------------------------------------

  /** A buffer after one more value. */
  ghost function Wrote<T>(before: Enc, c: Codec<T>, v: T): Enc {
    Then(before, c.enc(v, |before.blob|))
  }

  lemma ThenAssoc(a: Enc, b: Enc, c: Enc)
    ensures Then(Then(a, b), c) == Then(a, Then(b, c))
  {
    assert a.body + b.body + c.body == a.body + (b.body + c.body);
    assert a.blob + b.blob + c.blob == a.blob + (b.blob + c.blob);
  }

  lemma WroteMap<A, B>(e: Enc, c: Codec<A>, wrap: A -> B, unwrap: B -> A, v: B)
    ensures Wrote(e, MapC(c, wrap, unwrap), v) == Wrote(e, c, unwrap(v))
  {
  }

  lemma WrotePair<A, B>(e: Enc, a: Codec<A>, b: Codec<B>, x: A, y: B)
    ensures Wrote(Wrote(e, a, x), b, y) == Wrote(e, PairC(a, b), (x, y))
  {
    var ex := a.enc(x, |e.blob|);
    ThenAssoc(e, ex, b.enc(y, |e.blob| + |ex.blob|));
  }

  lemma WroteFour<A, B, C, D>(e: Enc, a: Codec<A>, b: Codec<B>, c: Codec<C>, d: Codec<D>, v: Four<A, B, C, D>)
    ensures Wrote(Wrote(Wrote(Wrote(e, a, v.0), b, v.1.0), c, v.1.1.0), d, v.1.1.1) == Wrote(e, FourC(a, b, c, d), v)
  {
    var e1 := Wrote(e, a, v.0);
    WrotePair(Wrote(e1, b, v.1.0), c, d, v.1.1.0, v.1.1.1);
    WrotePair(e1, b, PairC(c, d), v.1.0, v.1.1);
    WrotePair(e, a, PairC(b, PairC(c, d)), v.0, v.1);
  }

  lemma WroteFive<A, B, C, D, E>(e0: Enc, a: Codec<A>, b: Codec<B>, c: Codec<C>, d: Codec<D>, e: Codec<E>, v: Five<A, B, C, D, E>)
    ensures Wrote(Wrote(Wrote(Wrote(Wrote(e0, a, v.0), b, v.1.0), c, v.1.1.0), d, v.1.1.1.0), e, v.1.1.1.1)
         == Wrote(e0, FiveC(a, b, c, d, e), v)
  {
    WroteFour(Wrote(e0, a, v.0), b, c, d, e, v.1);
    WrotePair(e0, a, FourC(b, c, d, e), v.0, v.1);
  }

  /** A list in the making: the elements from `i` on are still to come. */
  ghost predicate Listing<T(!new)>(now: Enc, start: Enc, c: Codec<T>, xs: seq<T>, i: nat) {
    i <= |xs| && Then(now, ElementsEnc(c, xs[i..], |now.blob|)) == Wrote(start, ListC(c), xs)
  }

  lemma ListStarts<T(!new)>(start: Enc, c: Codec<T>, xs: seq<T>)
    ensures Listing(Then(start, CountEnc(|xs|)), start, c, xs, 0)
  {
    assert xs[0..] == xs && |start.blob + []| == |start.blob|;
    ThenAssoc(start, CountEnc(|xs|), ElementsEnc(c, xs, |start.blob|));
  }

  lemma ListContinues<T(!new)>(now: Enc, start: Enc, c: Codec<T>, xs: seq<T>, i: nat)
    requires Listing(now, start, c, xs, i) && i < |xs|
    ensures Listing(Wrote(now, c, xs[i]), start, c, xs, i + 1)
  {
    assert xs[i..][1..] == xs[i + 1..] && xs[i..][0] == xs[i];
    var x := c.enc(xs[i], |now.blob|);
    ThenAssoc(now, x, ElementsEnc(c, xs[i + 1..], |now.blob| + |x.blob|));
  }

  lemma ListEnds<T(!new)>(now: Enc, start: Enc, c: Codec<T>, xs: seq<T>)
    requires Listing(now, start, c, xs, |xs|)
    ensures now == Wrote(start, ListC(c), xs)
  {
    assert now.body + [] == now.body && now.blob + [] == now.blob;
  }

  class Writer {
    var body: seq<byte>
    var blob: seq<byte>
    var overflow: bool

    ghost function View(): Enc
      reads this
    {
      Enc(body, blob, !overflow)
    }

    constructor ()
      ensures View() == EMPTY
    {
      body, blob, overflow := [], [], false;
    }

    method U32(v: u32)
      modifies this
      ensures View() == Wrote(old(View()), WordC(), v)
    {
      body := body + Le(v);
      assert blob + [] == blob;
    }

    /** Narrows a length, remembering an overflow instead of truncating. */
    method NarrowTo32(n: nat) returns (v: u32)
      modifies this
      ensures v == Narrow(n) && body == old(body) && blob == old(blob) && overflow == (old(overflow) || n > U32_MAX)
    {
      if n <= U32_MAX {
        v := n;
      } else {
        overflow := true;
        v := 0;
      }
    }

    method PutCount(n: nat)
      modifies this
      ensures View() == Then(old(View()), CountEnc(n))
    {
      var c := NarrowTo32(n);
      U32(c);
    }

    method I32(v: i32)
      modifies this
      ensures View() == Wrote(old(View()), IntC(), v)
    {
      assert IntC().enc(v, |blob|) == WordC().enc(AsU32(v), |blob|);
      U32(AsU32(v));
    }

    method Bool32(v: bool)
      modifies this
      ensures View() == Wrote(old(View()), BoolC(), v)
    {
      assert BoolC().enc(v, |blob|) == WordC().enc(FromBool(v), |blob|);
      U32(FromBool(v));
    }

    method Intern(bytes: seq<byte>) returns (offset: u32, len: u32)
      modifies this
      ensures offset == Narrow(|old(blob)|) && len == Narrow(|bytes|)
      ensures body == old(body) && blob == old(blob) + bytes
      ensures overflow == (old(overflow) || |old(blob)| > U32_MAX || |bytes| > U32_MAX)
    {
      offset := NarrowTo32(|blob|);
      blob := blob + bytes;
      len := NarrowTo32(|bytes|);
    }

    method PutStr(utf8: Utf8, s: Str)
      modifies this
      ensures View() == Wrote(old(View()), StrC(utf8), s)
    {
      var offset, len := Intern(s);
      assert body + Le(offset) + Le(len) == body + (Le(offset) + Le(len));
      U32(offset);
      U32(len);
    }

    method OptRef(utf8: Utf8, s: Option<Str>)
      modifies this
      ensures View() == Wrote(old(View()), OptRefC(utf8), s)
    {
      ghost var before := View();
      match s {
        case Some(v) =>
          U32(1);
          var offset, len := Intern(v);
          U32(offset);
          U32(len);
          Assoc4(before.body, Le(1), Le(offset), Le(len));
          assert before.blob + ([] + v) == before.blob + v;
        case None =>
          U32(0);
          U32(0);
          U32(0);
          Assoc4(before.body, Le(0), Le(0), Le(0));
      }
    }

    method OptWord(v: Option<u32>)
      modifies this
      ensures View() == Wrote(old(View()), OptWordC(), v)
    {
      var (present, value) := if v.None? then (0, 0) else (1, v.value);
      assert body + Le(present) + Le(value) == body + (Le(present) + Le(value));
      U32(present);
      U32(value);
    }

    method OptI32(v: Option<i32>)
      modifies this
      ensures View() == Wrote(old(View()), OptIntC(), v)
    {
      OptWord(MapOption(v, AsU32));
    }

    method OptBool(v: Option<bool>)
      modifies this
      ensures View() == Wrote(old(View()), OptBoolC(), v)
    {
      OptWord(MapOption(v, FromBool));
    }

    method Done(kind: u32) returns (r: Result<seq<byte>, AbiError>)
      ensures r == Finish(View(), kind)
    {
      if overflow || |body| > U32_MAX || |blob| > U32_MAX {
        return Err(TooLarge);
      }
      return Ok(Le(MAGIC) + Le(kind) + Le(|body|) + Le(|blob|) + body + blob);
    }
  }

  // ---------------------------------------------------------------------------
  // Reading
  // ---------------------------------------------------------------------------

  /** A reading step returns what the specification returns and leaves what it leaves. */
  ghost predicate Took<T(!new)>(r: Result<T, AbiError>, spec: Read<T>, rest: seq<byte>) {
    match spec
    case Err(e) => r == Err(e)
    case Ok((v, after)) => r == Ok(v) && rest == after
  }

  class Reader {
    const body: seq<byte>
    const blob: seq<byte>
    const utf8: Utf8
    var pos: nat

    ghost predicate Valid()
      reads this
    {
      pos <= |body|
    }

    ghost function Rest(): seq<byte>
      requires Valid()
      reads this
    {
      body[pos..]
    }

    constructor (body: seq<byte>, blob: seq<byte>, utf8: Utf8)
      ensures Valid() && Rest() == body && this.blob == blob && this.utf8 == utf8
    {
      this.body, this.blob, this.utf8, this.pos := body, blob, utf8, 0;
    }

    method U32() returns (r: Result<u32, AbiError>)
      requires Valid()
      modifies this
      ensures Valid() && Took(r, Word(old(Rest())), Rest())
    {
      if pos + 4 > |body| {
        return Err(BodyUnderrun);
      }
      var slice := body[pos..pos + 4];
      assert slice == Rest()[..4] && body[pos + 4..] == Rest()[4..];
      pos := pos + 4;
      return Ok(FromLe(slice));
    }

    method I32() returns (r: Result<i32, AbiError>)
      requires Valid()
      modifies this
      ensures Valid() && Took(r, IntC().dec(old(Rest()), blob), Rest())
    {
      assert IntC().dec(Rest(), blob) == MapRead(WordC().dec(Rest(), blob), AsI32);
      var v :- U32();
      return Ok(AsI32(v));
    }

    method Bool32() returns (r: Result<bool, AbiError>)
      requires Valid()
      modifies this
      ensures Valid() && Took(r, BoolC().dec(old(Rest()), blob), Rest())
    {
      assert BoolC().dec(Rest(), blob) == MapRead(WordC().dec(Rest(), blob), ToBool);
      var v :- U32();
      return Ok(ToBool(v));
    }

    method GetCount() returns (r: Result<nat, AbiError>)
      requires Valid()
      modifies this
      ensures Valid() && Took(r, Count(old(Rest())), Rest())
    {
      var n :- U32();
      if n > (|body| - pos) / 4 {
        return Err(CountTooLarge);
      }
      return Ok(n);
    }

    method BlobSlice(offset: u32, len: u32) returns (r: Result<seq<byte>, AbiError>)
      ensures r == Slice(blob, offset, len)
    {
      if offset + len > |blob| {
        return Err(BlobOutOfRange);
      }
      return Ok(blob[offset..offset + len]);
    }

    method GetStr() returns (r: Result<Str, AbiError>)
      requires Valid()
      modifies this
      ensures Valid() && Took(r, StrC(utf8).dec(old(Rest()), blob), Rest())
    {
      var offset :- U32();
      var len :- U32();
      var b :- BlobSlice(offset, len);
      if !utf8(b) {
        return Err(InvalidUtf8);
      }
      return Ok(b);
    }

    method OptRef(check: Utf8) returns (r: Result<Option<Str>, AbiError>)
      requires Valid()
      modifies this
      ensures Valid() && Took(r, OptRefC(check).dec(old(Rest()), blob), Rest())
    {
      var present :- U32();
      var offset :- U32();
      var len :- U32();
      if present == 0 {
        return Ok(None);
      }
      var b :- BlobSlice(offset, len);
      if !check(b) {
        return Err(InvalidUtf8);
      }
      return Ok(Some(b));
    }

    method OptWord() returns (r: Result<Option<u32>, AbiError>)
      requires Valid()
      modifies this
      ensures Valid() && Took(r, OptWordC().dec(old(Rest()), blob), Rest())
    {
      var present :- U32();
      var v :- U32();
      return Ok(if present == 0 then None else Some(v));
    }

    method OptI32() returns (r: Result<Option<i32>, AbiError>)
      requires Valid()
      modifies this
      ensures Valid() && Took(r, OptIntC().dec(old(Rest()), blob), Rest())
    {
      var v :- OptWord();
      return Ok(MapOption(v, AsI32));
    }

    method OptBool() returns (r: Result<Option<bool>, AbiError>)
      requires Valid()
      modifies this
      ensures Valid() && Took(r, OptBoolC().dec(old(Rest()), blob), Rest())
    {
      var v :- OptWord();
      return Ok(MapOption(v, ToBool));
    }
  }
}
