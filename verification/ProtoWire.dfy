/**
  * The protobuf wire format as the SemanticDB reader consumes it: base-128 varints, tags,
  * length-delimited payloads, and the skipping of unknown fields, legacy groups included.
  *
  * The specification reads a byte sequence and returns what is left of it; `ProtoReader` does the
  * same by moving a cursor. Shifting and or-ing seven-bit groups is written as addition, because
  * the groups never overlap.
  */
module ProtoWire {
  import opened Options
  import opened Words

  datatype WireError =
    | MalformedVarint | TruncatedVarint | TagOutOfRange | FieldNumberZero | TruncatedLength | TruncatedField
    | MismatchedEndGroup | UnexpectedEndGroup | UnsupportedWireType

  const TWO64 := 0x1_0000_0000_0000_0000

  type Read<T> = Result<(T, seq<byte>), WireError>

  // ---------------------------------------------------------------------------
  // Varints
  // ---------------------------------------------------------------------------

  /** The number that a varint spells, starting at its `i`-th byte: at most ten bytes, low groups first. */
  function Spelled(s: seq<byte>, i: nat): (r: Read<nat>)
    ensures r.Ok? ==> |r.value.1| < |s| && s[|s| - |r.value.1|..] == r.value.1
    ensures i >= 10 ==> r.Err?
  {
    if i >= 10 then Err(MalformedVarint)
    else if s == [] then Err(TruncatedVarint)
    else if s[0] < 0x80 then Ok((s[0], s[1..]))
    else
      var (high, rest) :- Spelled(s[1..], i + 1);
      Ok((s[0] - 0x80 + 0x80 * high, rest))
  }

  function Truncate(n: nat): u64 {
    if n < TWO64 then n else n % TWO64
  }

  /** A varint as an unsigned 64-bit number: bits above 63 are dropped. */
  function Varint(s: seq<byte>): (r: Read<u64>)
    ensures r.Ok? ==> |r.value.1| < |s| && s[|s| - |r.value.1|..] == r.value.1
  {
    var (n, rest) :- Spelled(s, 0);
    Ok((Truncate(n), rest))
  }

  function EncodeVarint(v: nat): (s: seq<byte>)
    ensures s != []
  {
    if v < 0x80 then [v] else [0x80 + v % 0x80] + EncodeVarint(v / 0x80)
  }

  /** What fits into the bytes from the `i`-th to the tenth. */
  function Capacity(i: nat): nat
    decreases 10 - i
  {
    if i >= 10 then 1 else 0x80 * Capacity(i + 1)
  }

  lemma {:induction false} SpelledEncoded(v: nat, i: nat, rest: seq<byte>)
    requires i < 10 && v < Capacity(i)
    ensures Spelled(EncodeVarint(v) + rest, i) == Ok((v, rest))
    decreases v
  {
    var s := EncodeVarint(v) + rest;
    if v < 0x80 {
      assert s[1..] == rest;
    } else {
      assert s[1..] == EncodeVarint(v / 0x80) + rest;
      assert i < 9;
      SpelledEncoded(v / 0x80, i + 1, rest);
    }
  }

  lemma CapacityCoversU64()
    ensures Capacity(0) > TWO64
  {
    assert Capacity(8) == 0x80 * 0x80;
    assert Capacity(6) == 0x80 * 0x80 * Capacity(8);
    assert Capacity(4) == 0x80 * 0x80 * Capacity(6);
    assert Capacity(2) == 0x80 * 0x80 * Capacity(4);
    assert Capacity(0) == 0x80 * 0x80 * Capacity(2);
  }

  lemma VarintRoundTrip(v: u64, rest: seq<byte>)
    ensures Varint(EncodeVarint(v) + rest) == Ok((v, rest))
  {
    CapacityCoversU64();
    SpelledEncoded(v, 0, rest);
  }

  /** A varint is read without looking past its end. */
  lemma {:induction false} SpelledLocal(s: seq<byte>, i: nat, more: seq<byte>)
    requires Spelled(s, i).Ok?
    ensures Spelled(s + more, i) == Ok((Spelled(s, i).value.0, Spelled(s, i).value.1 + more))
  {
    assert (s + more)[1..] == s[1..] + more;
    if s[0] >= 0x80 {
      SpelledLocal(s[1..], i + 1, more);
    }
  }

  lemma {:induction false} SpelledPrefix(s: seq<byte>, i: nat)
    requires Spelled(s, i).Ok?
    ensures Spelled(s[..|s| - |Spelled(s, i).value.1|], i) == Ok((Spelled(s, i).value.0, []))
  {
    var rest := Spelled(s, i).value.1;
    var raw, more := s[..|s| - |rest|], s[1..];
    assert raw != [] && raw[0] == s[0];
    if s[0] >= 0x80 {
      assert Spelled(more, i + 1).value.1 == rest;
      SpelledPrefix(more, i + 1);
      assert raw[1..] == more[..|more| - |rest|];
    } else {
      assert raw[1..] == [];
    }
  }

  /** The first `n` bytes are a varint: all but the last one have their top bit set. */
  ghost predicate EndsAfter(s: seq<byte>, n: nat) {
    1 <= n <= |s| && s[n - 1] < 0x80 && forall i | 0 <= i < n - 1 :: s[i] >= 0x80
  }

  function Power128(k: nat): nat {
    if k == 0 then 1 else 0x80 * Power128(k - 1)
  }

  /** The low seven bits of each byte, each byte worth 128 times the one before it. */
  function Weighed(s: seq<byte>, n: nat): nat
    requires n <= |s|
  {
    if n == 0 then 0 else Weighed(s, n - 1) + (s[n - 1] % 0x80) * Power128(n - 1)
  }

  lemma Times128(a: nat, b: nat)
    ensures a * (0x80 * b) == 0x80 * (a * b)
  {
  }

  lemma {:induction false} WeighedFront(s: seq<byte>, n: nat)
    requires 1 <= n <= |s|
    ensures Weighed(s, n) == s[0] % 0x80 + 0x80 * Weighed(s[1..], n - 1)
  {
    if n > 1 {
      WeighedFront(s, n - 1);
      assert s[1..][n - 2] == s[n - 1];
      Times128(s[n - 1] % 0x80, Power128(n - 2));
    } else {
      assert Weighed(s, 0) == 0 && Power128(0) == 1;
    }
  }

  lemma EndsSooner(s: seq<byte>, n: nat)
    requires EndsAfter(s, n) && n > 1
    ensures s[0] >= 0x80 && EndsAfter(s[1..], n - 1) && s[1..][n - 1..] == s[n..]
  {
    assert s[1..][n - 2] == s[n - 1];
  }

  lemma {:induction false} EndingSpells(s: seq<byte>, i: nat, n: nat)
    requires EndsAfter(s, n)
    ensures Spelled(s, i) == if i + n <= 10 then Ok((Weighed(s, n), s[n..])) else Err(MalformedVarint)
    decreases n
  {
    WeighedFront(s, n);
    if i < 10 && n > 1 {
      EndsSooner(s, n);
      EndingSpells(s[1..], i + 1, n - 1);
    }
  }

  lemma EndsLater(s: seq<byte>, n: nat)
    requires s != [] && s[0] >= 0x80
    ensures EndsAfter(s[1..], n) ==> EndsAfter(s, n + 1)
  {
  }

  lemma {:induction false} EndlessFails(s: seq<byte>, i: nat)
    requires i <= 10 && forall n: nat :: !EndsAfter(s, n)
    ensures Spelled(s, i) == Err(if i + |s| < 10 then TruncatedVarint else MalformedVarint)
    decreases |s|
  {
    if i < 10 && s != [] {
      assert !EndsAfter(s, 1);
      forall n: nat ensures !EndsAfter(s[1..], n) {
        EndsLater(s, n);
      }
      EndlessFails(s[1..], i + 1);
    }
  }

  lemma {:induction false} TruncatedSpelling(s: seq<byte>)
    ensures Varint(s) == match Spelled(s, 0)
                         case Ok((n, rest)) => Ok((n % TWO64, rest))
                         case Err(e) => Err(e)
  {
  }

  lemma {:induction false} VarintEnds(s: seq<byte>, n: nat)
    requires EndsAfter(s, n)
    ensures Varint(s) == if n <= 10 then Ok((Weighed(s, n) % TWO64, s[n..])) else Err(MalformedVarint)
  {
    EndingSpells(s, 0, n);
    TruncatedSpelling(s);
  }

  /** For every input: a varint takes at most ten bytes, of which it keeps the low 64 bits. */
  lemma {:induction false} VarintMeans(s: seq<byte>)
    ensures forall n: nat | EndsAfter(s, n) ::
              Varint(s) == if n <= 10 then Ok((Weighed(s, n) % TWO64, s[n..])) else Err(MalformedVarint)
    ensures (forall n: nat :: !EndsAfter(s, n)) ==>
              Varint(s) == Err(if |s| < 10 then TruncatedVarint else MalformedVarint)
  {
    forall n: nat | EndsAfter(s, n)
      ensures Varint(s) == if n <= 10 then Ok((Weighed(s, n) % TWO64, s[n..])) else Err(MalformedVarint)
    {
      VarintEnds(s, n);
    }
    if forall n: nat :: !EndsAfter(s, n) {
      EndlessFails(s, 0);
      TruncatedSpelling(s);
    }
  }

  // ---------------------------------------------------------------------------
  // Tags, length-delimited payloads, fixed-width fields
  // ---------------------------------------------------------------------------

  function Tag(s: seq<byte>): (r: Read<nat>)
    ensures r.Ok? ==> |r.value.1| < |s| && s[|s| - |r.value.1|..] == r.value.1 && r.value.0 >= 8
  {
    var (raw, rest) :- Varint(s);
    if raw == 0 || raw > 0x7fff_ffff then Err(TagOutOfRange)
    else if raw / 8 == 0 then Err(FieldNumberZero)
    else Ok((raw, rest))
  }

  /** For every input: a tag is a varint with a field number from 1 to 2^28 - 1. */
  lemma TagMeans(s: seq<byte>, num: nat, wire: nat)
    requires wire < 8
    ensures var v := Varint(s);
            match v
            case Err(e) => Tag(s) == Err(e)
            case Ok((n, rest)) =>
              && (n == 8 * num + wire && 1 <= num < 0x1000_0000 ==> Tag(s) == Ok((n, rest)))
              && (n == 8 * num + wire && num >= 0x1000_0000 ==> Tag(s) == Err(TagOutOfRange))
              && (n == wire ==> Tag(s) == Err(if wire == 0 then TagOutOfRange else FieldNumberZero))
  {
  }

  function Payload(s: seq<byte>): (r: Read<seq<byte>>)
    ensures r.Ok? ==> |r.value.1| < |s| && s[|s| - |r.value.1|..] == r.value.1
  {
    var (len, rest) :- Varint(s);
    if len > |rest| then Err(TruncatedLength) else Ok((rest[..len], rest[len..]))
  }

  function SkipBytes(s: seq<byte>, n: nat): (r: Result<seq<byte>, WireError>)
    ensures r.Ok? ==> |r.value| <= |s| && s[|s| - |r.value|..] == r.value
  {
    if n > |s| then Err(TruncatedField) else Ok(s[n..])
  }

  // ---------------------------------------------------------------------------
  // Skipping a field
  // ---------------------------------------------------------------------------

  /** Skips one field payload of the given wire type. */
  function Skip(wire: nat, field: nat, s: seq<byte>): (r: Result<seq<byte>, WireError>)
    ensures r.Ok? ==> |r.value| < |s|
    decreases |s|, 1
  {
    match wire
    case 0 => var (_, rest) :- Varint(s); Ok(rest)
    case 1 => SkipBytes(s, 8)
    case 2 => var (_, rest) :- Payload(s); Ok(rest)
    case 3 => SkipGroup(field, s)
    case 4 => Err(UnexpectedEndGroup)
    case 5 => SkipBytes(s, 4)
    case _ => Err(UnsupportedWireType)
  }

  /** Skips nested fields up to and including the matching end-group tag. */
  function SkipGroup(field: nat, s: seq<byte>): (r: Result<seq<byte>, WireError>)
    ensures r.Ok? ==> |r.value| < |s|
    decreases |s|, 0
  {
    var (tag, rest) :- Tag(s);
    if tag % 8 == 4 then
      if tag / 8 != field then Err(MismatchedEndGroup) else Ok(rest)
    else
      var after :- Skip(tag % 8, tag / 8, rest);
      SkipGroup(field, after)
  }

  // ---------------------------------------------------------------------------
  // The grammar of fields that skipping accepts
  // ---------------------------------------------------------------------------

  /** One field as it lies on the wire. Tags and lengths may be any varint, minimal or not. */
  datatype Field =
    | VarintField(tag: seq<byte>, num: nat, raw: seq<byte>)
    | Fixed64Field(tag: seq<byte>, num: nat, raw: seq<byte>)
    | LenField(tag: seq<byte>, num: nat, len: seq<byte>, payload: seq<byte>)
    | GroupField(tag: seq<byte>, num: nat, fields: seq<Field>, end: seq<byte>)
    | Fixed32Field(tag: seq<byte>, num: nat, raw: seq<byte>)

  function WireType(f: Field): nat {
    match f
    case VarintField(_, _, _) => 0
    case Fixed64Field(_, _, _) => 1
    case LenField(_, _, _, _) => 2
    case GroupField(_, _, _, _) => 3
    case Fixed32Field(_, _, _) => 5
  }

  predicate IsVarint(raw: seq<byte>, v: nat) {
    Varint(raw).Ok? && Varint(raw).value.0 == v && Varint(raw).value.1 == []
  }

  predicate IsTag(raw: seq<byte>, num: nat, wire: nat) {
    wire < 8 && Tag(raw).Ok? && Tag(raw).value.0 == 8 * num + wire && Tag(raw).value.1 == []
  }

  predicate WellFormed(f: Field) {
    IsTag(f.tag, f.num, WireType(f))
    && match f
       case VarintField(_, _, raw) => Varint(raw).Ok? && Varint(raw).value.1 == []
       case Fixed64Field(_, _, raw) => |raw| == 8
       case LenField(_, _, len, payload) => IsVarint(len, |payload|)
       case GroupField(_, num, fields, end) => AllWellFormed(fields) && IsTag(end, num, 4)
       case Fixed32Field(_, _, raw) => |raw| == 4
  }

  predicate AllWellFormed(fs: seq<Field>) {
    fs == [] || (WellFormed(fs[0]) && AllWellFormed(fs[1..]))
  }

  function Body(f: Field): seq<byte> {
    match f
    case VarintField(_, _, raw) => raw
    case Fixed64Field(_, _, raw) => raw
    case LenField(_, _, len, payload) => len + payload
    case GroupField(_, _, fields, end) => Wire(fields) + end
    case Fixed32Field(_, _, raw) => raw
  }

  /** The bytes of a sequence of fields. */
  function Wire(fs: seq<Field>): seq<byte> {
    if fs == [] then [] else fs[0].tag + Body(fs[0]) + Wire(fs[1..])
  }

  lemma Regroup(a: seq<byte>, b: seq<byte>, c: seq<byte>, d: seq<byte>, e: seq<byte>)
    ensures a + (b + (c + d + e)) == a + b + c + d + e
  {
  }

  lemma EmptyFirst(a: seq<byte>, b: seq<byte>)
    ensures [] + a + b == a + b
  {
  }

  lemma VarintLocal(raw: seq<byte>, more: seq<byte>)
    requires Varint(raw).Ok?
    ensures Varint(raw + more) == Ok((Varint(raw).value.0, Varint(raw).value.1 + more))
  {
    SpelledLocal(raw, 0, more);
  }

  lemma TagLocal(raw: seq<byte>, num: nat, wire: nat, more: seq<byte>)
    requires IsTag(raw, num, wire)
    ensures Tag(raw + more) == Ok((8 * num + wire, more)) && (8 * num + wire) / 8 == num && (8 * num + wire) % 8 == wire
  {
    VarintLocal(raw, more);
    Nothing(more);
  }

  lemma WholeVarint(raw: seq<byte>, v: nat, more: seq<byte>)
    requires IsVarint(raw, v)
    ensures Varint(raw + more).Ok? && Varint(raw + more).value.0 == v && Varint(raw + more).value.1 == more
  {
    VarintLocal(raw, more);
    Nothing(more);
  }

  lemma Nothing(a: seq<byte>)
    ensures [] + a == a
  {
  }

  lemma PayloadLocal(len: seq<byte>, payload: seq<byte>, more: seq<byte>)
    requires IsVarint(len, |payload|)
    ensures Payload(len + payload + more) == Ok((payload, more))
  {
    WholeVarint(len, |payload|, payload + more);
    Assoc(len, payload, more);
  }

  /** A well-formed field, whatever its wire type, is skipped exactly. */
  lemma {:induction false} SkipExact(f: Field, rest: seq<byte>)
    requires WellFormed(f)
    ensures Skip(WireType(f), f.num, Body(f) + rest) == Ok(rest)
    decreases f, 0
  {
    match f
    case VarintField(_, _, raw) =>
      VarintLocal(raw, rest);
      Nothing(rest);
    case LenField(_, _, len, payload) => PayloadLocal(len, payload, rest);
    case GroupField(_, num, fields, end) =>
      SkipGroupExact(num, fields, end, rest);
      assert Wire(fields) + end + rest == Body(f) + rest;
    case Fixed64Field(_, _, raw) =>
    case Fixed32Field(_, _, raw) =>
  }

  lemma SkipGroupStep(num: nat, tag: seq<byte>, inner: nat, wire: nat, s: seq<byte>)
    requires IsTag(tag, inner, wire) && wire != 4 && Skip(wire, inner, s).Ok?
    ensures SkipGroup(num, tag + s) == SkipGroup(num, Skip(wire, inner, s).value)
  {
    TagLocal(tag, inner, wire, s);
  }

  lemma SkipGroupEnd(num: nat, end: seq<byte>, rest: seq<byte>)
    requires IsTag(end, num, 4)
    ensures SkipGroup(num, end + rest) == Ok(rest)
  {
    TagLocal(end, num, 4, rest);
  }

  lemma {:induction false} SkipGroupExact(num: nat, fs: seq<Field>, end: seq<byte>, rest: seq<byte>)
    requires AllWellFormed(fs) && IsTag(end, num, 4)
    ensures SkipGroup(num, Wire(fs) + end + rest) == Ok(rest)
    decreases fs, 1
  {
    if fs == [] {
      SkipGroupEnd(num, end, rest);
      EmptyFirst(end, rest);
    } else {
      var f := fs[0];
      var after := Wire(fs[1..]) + end + rest;
      SkipExact(f, after);
      SkipGroupStep(num, f.tag, f.num, WireType(f), Body(f) + after);
      SkipGroupExact(num, fs[1..], end, rest);
      Regroup(f.tag, Body(f), Wire(fs[1..]), end, rest);
    }
  }

  lemma TagShape(s: seq<byte>)
    requires Tag(s).Ok?
    ensures var (tag, rest) := Tag(s).value;
            var raw := s[..|s| - |rest|];
            IsTag(raw, tag / 8, tag % 8) && s == raw + rest
  {
    var rest := Tag(s).value.1;
    SpelledPrefix(s, 0);
    assert s == s[..|s| - |rest|] + s[|s| - |rest|..];
  }

  lemma PayloadShape(s: seq<byte>) returns (len: seq<byte>)
    requires Payload(s).Ok?
    ensures IsVarint(len, |Payload(s).value.0|) && s == len + Payload(s).value.0 + Payload(s).value.1
  {
    var (n, rest) := Varint(s).value;
    SpelledPrefix(s, 0);
    len := s[..|s| - |rest|];
    assert s == len + rest && rest == rest[..n] + rest[n..];
  }

  /** Conversely, whatever is skipped was a well-formed field of that number and wire type. */
  lemma {:induction false} SkipSound(tag: seq<byte>, wire: nat, num: nat, s: seq<byte>) returns (f: Field)
    requires IsTag(tag, num, wire) && Skip(wire, num, s).Ok?
    ensures WellFormed(f) && WireType(f) == wire && f.num == num && f.tag == tag
    ensures s == Body(f) + Skip(wire, num, s).value
    decreases |s|, 1
  {
    var rest := Skip(wire, num, s).value;
    var raw := s[..|s| - |rest|];
    match wire
    case 0 =>
      SpelledPrefix(s, 0);
      f := VarintField(tag, num, raw);
    case 1 => f := Fixed64Field(tag, num, raw);
    case 2 =>
      var len := PayloadShape(s);
      f := LenField(tag, num, len, Payload(s).value.0);
    case 3 =>
      var fields, end := SkipGroupSound(num, s);
      f := GroupField(tag, num, fields, end);
    case 5 => f := Fixed32Field(tag, num, raw);
  }

  lemma {:induction false} SkipGroupSound(num: nat, s: seq<byte>) returns (fields: seq<Field>, end: seq<byte>)
    requires SkipGroup(num, s).Ok?
    ensures AllWellFormed(fields) && IsTag(end, num, 4)
    ensures s == Wire(fields) + end + SkipGroup(num, s).value
    decreases |s|, 0
  {
    var (tag, rest) := Tag(s).value;
    TagShape(s);
    var raw := s[..|s| - |rest|];
    if tag % 8 == 4 {
      fields, end := [], raw;
      EmptyFirst(raw, rest);
    } else {
      var after := Skip(tag % 8, tag / 8, rest).value;
      var f := SkipSound(raw, tag % 8, tag / 8, rest);
      assert SkipGroup(num, s) == SkipGroup(num, after);
      var fs, e := SkipGroupSound(num, after);
      fields, end := [f] + fs, e;
      WireCons(f, fs);
      var final := SkipGroup(num, s).value;
      Regroup(raw, Body(f), Wire(fs), end, final);
    }
  }

  lemma WireCons(f: Field, fs: seq<Field>)
    ensures Wire([f] + fs) == f.tag + Body(f) + Wire(fs)
    ensures AllWellFormed([f] + fs) <==> WellFormed(f) && AllWellFormed(fs)
  {
    assert ([f] + fs)[1..] == fs;
  }

  // ---------------------------------------------------------------------------
  // The reader: a cursor into a slice
  // ---------------------------------------------------------------------------

  ghost predicate Agrees<T(!new)>(r: Result<T, WireError>, spec: Read<T>, remaining: seq<byte>) {
    match spec
    case Ok((v, rest)) => r == Ok(v) && remaining == rest
    case Err(e) => r == Err(e)
  }

  lemma {:induction false} TruncateAdd(a: nat, b: nat)
    ensures Truncate(Truncate(a) + b) == Truncate(a + b)
  {
    if a >= TWO64 {
      assert a % TWO64 == (a - TWO64) % TWO64 && (a + b) % TWO64 == (a - TWO64 + b) % TWO64;
      TruncateAdd(a - TWO64, b);
    }
  }

  /** `v << bits`, before truncation. */
  function ShiftLeft(v: nat, bits: nat): nat
    decreases bits
  {
    if bits == 0 then v else ShiftLeft(2 * v, bits - 1)
  }

  lemma {:induction false} ShiftSum(a: nat, b: nat, bits: nat)
    ensures ShiftLeft(a + b, bits) == ShiftLeft(a, bits) + ShiftLeft(b, bits)
    decreases bits
  {
    if bits > 0 {
      ShiftSum(2 * a, 2 * b, bits - 1);
    }
  }

  lemma SevenMoreBits(v: nat, bits: nat)
    ensures ShiftLeft(v, bits + 7) == ShiftLeft(0x80 * v, bits)
  {
    assert ShiftLeft(v, bits + 7) == ShiftLeft(2 * v, bits + 6) == ShiftLeft(4 * v, bits + 5);
    assert ShiftLeft(4 * v, bits + 5) == ShiftLeft(8 * v, bits + 4) == ShiftLeft(16 * v, bits + 3);
    assert ShiftLeft(16 * v, bits + 3) == ShiftLeft(32 * v, bits + 2) == ShiftLeft(64 * v, bits + 1);
  }

  /** Reading with an accumulator, lowest group first. */
  function Accumulate(s: seq<byte>, i: nat, sum: nat): Read<u64> {
    if i >= 10 then Err(MalformedVarint)
    else if s == [] then Err(TruncatedVarint)
    else
      var next := sum + ShiftLeft(s[0] % 0x80, 7 * i);
      if s[0] < 0x80 then Ok((Truncate(next), s[1..])) else Accumulate(s[1..], i + 1, next)
  }

  lemma {:induction false} AccumulateSpells(s: seq<byte>, i: nat, sum: nat)
    ensures Accumulate(s, i, sum) == match Spelled(s, i)
                                     case Ok((v, rest)) => Ok((Truncate(sum + ShiftLeft(v, 7 * i)), rest))
                                     case Err(e) => Err(e)
  {
    if i < 10 && s != [] && s[0] >= 0x80 {
      var lo, bits := s[0] - 0x80, 7 * i;
      assert s[0] % 0x80 == lo && 7 * (i + 1) == bits + 7;
      AccumulateSpells(s[1..], i + 1, sum + ShiftLeft(lo, bits));
      if Spelled(s[1..], i + 1).Ok? {
        var high := Spelled(s[1..], i + 1).value.0;
        ShiftSum(lo, 0x80 * high, bits);
        SevenMoreBits(high, bits);
      }
    }
  }

  class ProtoReader {
    const bytes: seq<byte>
    const end: nat
    var pos: nat

    ghost predicate Valid()
      reads this
    {
      pos <= end <= |bytes|
    }

    ghost function Remaining(): seq<byte>
      requires Valid()
      reads this
    {
      bytes[pos..end]
    }

    constructor (bytes: seq<byte>)
      ensures Valid() && Remaining() == bytes
    {
      this.bytes, this.end, this.pos := bytes, |bytes|, 0;
    }

    constructor Slice(bytes: seq<byte>, start: nat, end: nat)
      requires start <= end <= |bytes|
      ensures Valid() && Remaining() == bytes[start..end]
    {
      this.bytes, this.end, this.pos := bytes, end, start;
    }

    method ReadVarint() returns (r: Result<u64, WireError>)
      requires Valid()
      modifies this
      ensures Valid() && Agrees(r, Varint(old(Remaining())), Remaining())
    {
      var shift: nat, result: nat := 0, 0;
      ghost var i: nat, sum: nat := 0, 0;
      ghost var rest := Remaining();
      AccumulateSpells(rest, 0, 0);
      ghost var expected := Accumulate(rest, 0, 0);
      while true
        invariant Valid() && rest == bytes[pos..end] && shift == 7 * i && i <= 10
        invariant result == Truncate(sum) && Accumulate(rest, i, sum) == expected
        decreases |rest|
      {
        if shift >= 64 {
          return Err(MalformedVarint);
        }
        if pos >= end {
          return Err(TruncatedVarint);
        }
        var b := bytes[pos];
        pos, rest := pos + 1, rest[1..];
        var group := ShiftLeft(b % 0x80, shift);
        TruncateAdd(sum, group);
        result, sum := Truncate(result + group), sum + group;
        if b < 0x80 {
          return Ok(result);
        }
        i, shift := i + 1, shift + 7;
      }
    }

    method ReadTag() returns (r: Result<nat, WireError>)
      requires Valid()
      modifies this
      ensures Valid() && Agrees(r, Tag(old(Remaining())), Remaining())
    {
      var raw :- ReadVarint();
      if raw == 0 || raw > 0x7fff_ffff {
        return Err(TagOutOfRange);
      }
      if raw / 8 == 0 {
        return Err(FieldNumberZero);
      }
      return Ok(raw);
    }

    /** Offset and length of a length-delimited payload, with the cursor moved past it. */
    method ReadSlice() returns (r: Result<(nat, nat), WireError>)
      requires Valid()
      modifies this
      ensures Valid()
      ensures match Payload(old(Remaining()))
              case Ok((payload, rest)) =>
                && r.Ok? && r.value.0 + r.value.1 <= |bytes|
                && bytes[r.value.0..r.value.0 + r.value.1] == payload && Remaining() == rest
              case Err(e) => r == Err(e)
    {
      var len :- ReadVarint();
      if len > end - pos {
        return Err(TruncatedLength);
      }
      var off := pos;
      ghost var rest := Remaining();
      pos := pos + len;
      assert bytes[off..off + len] == rest[..len] && Remaining() == rest[len..];
      return Ok((off, len));
    }

    method ReadBlob() returns (r: Result<seq<byte>, WireError>)
      requires Valid()
      modifies this
      ensures Valid() && Agrees(r, Payload(old(Remaining())), Remaining())
    {
      var slice :- ReadSlice();
      return Ok(bytes[slice.0..slice.0 + slice.1]);
    }

    /** A sub-reader over one embedded message. */
    method ReadMessage() returns (r: Result<ProtoReader, WireError>)
      requires Valid()
      modifies this
      ensures Valid()
      ensures match Payload(old(Remaining()))
              case Ok((payload, rest)) =>
                && r.Ok? && fresh(r.value) && r.value.Valid() && r.value.Remaining() == payload && Remaining() == rest
              case Err(e) => r == Err(e)
    {
      var slice :- ReadSlice();
      var reader := new ProtoReader.Slice(bytes, slice.0, slice.0 + slice.1);
      return Ok(reader);
    }

    method DropBytes(n: nat) returns (r: Result<(), WireError>)
      requires Valid()
      modifies this
      ensures Valid()
      ensures match SkipBytes(old(Remaining()), n)
              case Ok(rest) => r == Ok(()) && Remaining() == rest
              case Err(e) => r == Err(e)
    {
      if n > end - pos {
        return Err(TruncatedField);
      }
      assert Remaining()[n..] == bytes[pos + n..end];
      pos := pos + n;
      return Ok(());
    }

    method SkipField(wire: nat, field: nat) returns (r: Result<(), WireError>)
      requires Valid()
      modifies this
      ensures Valid()
      ensures match Skip(wire, field, old(Remaining()))
              case Ok(rest) => r == Ok(()) && Remaining() == rest && |rest| < |old(Remaining())|
              case Err(e) => r == Err(e)
      decreases end - pos
    {
      match wire {
        case 0 =>
          var _ :- ReadVarint();
          return Ok(());
        case 1 =>
          r := DropBytes(8);
        case 2 =>
          var _ :- ReadSlice();
          return Ok(());
        case 3 =>
          ghost var all := Remaining();
          while true
            invariant Valid() && |Remaining()| <= |all|
            invariant SkipGroup(field, all) == SkipGroup(field, Remaining())
            decreases end - pos
          {
            var tag :- ReadTag();
            if tag % 8 == 4 {
              if tag / 8 != field {
                return Err(MismatchedEndGroup);
              }
              return Ok(());
            }
            var _ :- SkipField(tag % 8, tag / 8);
          }
        case 4 =>
          return Err(UnexpectedEndGroup);
        case 5 =>
          r := DropBytes(4);
        case _ =>
          return Err(UnsupportedWireType);
      }
    }
  }
}
