/** Exact target sets: a dense bitset over ordinals, in words of 64 bits. */
module Bitsets {
  import opened Words
  import opened Lookup
  import opened Bits

  datatype TargetBitset = TargetBitset(words: seq<u64>, size: u32)

  // ---------------------------------------------------------------------------
  // What a word array means
  // ---------------------------------------------------------------------------

  /** Ordinal `o` lives in word `o / 64`, at bit `o % 64`. */
  predicate Holds(words: seq<u64>, o: nat) {
    o < 64 * |words| && Bit(words[o / 64], o % 64)
  }

  function Members(words: seq<u64>): set<nat> {
    set o | 0 <= o < 64 * |words| && Holds(words, o)
  }

  function WordCount(size: u32): nat {
    (size + 63) / 64
  }

  /** Room for every ordinal, and no bit beyond them. */
  ghost predicate Normal(b: TargetBitset) {
    WordCount(b.size) <= |b.words| && forall o: nat | Holds(b.words, o) :: o < b.size
  }

  lemma {:induction false} PowerSum(a: nat, b: nat)
    ensures Pow2(a + b) == Pow2(a) * Pow2(b)
    decreases a
  {
    if a > 0 {
      PowerSum(a - 1, b);
      assert Pow2(a + b) == 2 * Pow2((a - 1) + b);
      Double(Pow2(a - 1), Pow2(b));
    }
  }

  lemma Double(x: nat, y: nat)
    ensures 2 * (x * y) == (2 * x) * y
  {
  }

  lemma WordSize()
    ensures Pow2(64) == 0x1_0000_0000_0000_0000
  {
    assert Pow2(4) == 16;
    PowerSum(4, 4);
    PowerSum(8, 8);
    PowerSum(16, 16);
    PowerSum(32, 32);
    assert 0x1_0000_0000 * 0x1_0000_0000 == 0x1_0000_0000_0000_0000;
  }

  lemma TestBit(w: nat, k: nat)
    ensures And(w, Pow2(k)) != 0 <==> Bit(w, k)
  {
    AndBit(w, Pow2(k), k);
    PowerBit(k, k);
    NoBits(k);
    if And(w, Pow2(k)) != 0 {
      var j := AnyBit(And(w, Pow2(k)));
      AndBit(w, Pow2(k), j);
      PowerBit(k, j);
    }
  }

  lemma SharedBit(a: nat, b: nat)
    ensures And(a, b) != 0 <==> exists k: nat :: Bit(a, k) && Bit(b, k)
  {
    if And(a, b) != 0 {
      var k := AnyBit(And(a, b));
      AndBit(a, b, k);
    }
    if k: nat :| Bit(a, k) && Bit(b, k) {
      AndBit(a, b, k);
      NoBits(k);
    }
  }

  // ---------------------------------------------------------------------------
  // Constructors
  // ---------------------------------------------------------------------------

  function Zeros(n: nat): (words: seq<u64>)
    ensures |words| == n && forall i | 0 <= i < n :: words[i] == 0
  {
    seq(n, i => 0)
  }

  lemma ZerosHoldNothing(n: nat)
    ensures forall o: nat :: !Holds(Zeros(n), o)
  {
    forall o: nat ensures !Holds(Zeros(n), o) {
      NoBits(o % 64);
    }
  }

  method Empty(size: u32) returns (b: TargetBitset)
    ensures Normal(b) && b.size == size && Members(b.words) == {}
  {
    ZerosHoldNothing(WordCount(size));
    b := TargetBitset(Zeros(WordCount(size)), size);
  }

  lemma OrIsWord(w: u64, k: nat)
    requires k < 64
    ensures Or(w, Pow2(k)) < 0x1_0000_0000_0000_0000
  {
    WordSize();
    PowerBound(k, 64);
    OrBound(w, Pow2(k), 64);
  }

  method SetBit(words: seq<u64>, o: u32) returns (out: seq<u64>)
    requires o < 64 * |words|
    ensures |out| == |words|
    ensures forall p: nat :: Holds(out, p) <==> Holds(words, p) || p == o
  {
    OrIsWord(words[o / 64], o % 64);
    out := words[o / 64 := Or(words[o / 64], Pow2(o % 64))];
    forall p: nat ensures Holds(out, p) <==> Holds(words, p) || p == o {
      OrBit(words[o / 64], Pow2(o % 64), p % 64);
      PowerBit(o % 64, p % 64);
    }
  }

  /** The given ordinals. The original aborts on one that is out of range. */
  method Of(size: u32, ords: seq<u32>) returns (b: TargetBitset)
    requires forall i | 0 <= i < |ords| :: ords[i] < size
    ensures b.size == size && Normal(b)
    ensures forall o: nat :: Holds(b.words, o) <==> o in ords
  {
    var n := if WordCount(size) < 1 then 1 else WordCount(size);
    var words := Zeros(n);
    ZerosHoldNothing(n);
    for i := 0 to |ords|
      invariant |words| == n
      invariant forall o: nat :: Holds(words, o) <==> o in ords[..i]
    {
      words := SetBit(words, ords[i]);
    }
    b := TargetBitset(words, size);
  }

  /** Every ordinal below the size. */
  method All(size: u32) returns (b: TargetBitset)
    ensures b.size == size && Normal(b)
    ensures forall o: nat :: Holds(b.words, o) <==> o < size
  {
    var ords: seq<u32> := seq(size, i requires 0 <= i < size => i);
    forall o: nat ensures o in ords <==> o < size {
      if o < size {
        assert ords[o] == o;
      }
    }
    b := Of(size, ords);
  }

  lemma MaskedWord(w: u64, used: nat, k: nat)
    ensures And(w, Pow2(used) - 1) < 0x1_0000_0000_0000_0000
    ensures Bit(And(w, Pow2(used) - 1), k) <==> Bit(w, k) && k < used
  {
    AndBound(w, Pow2(used) - 1);
    AndBit(w, Pow2(used) - 1, k);
    MaskBit(used, k);
  }

  function Resized(words: seq<u64>, n: nat): (r: seq<u64>)
    ensures |r| == n
  {
    if n <= |words| then words[..n] else words + Zeros(n - |words|)
  }

  lemma ResizedHolds(words: seq<u64>, n: nat, o: nat)
    ensures Holds(Resized(words, n), o) <==> o < 64 * n && Holds(words, o)
  {
    NoBits(o % 64);
    var r := Resized(words, n);
    if o < 64 * n {
      var i := o / 64;
      assert r[i] == if i < |words| then words[i] else 0;
    }
  }

  lemma BitsBelow64(w: u64, k: nat)
    ensures Bit(w, k) ==> k < 64
  {
    WordSize();
    if Bit(w, k) {
      BitBound(w, 64, k);
    }
  }

  /** Any word array, cut to the ordinals below the size. */
  method FromWords(size: u32, raw: seq<u64>) returns (b: TargetBitset)
    ensures b.size == size && Normal(b)
    ensures forall o: nat :: Holds(b.words, o) <==> o < size && Holds(raw, o)
  {
    var n := WordCount(size);
    var words := Resized(raw, n);
    ghost var resized := words;
    forall o: nat ensures Holds(resized, o) <==> o < 64 * n && Holds(raw, o) {
      ResizedHolds(raw, n, o);
    }
    if n > 0 {
      var used := size - (n - 1) * 64;
      if used < 64 {
        MaskedWord(words[n - 1], used, 0);
        words := words[n - 1 := And(words[n - 1], Pow2(used) - 1)];
        LastWordCut(resized, words, n, used);
      }
    }
    b := TargetBitset(words, size);
  }

  lemma LastWordCut(before: seq<u64>, after: seq<u64>, n: nat, used: nat)
    requires 0 < n == |before| && used < 64 && And(before[n - 1], Pow2(used) - 1) < 0x1_0000_0000_0000_0000
    requires after == before[n - 1 := And(before[n - 1], Pow2(used) - 1)]
    ensures forall o: nat :: Holds(after, o) <==> Holds(before, o) && o < (n - 1) * 64 + used
  {
    forall o: nat ensures Holds(after, o) <==> Holds(before, o) && o < (n - 1) * 64 + used {
      MaskedWord(before[n - 1], used, o % 64);
    }
  }

  // ---------------------------------------------------------------------------
  // Queries
  // ---------------------------------------------------------------------------

  method Contains(b: TargetBitset, o: u32) returns (r: bool)
    requires Normal(b)
    ensures r <==> o in Members(b.words)
  {
    if o < b.size {
      TestBit(b.words[o / 64], o % 64);
      r := And(b.words[o / 64], Pow2(o % 64)) != 0;
    } else {
      r := false;
    }
  }

  method IntersectsWords(words: seq<u64>, others: seq<u64>) returns (r: bool)
    ensures r <==> Members(words) * Members(others) != {}
  {
    var n := if |words| < |others| then |words| else |others|;
    for i := 0 to n
      invariant forall o: nat | o < 64 * i :: !(Holds(words, o) && Holds(others, o))
    {
      SharedBit(words[i], others[i]);
      if And(words[i], others[i]) != 0 {
        ghost var k: nat :| Bit(words[i], k) && Bit(others[i], k);
        BitsBelow64(words[i], k);
        ghost var o := 64 * i + k;
        assert Holds(words, o) && Holds(others, o);
        assert o in Members(words) * Members(others);
        return true;
      }
      forall o: nat | o < 64 * (i + 1) ensures !(Holds(words, o) && Holds(others, o)) {
        if 64 * i <= o {
          assert o / 64 == i;
          assert !(Bit(words[i], o % 64) && Bit(others[i], o % 64));
        }
      }
    }
    return false;
  }

  /** The set bits of one word, lowest first, by clearing the lowest one again and again. */
  function BitsOf(w: nat, base: nat): (out: seq<nat>)
    ensures |out| == Ones(w)
    decreases w
  {
    if w == 0 then []
    else
      ClearLowest(w);
      [base + TrailingZeros(w)] + BitsOf(And(w, w - 1), base)
  }

  lemma {:induction false} BitsOfAscend(w: nat, base: nat)
    ensures Ascending(BitsOf(w, base))
    ensures w > 0 ==> forall i | 0 <= i < |BitsOf(w, base)| :: BitsOf(w, base)[i] >= base + TrailingZeros(w)
    decreases w
  {
    if w != 0 {
      ClearLowest(w);
      BitsOfAscend(And(w, w - 1), base);
      var first, rest := base + TrailingZeros(w), BitsOf(And(w, w - 1), base);
      assert forall i | 0 <= i < |rest| :: rest[i] > first;
      AscendingCons(first, rest);
    }
  }

  lemma AscendingCons(first: nat, rest: seq<nat>)
    requires Ascending(rest) && forall i | 0 <= i < |rest| :: rest[i] > first
    ensures Ascending([first] + rest)
  {
  }

  lemma MemberOfCons(first: nat, rest: seq<nat>, o: nat)
    ensures o in [first] + rest <==> o == first || o in rest
  {
  }

  lemma {:induction false} BitsOfMember(w: nat, base: nat, o: nat)
    ensures o in BitsOf(w, base) <==> o >= base && Bit(w, o - base)
    decreases w
  {
    if w == 0 {
      if o >= base {
        NoBits(o - base);
      }
    } else {
      ClearLowest(w);
      var v, first := And(w, w - 1), TrailingZeros(w);
      MemberOfCons(base + first, BitsOf(v, base), o);
      BitsOfMember(v, base, o);
      if o >= base {
        ClearLowestBit(w, o - base);
      }
    }
  }

  lemma BitsOfMeans(w: nat, base: nat)
    ensures Ascending(BitsOf(w, base))
    ensures forall o: nat :: o in BitsOf(w, base) <==> o >= base && Bit(w, o - base)
  {
    BitsOfAscend(w, base);
    forall o: nat ensures o in BitsOf(w, base) <==> o >= base && Bit(w, o - base) {
      BitsOfMember(w, base, o);
    }
  }

  function OrdinalsOf(words: seq<u64>): seq<nat>
    decreases |words|
  {
    if words == [] then []
    else OrdinalsOf(words[..|words| - 1]) + BitsOf(words[|words| - 1], 64 * (|words| - 1))
  }

  function CountOnes(words: seq<u64>): nat
    decreases |words|
  {
    if words == [] then 0 else CountOnes(words[..|words| - 1]) + Ones(words[|words| - 1])
  }

  lemma WordOrdinals(w: u64, base: nat)
    ensures forall o | o in BitsOf(w, base) :: base <= o < base + 64
  {
    BitsOfMeans(w, base);
    forall o | o in BitsOf(w, base) ensures base <= o < base + 64 {
      BitsBelow64(w, o - base);
    }
  }

  lemma AscendingAppend(a: seq<nat>, b: seq<nat>, limit: nat)
    requires Ascending(a) && Ascending(b)
    requires (forall o | o in a :: o < limit) && (forall o | o in b :: limit <= o)
    ensures Ascending(a + b)
  {
    var c := a + b;
    forall i, j | 0 <= i < j < |c| ensures c[i] < c[j] {
      if i < |a| <= j {
        assert c[i] in a && c[j] in b;
      }
    }
  }

  lemma HoldsNext(words: seq<u64>, o: nat)
    requires words != []
    ensures var n := |words| - 1;
            Holds(words, o) <==> Holds(words[..n], o) || (64 * n <= o < 64 * (n + 1) && Bit(words[n], o - 64 * n))
  {
  }

  /** Iteration yields exactly the members, in ascending order, as many as there are set bits. */
  lemma {:induction false} OrdinalsMean(words: seq<u64>)
    ensures Ascending(OrdinalsOf(words)) && |OrdinalsOf(words)| == CountOnes(words)
    ensures forall o: nat :: o in OrdinalsOf(words) <==> Holds(words, o)
    decreases |words|
  {
    if words != [] {
      var n := |words| - 1;
      var front, last := OrdinalsOf(words[..n]), BitsOf(words[n], 64 * n);
      OrdinalsMean(words[..n]);
      BitsOfMeans(words[n], 64 * n);
      WordOrdinals(words[n], 64 * n);
      AscendingAppend(front, last, 64 * n);
      forall o: nat ensures o in front + last <==> Holds(words, o) {
        HoldsNext(words, o);
      }
    }
  }

  function SetOf(s: seq<nat>): set<nat> {
    set o | o in s
  }

  lemma SetOfNext(front: seq<nat>, last: nat)
    requires forall i | 0 <= i < |front| :: front[i] < last
    ensures |SetOf(front + [last])| == |SetOf(front)| + 1
  {
    assert SetOf(front + [last]) == SetOf(front) + {last};
  }

  lemma {:induction false} AscendingSize(s: seq<nat>)
    requires Ascending(s)
    ensures |SetOf(s)| == |s|
    decreases |s|
  {
    if s != [] {
      var front, last := s[..|s| - 1], s[|s| - 1];
      AscendingSize(front);
      assert s == front + [last];
      SetOfNext(front, last);
    }
  }

  /** The number of set bits is the number of members. */
  lemma CardinalityIsSize(words: seq<u64>)
    ensures CountOnes(words) == |Members(words)|
  {
    OrdinalsMean(words);
    AscendingSize(OrdinalsOf(words));
    assert Members(words) == SetOf(OrdinalsOf(words));
  }

  method Cardinality(b: TargetBitset) returns (n: nat)
    ensures n == |Members(b.words)|
  {
    n := 0;
    for i := 0 to |b.words|
      invariant n == CountOnes(b.words[..i])
    {
      assert b.words[..i + 1][..i] == b.words[..i];
      n := n + Ones(b.words[i]);
    }
    assert b.words[..|b.words|] == b.words;
    CardinalityIsSize(b.words);
  }

  method Iterate(b: TargetBitset) returns (out: seq<nat>)
    ensures Ascending(out) && |out| == |Members(b.words)|
    ensures forall o: nat :: o in out <==> o in Members(b.words)
  {
    out := [];
    for i := 0 to |b.words|
      invariant out == OrdinalsOf(b.words[..i])
    {
      assert b.words[..i + 1][..i] == b.words[..i];
      var bits := WordBits(b.words[i], 64 * i);
      out := out + bits;
    }
    assert b.words[..|b.words|] == b.words;
    OrdinalsMean(b.words);
    CardinalityIsSize(b.words);
  }

  method WordBits(word: u64, base: nat) returns (out: seq<nat>)
    ensures out == BitsOf(word, base)
  {
    out := [];
    var w: nat := word;
    while w != 0
      invariant BitsOf(word, base) == out + BitsOf(w, base)
      decreases w
    {
      ClearLowest(w);
      BitsOfNext(w, base, out);
      out := out + [base + TrailingZeros(w)];
      w := And(w, w - 1);
    }
  }

  lemma BitsOfNext(w: nat, base: nat, out: seq<nat>)
    requires w > 0
    ensures out + BitsOf(w, base) == (out + [base + TrailingZeros(w)]) + BitsOf(And(w, w - 1), base)
  {
  }
}
