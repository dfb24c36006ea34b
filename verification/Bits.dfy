/** Bits of unbounded naturals, and the bitwise operators on them. */
module Bits {
  function Pow2(n: nat): (p: nat)
    ensures p > n
  {
    if n == 0 then 1 else 2 * Pow2(n - 1)
  }

  predicate Bit(w: nat, k: nat) {
    if k == 0 then w % 2 == 1 else Bit(w / 2, k - 1)
  }

  function And(a: nat, b: nat): nat {
    if a == 0 || b == 0 then 0 else (if a % 2 == 1 && b % 2 == 1 then 1 else 0) + 2 * And(a / 2, b / 2)
  }

  function Or(a: nat, b: nat): nat {
    if a == 0 then b else if b == 0 then a else (if a % 2 == 1 || b % 2 == 1 then 1 else 0) + 2 * Or(a / 2, b / 2)
  }

  /** The number of bits that are set. */
  function Ones(w: nat): nat {
    if w == 0 then 0 else w % 2 + Ones(w / 2)
  }

  function TrailingZeros(w: nat): nat
    requires w > 0
  {
    if w % 2 == 1 then 0 else 1 + TrailingZeros(w / 2)
  }

  lemma {:induction false} NoBits(k: nat)
    ensures !Bit(0, k)
  {
    if k > 0 {
      NoBits(k - 1);
    }
  }

  lemma {:induction false} AndBit(a: nat, b: nat, k: nat)
    ensures Bit(And(a, b), k) <==> Bit(a, k) && Bit(b, k)
    decreases k
  {
    if a == 0 || b == 0 {
      NoBits(k);
    } else if k > 0 {
      AndBit(a / 2, b / 2, k - 1);
    }
  }

  lemma {:induction false} OrBit(a: nat, b: nat, k: nat)
    ensures Bit(Or(a, b), k) <==> Bit(a, k) || Bit(b, k)
    decreases k
  {
    if a == 0 || b == 0 {
      NoBits(k);
    } else if k > 0 {
      OrBit(a / 2, b / 2, k - 1);
    }
  }

  lemma {:induction false} PowerBit(n: nat, k: nat)
    ensures Bit(Pow2(n), k) <==> n == k
    decreases k
  {
    if k > 0 {
      if n == 0 {
        NoBits(k - 1);
      } else {
        PowerBit(n - 1, k - 1);
      }
    }
  }

  /** All bits below `n`. */
  lemma {:induction false} MaskBit(n: nat, k: nat)
    ensures Bit(Pow2(n) - 1, k) <==> k < n
    decreases n
  {
    if n == 0 {
      NoBits(k);
    } else if k > 0 {
      MaskBit(n - 1, k - 1);
      assert (Pow2(n) - 1) / 2 == Pow2(n - 1) - 1;
    }
  }

  lemma {:induction false} AnyBit(w: nat) returns (k: nat)
    requires w > 0
    ensures Bit(w, k)
  {
    if w % 2 == 1 {
      k := 0;
    } else {
      var j := AnyBit(w / 2);
      k := j + 1;
    }
  }

  lemma {:induction false} BitBound(w: nat, n: nat, k: nat)
    requires w < Pow2(n) && Bit(w, k)
    ensures k < n
    decreases n
  {
    if n == 0 {
      NoBits(k);
    } else if k > 0 {
      BitBound(w / 2, n - 1, k - 1);
    }
  }

  lemma {:induction false} OrBound(a: nat, b: nat, n: nat)
    requires a < Pow2(n) && b < Pow2(n)
    ensures Or(a, b) < Pow2(n)
    decreases n
  {
    if a != 0 && b != 0 && n > 0 {
      OrBound(a / 2, b / 2, n - 1);
    }
  }

  lemma {:induction false} AndBound(a: nat, b: nat)
    ensures And(a, b) <= a
  {
    if a != 0 && b != 0 {
      AndBound(a / 2, b / 2);
    }
  }

  lemma {:induction false} AndSelf(w: nat)
    ensures And(w, w) == w
  {
    if w != 0 {
      AndSelf(w / 2);
    }
  }

  lemma {:induction false} PowerBound(n: nat, m: nat)
    requires n < m
    ensures Pow2(n) < Pow2(m)
    decreases m
  {
    if n < m - 1 {
      PowerBound(n, m - 1);
    }
  }

  lemma PowerMonotone(n: nat, m: nat)
    requires n <= m
    ensures Pow2(n) <= Pow2(m)
  {
    if n < m {
      PowerBound(n, m);
    }
  }

  /** What an `and` with the predecessor is, one bit at a time. */
  lemma {:induction false} AndPredecessor(w: nat)
    requires w > 0
    ensures And(w, w - 1) == if w % 2 == 1 then w - 1 else 2 * And(w / 2, w / 2 - 1)
  {
    var v := w / 2;
    if w % 2 == 1 {
      AndDigits(v, 1, v, 0);
      AndSelf(v);
    } else {
      AndDigits(v, 0, v - 1, 1);
    }
  }

  lemma {:induction false} AndDigits(v: nat, a: nat, u: nat, b: nat)
    requires a < 2 && b < 2
    ensures And(2 * v + a, 2 * u + b) == a * b + 2 * And(v, u)
  {
    var x, y := 2 * v + a, 2 * u + b;
    assert x / 2 == v && x % 2 == a && y / 2 == u && y % 2 == b;
    assert a * b == if a == 1 && b == 1 then 1 else 0;
  }

  /** It has one set bit less, */
  lemma {:induction false} ClearLowestCounts(w: nat)
    requires w > 0
    ensures And(w, w - 1) < w && Ones(w) == Ones(And(w, w - 1)) + 1
  {
    AndPredecessor(w);
    if w % 2 == 1 {
      assert (w - 1) / 2 == w / 2;
    } else {
      ClearLowestCounts(w / 2);
      OnesOfDouble(And(w / 2, w / 2 - 1));
    }
  }

  lemma {:induction false} OnesOfDouble(v: nat)
    ensures Ones(2 * v) == Ones(v)
  {
  }

  /** the lowest set bit is gone, and every other bit is as before, */
  lemma {:induction false} ClearLowestBit(w: nat, k: nat)
    requires w > 0
    ensures Bit(And(w, w - 1), k) <==> Bit(w, k) && k != TrailingZeros(w)
    decreases w
  {
    AndPredecessor(w);
    if w % 2 == 0 && k > 0 {
      ClearLowestBit(w / 2, k - 1);
    }
  }

  lemma {:induction false} LowestBit(w: nat)
    requires w > 0
    ensures Bit(w, TrailingZeros(w))
  {
    if w % 2 == 0 {
      LowestBit(w / 2);
    }
  }

  /** so the lowest set bit moves up. */
  lemma {:induction false} ClearLowestMovesUp(w: nat)
    requires w > 0 && And(w, w - 1) > 0
    ensures TrailingZeros(w) < TrailingZeros(And(w, w - 1))
  {
    AndPredecessor(w);
    if w % 2 == 0 {
      ClearLowestMovesUp(w / 2);
      ZerosOfDouble(And(w / 2, w / 2 - 1));
    }
  }

  lemma {:induction false} ZerosOfDouble(v: nat)
    requires v > 0
    ensures TrailingZeros(2 * v) == 1 + TrailingZeros(v)
  {
  }

  /** Clearing the lowest set bit, as an `and` with the predecessor. */
  lemma {:induction false} ClearLowest(w: nat)
    requires w > 0
    ensures And(w, w - 1) < w && Ones(w) == Ones(And(w, w - 1)) + 1
    ensures Bit(w, TrailingZeros(w))
    ensures And(w, w - 1) > 0 ==> TrailingZeros(w) < TrailingZeros(And(w, w - 1))
  {
    ClearLowestCounts(w);
    LowestBit(w);
    if And(w, w - 1) > 0 {
      ClearLowestMovesUp(w);
    }
  }
}
