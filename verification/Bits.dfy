/**
 The bit operations of the frame-information codec on unbounded naturals,
 each defined on the low bit and characterised bit by bit.
 */
module Bits {

  predicate Bit(x: nat, i: nat)
    decreases i
  {
    if i == 0 then x % 2 == 1 else Bit(x / 2, i - 1)
  }

  function Digit(b: bool): nat { if b then 1 else 0 }

  function Shr(x: nat, k: nat): nat
    decreases k
  {
    if k == 0 then x else Shr(x / 2, k - 1)
  }

  function Shl(x: nat, k: nat): nat
    decreases k
  {
    if k == 0 then x else 2 * Shl(x, k - 1)
  }

  function Or(x: nat, y: nat): nat
    decreases x + y
  {
    if x + y == 0 then 0 else Digit(x % 2 == 1 || y % 2 == 1) + 2 * Or(x / 2, y / 2)
  }

  function And(x: nat, y: nat): nat
    decreases x
  {
    if x == 0 then 0 else Digit(x % 2 == 1 && y % 2 == 1) + 2 * And(x / 2, y / 2)
  }

  function Pow2(n: nat): (p: nat)
    ensures 0 < p
  {
    if n == 0 then 1 else 2 * Pow2(n - 1)
  }

  /** The masks that the source sums up as `mode += pow(2, i)`. */
  function Ones(n: nat): nat {
    if n == 0 then 0 else Ones(n - 1) + Pow2(n - 1)
  }

  lemma {:induction false} OnesStep(n: nat)
    requires 0 < n
    ensures Ones(n) == 1 + 2 * Ones(n - 1)
  {
    if 1 < n { OnesStep(n - 1); }
  }

  /** The low bit of twice a number and a digit is the digit; the others are the number's. */
  lemma DoubleBit(x: nat, b: bool, i: nat)
    ensures Bit(2 * x + Digit(b), i) == if i == 0 then b else Bit(x, i - 1)
  {
    assert (2 * x + Digit(b)) / 2 == x;
  }

  lemma {:induction false} BitShr(x: nat, k: nat, i: nat)
    ensures Bit(Shr(x, k), i) == Bit(x, i + k)
    decreases k
  {
    if 0 < k { BitShr(x / 2, k - 1, i); }
  }

  lemma {:induction false} BitShl(x: nat, k: nat, i: nat)
    ensures Bit(Shl(x, k), i) == (k <= i && Bit(x, i - k))
    decreases k
  {
    if 0 < k && 0 < i { BitShl(x, k - 1, i - 1); }
  }

  lemma {:induction false} BitOr(x: nat, y: nat, i: nat)
    ensures Bit(Or(x, y), i) == (Bit(x, i) || Bit(y, i))
    decreases i
  {
    if x + y == 0 {
      ZeroBit(i);
    } else {
      DoubleBit(Or(x / 2, y / 2), x % 2 == 1 || y % 2 == 1, i);
      if 0 < i { BitOr(x / 2, y / 2, i - 1); }
    }
  }

  lemma {:induction false} BitAnd(x: nat, y: nat, i: nat)
    ensures Bit(And(x, y), i) == (Bit(x, i) && Bit(y, i))
    decreases i
  {
    if x == 0 {
      ZeroBit(i);
    } else {
      DoubleBit(And(x / 2, y / 2), x % 2 == 1 && y % 2 == 1, i);
      if 0 < i { BitAnd(x / 2, y / 2, i - 1); }
    }
  }

  lemma {:induction false} BitOnes(n: nat, i: nat)
    ensures Bit(Ones(n), i) == (i < n)
    decreases n
  {
    if 0 < n {
      OnesStep(n);
      if 0 < i { BitOnes(n - 1, i - 1); }
    } else {
      ZeroBit(i);
    }
  }

  lemma {:induction false} Extensional(x: nat, y: nat)
    requires forall i: nat :: Bit(x, i) == Bit(y, i)
    ensures x == y
    decreases x + y
  {
    if 0 < x + y {
      forall i: nat ensures Bit(x / 2, i) == Bit(y / 2, i) {
        assert Bit(x, i + 1) == Bit(y, i + 1);
      }
      assert Bit(x, 0) == Bit(y, 0);
      Extensional(x / 2, y / 2);
    }
  }

  lemma {:induction false} HighBitsClear(x: nat, n: nat, i: nat)
    requires x < Pow2(n) && n <= i
    ensures !Bit(x, i)
    decreases i
  {
    if n == 0 {
      ZeroBit(i);
    } else {
      HighBitsClear(x / 2, n - 1, i - 1);
    }
  }

  lemma {:induction false} BelowPow2(x: nat, n: nat)
    requires forall i: nat :: n <= i ==> !Bit(x, i)
    ensures x < Pow2(n)
    decreases n, x
  {
    if n == 0 && x == 0 {
    } else {
      var m := if n == 0 then 0 else n - 1;
      forall i: nat | m <= i ensures !Bit(x / 2, i) {
        assert !Bit(x, i + 1);
      }
      assert n == 0 ==> !Bit(x, 0);
      BelowPow2(x / 2, m);
    }
  }

  lemma {:induction false} ZeroBit(i: nat)
    ensures !Bit(0, i)
  {
    if 0 < i { ZeroBit(i - 1); }
  }

  lemma {:induction false} OrZero(x: nat)
    ensures Or(x, 0) == x && Or(0, x) == x
  {
    if 0 < x { OrZero(x / 2); }
  }

  /** Joining a number above `k` clear bits with one below 2^k is addition. */
  lemma {:induction false} OrIsAdd(x: nat, k: nat, y: nat)
    requires y < Pow2(k)
    ensures Or(Shl(x, k), y) == Shl(x, k) + y
    decreases k
  {
    if k == 0 {
      OrZero(x);
    } else {
      OrIsAdd(x, k - 1, y / 2);
      assert Shl(x, k) / 2 == Shl(x, k - 1);
    }
  }

  lemma {:induction false} ShlGrows(x: nat, a: nat, b: nat)
    requires 0 < x && b < a
    ensures Shl(x, b) < Shl(x, a)
    decreases a
  {
    ShlPositive(x, a - 1);
    if b < a - 1 { ShlGrows(x, a - 1, b); }
  }

  lemma {:induction false} ShlPositive(x: nat, k: nat)
    ensures 0 < Shl(x, k) <==> 0 < x
    decreases k
  {
    if 0 < k { ShlPositive(x, k - 1); }
  }

  lemma {:induction false} ShlAdd(x: nat, y: nat, k: nat)
    ensures Shl(x + y, k) == Shl(x, k) + Shl(y, k)
    decreases k
  {
    if 0 < k { ShlAdd(x, y, k - 1); }
  }

  lemma {:induction false} ShlTwice(x: nat, a: nat, b: nat)
    ensures Shl(Shl(x, a), b) == Shl(x, a + b)
    decreases b
  {
    if 0 < b { ShlTwice(x, a, b - 1); }
  }

  lemma {:induction false} ShlBelow(x: nat, n: nat, k: nat)
    requires x < Pow2(n)
    ensures Shl(x, k) < Pow2(n + k)
    decreases k
  {
    if 0 < k { ShlBelow(x, n, k - 1); }
  }

  lemma {:induction false} Pow2Grows(a: nat, b: nat)
    requires a <= b
    ensures Pow2(a) <= Pow2(b)
    decreases b
  {
    if a < b { Pow2Grows(a, b - 1); }
  }

  // ---------- Truncation ----------

  /** The low `n` bits of a number. */
  function Low(x: nat, n: nat): (r: nat)
    ensures r < Pow2(n)
    ensures x < Pow2(n) ==> r == x
    decreases n
  {
    if n == 0 then 0 else 2 * Low(x / 2, n - 1) + Digit(x % 2 == 1)
  }

  lemma {:induction false} LowBit(x: nat, n: nat, i: nat)
    ensures Bit(Low(x, n), i) == (i < n && Bit(x, i))
    decreases n
  {
    if n == 0 {
      ZeroBit(i);
    } else {
      DoubleBit(Low(x / 2, n - 1), x % 2 == 1, i);
      if 0 < i { LowBit(x / 2, n - 1, i - 1); }
    }
  }
}
