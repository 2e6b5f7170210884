/** Machine words as natural numbers: the bitwise operations and what they are on separate bit fields. */
module Bits {

  function Pow2(k: nat): (r: nat)
    ensures r > 0
  {
    if k == 0 then 1 else 2 * Pow2(k - 1)
  }

  function Or(a: nat, b: nat): nat
    decreases a + b
  {
    if a == 0 && b == 0 then 0 else 2 * Or(a / 2, b / 2) + if a % 2 == 1 || b % 2 == 1 then 1 else 0
  }

  function And(a: nat, b: nat): nat
    decreases a
  {
    if a == 0 then 0 else 2 * And(a / 2, b / 2) + if a % 2 == 1 && b % 2 == 1 then 1 else 0
  }

  /** `a & !b`. */
  function AndNot(a: nat, b: nat): nat
    decreases a
  {
    if a == 0 then 0 else 2 * AndNot(a / 2, b / 2) + if a % 2 == 1 && b % 2 == 0 then 1 else 0
  }

  function Bit(w: nat, k: nat): bool { w / Pow2(k) % 2 == 1 }

  lemma {:induction false} OrZero(a: nat)
    ensures Or(a, 0) == a
  {
    if a > 0 { OrZero(a / 2); }
  }

  lemma {:induction false} OrComm(a: nat, b: nat)
    ensures Or(a, b) == Or(b, a)
    decreases a + b
  {
    if a > 0 || b > 0 { OrComm(a / 2, b / 2); }
  }

  lemma HalfMod(a: nat, k: nat)
    requires k > 0
    ensures a % Pow2(k) == 2 * (a / 2 % Pow2(k - 1)) + a % 2
  {
    var m := Pow2(k - 1);
    var q := a / 2 / m;
    var r := a / 2 % m;
    QuotRem(a / 2, m);
    ModUnique(a, 2 * m, q, 2 * r + a % 2);
  }

  lemma QuotRem(x: nat, d: nat)
    requires d > 0
    ensures x == x / d * d + x % d && x % d < d
  {
  }

  lemma ModUnique(x: nat, d: nat, q: nat, r: nat)
    requires d > 0 && x == q * d + r && r < d
    ensures x % d == r && x / d == q
  {
    QuotRem(x, d);
    if x / d < q { Grow(x / d, q - 1, d); } else if x / d > q { Grow(q + 1, x / d, d); }
  }

  lemma Grow(a: int, b: int, d: nat)
    requires a <= b
    ensures a * d <= b * d
  {
  }

  /** Low bits are or-ed among themselves. */
  lemma {:induction false} OrLow(a: nat, x: nat, y: nat, k: nat)
    requires a % Pow2(k) == 0 && x < Pow2(k) && y < Pow2(k)
    ensures Or(a + x, y) == a + Or(x, y)
    decreases k
  {
    if k == 0 {
      OrZero(a);
    } else {
      HalfMod(a, k);
      assert a % 2 == 0 && (a + x) / 2 == a / 2 + x / 2;
      OrLow(a / 2, x / 2, y / 2, k - 1);
    }
  }

  /** A field below the set bits of `a` is added. */
  lemma OrSum(a: nat, y: nat, k: nat)
    requires a % Pow2(k) == 0 && y < Pow2(k)
    ensures Or(a, y) == a + y
  {
    OrLow(a, 0, y, k);
    OrComm(0, y);
    OrZero(y);
  }

  lemma {:induction false} AndLow(w: nat, k: nat)
    ensures And(w, Pow2(k) - 1) == w % Pow2(k)
    decreases k
  {
    if k == 0 {
      AndZero(w);
    } else {
      HalfMod(w, k);
      assert (Pow2(k) - 1) / 2 == Pow2(k - 1) - 1 && (Pow2(k) - 1) % 2 == 1;
      AndLow(w / 2, k - 1);
    }
  }

  lemma {:induction false} AndZero(w: nat)
    ensures And(w, 0) == 0
  {
    if w > 0 { AndZero(w / 2); }
  }

  /** Masking with the bits of `[lo, hi)`. */
  lemma AndRange(w: nat, lo: nat, hi: nat)
    requires lo <= hi
    ensures Pow2(lo) <= Pow2(hi) && And(w, Pow2(hi) - Pow2(lo)) == w % Pow2(hi) - w % Pow2(lo)
  {
    hide And, Pow2;
    AndLowRange(w, lo, hi);
  }

  function Low(w: nat, k: nat): nat { w % Pow2(k) }

  lemma {:induction false} AndLowRange(w: nat, lo: nat, hi: nat)
    requires lo <= hi
    ensures Pow2(lo) <= Pow2(hi) && And(w, Pow2(hi) - Pow2(lo)) == Low(w, hi) - Low(w, lo)
    decreases lo
  {
    hide And, Low, Pow2;
    Pow2Mono(lo, hi);
    if lo == 0 {
      LowAll(w, hi);
    } else {
      AndLowRange(w / 2, lo - 1, hi - 1);
      LowHalf(w, hi);
      LowHalf(w, lo);
      Twice(hi);
      Twice(lo);
      EvenMask(w, Pow2(hi - 1) - Pow2(lo - 1));
    }
  }

  lemma LowAll(w: nat, k: nat)
    ensures And(w, Pow2(k) - Pow2(0)) == Low(w, k) && Low(w, 0) == 0
  {
    AndLow(w, k);
  }

  lemma LowHalf(w: nat, k: nat)
    requires k > 0
    ensures Low(w, k) == 2 * Low(w / 2, k - 1) + w % 2
  {
    HalfMod(w, k);
  }

  lemma Twice(k: nat)
    requires k > 0
    ensures Pow2(k) == 2 * Pow2(k - 1)
  {
  }

  lemma EvenMask(w: nat, m: nat)
    ensures And(w, 2 * m) == 2 * And(w / 2, m)
  {
    Double(m);
  }

  lemma Double(m: nat)
    ensures 2 * m / 2 == m && 2 * m % 2 == 0
  {
  }

  lemma {:induction false} Pow2Mono(a: nat, b: nat)
    requires a <= b
    ensures Pow2(a) <= Pow2(b)
  {
    if a < b { Pow2Mono(a, b - 1); }
  }

  /** Testing one bit. */
  lemma {:induction false} AndBit(w: nat, k: nat)
    ensures And(w, Pow2(k)) == if Bit(w, k) then Pow2(k) else 0
    decreases k
  {
    if k == 0 {
      AndZero(w / 2);
    } else {
      AndBit(w / 2, k - 1);
      HalfBit(w, k);
      assert Pow2(k) % 2 == 0 && Pow2(k) / 2 == Pow2(k - 1);
    }
  }

  lemma HalfBit(w: nat, k: nat)
    requires k > 0
    ensures Bit(w, k) == Bit(w / 2, k - 1)
  {
    var m := Pow2(k - 1);
    QuotRem(w / 2, m);
    ModUnique(w, 2 * m, w / 2 / m, 2 * (w / 2 % m) + w % 2);
  }

  /** Bits below the set bits of `a`. */
  lemma {:induction false} BitLow(a: nat, x: nat, k: nat, m: nat)
    requires a % Pow2(m) == 0 && k < m
    ensures Bit(a + x, k) == Bit(x, k)
    decreases k
  {
    HalfMod(a, m);
    assert a % 2 == 0 && (a + x) / 2 == a / 2 + x / 2;
    if k > 0 {
      BitLow(a / 2, x / 2, k - 1, m - 1);
      HalfBit(a + x, k);
      HalfBit(x, k);
    }
  }

  lemma {:induction false} AndNotRest(a: nat, b: nat)
    ensures AndNot(a, b) + And(a, b) == a
    decreases a
  {
    if a > 0 { AndNotRest(a / 2, b / 2); }
  }

  /** Setting a clear bit adds it. */
  lemma {:induction false} OrBit(x: nat, k: nat)
    requires !Bit(x, k)
    ensures Or(x, Pow2(k)) == x + Pow2(k)
    decreases k
  {
    if k == 0 {
      OrZero(x / 2);
    } else {
      HalfBit(x, k);
      OrBit(x / 2, k - 1);
      assert Pow2(k) / 2 == Pow2(k - 1) && Pow2(k) % 2 == 0;
    }
  }

  lemma LowBit(w: nat) ensures Bit(w, 0) == (w % 2 == 1)
  {
    assert Pow2(0) == 1;
  }

  lemma OrHalf(a: nat, b: nat)
    ensures Or(a, b) / 2 == Or(a / 2, b / 2) && Or(a, b) % 2 == if a % 2 == 1 || b % 2 == 1 then 1 else 0
  {
    if a == 0 && b == 0 { assert Or(0, 0) == 0; }
  }

  lemma {:induction false} BitOr(a: nat, b: nat, j: nat)
    ensures Bit(Or(a, b), j) == (Bit(a, j) || Bit(b, j))
    decreases j
  {
    hide Bit, Or;
    OrHalf(a, b);
    if j > 0 {
      HalfBit(Or(a, b), j);
      HalfBit(a, j);
      HalfBit(b, j);
      BitOr(a / 2, b / 2, j - 1);
    } else {
      LowBit(a);
      LowBit(b);
      LowBit(Or(a, b));
    }
  }

  lemma AndNotHalf(a: nat, b: nat)
    ensures AndNot(a, b) / 2 == AndNot(a / 2, b / 2) && AndNot(a, b) % 2 == if a % 2 == 1 && b % 2 == 0 then 1 else 0
  {
    if a == 0 { assert AndNot(0, b) == 0 && AndNot(0, b / 2) == 0; }
  }

  lemma {:induction false} BitAndNot(a: nat, b: nat, j: nat)
    ensures Bit(AndNot(a, b), j) == (Bit(a, j) && !Bit(b, j))
    decreases j
  {
    hide Bit, AndNot;
    AndNotHalf(a, b);
    if j > 0 {
      HalfBit(AndNot(a, b), j);
      HalfBit(a, j);
      HalfBit(b, j);
      BitAndNot(a / 2, b / 2, j - 1);
    } else {
      LowBit(a);
      LowBit(b);
      LowBit(AndNot(a, b));
    }
  }

  lemma {:induction false} BitPow(k: nat, j: nat)
    ensures Bit(Pow2(k), j) == (j == k)
    decreases j
  {
    if j == 0 {
    } else if k == 0 {
      HalfBit(1, j);
      ZeroBit(j - 1);
    } else {
      HalfBit(Pow2(k), j);
      BitPow(k - 1, j - 1);
    }
  }

  lemma {:induction false} ZeroBit(j: nat)
    ensures !Bit(0, j)
  {
    if j > 0 { HalfBit(0, j); ZeroBit(j - 1); }
  }

  /** Setting and clearing one bit of a word. */
  lemma SetClear(w: nat, k: nat, j: nat)
    ensures Bit(Or(w, Pow2(k)), j) == (j == k || Bit(w, j))
    ensures Bit(AndNot(w, Pow2(k)), j) == (j != k && Bit(w, j))
  {
    hide Bit, Or, AndNot, Pow2;
    BitOr(w, Pow2(k), j);
    BitAndNot(w, Pow2(k), j);
    BitPow(k, j);
  }

  /** Rounding down to a power of two by masking. */
  lemma MaskDown(x: nat, k: nat)
    ensures AndNot(x, Pow2(k) - 1) == x - x % Pow2(k)
  {
    hide AndNot, And, Pow2;
    AndNotRest(x, Pow2(k) - 1);
    AndLow(x, k);
  }

  lemma {:induction false} OrBound(a: nat, b: nat, n: nat)
    requires a < Pow2(n) && b < Pow2(n)
    ensures Or(a, b) < Pow2(n)
    decreases n
  {
    if n > 0 { OrBound(a / 2, b / 2, n - 1); }
  }
}
