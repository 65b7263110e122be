/** Bitwise operations of unsigned machine words, on natural numbers. */
module Bits {

  function Pow2(n: nat): (p: nat)
    ensures p > 0
  {
    if n == 0 then 1 else 2 * Pow2(n - 1)
  }

  function Or(a: nat, b: nat): nat
    decreases a + b
  {
    if a == 0 && b == 0 then 0
    else 2 * Or(a / 2, b / 2) + (if a % 2 == 1 || b % 2 == 1 then 1 else 0)
  }

  function And(a: nat, b: nat): nat
    decreases a + b
  {
    if a == 0 && b == 0 then 0
    else 2 * And(a / 2, b / 2) + (if a % 2 == 1 && b % 2 == 1 then 1 else 0)
  }

  /** A left shift in a word of `width` bits: what leaves the word is lost. */
  function Shl(a: nat, k: nat, width: nat): nat {
    (a * Pow2(k)) % Pow2(width)
  }

  function Shr(a: nat, k: nat): nat {
    Div(a, Pow2(k))
  }

  function Div(a: nat, d: nat): nat
    requires d > 0
  {
    a / d
  }

  lemma {:induction false} Pow2Add(m: nat, n: nat)
    ensures Pow2(m + n) == Pow2(m) * Pow2(n)
  {
    if m == 0 {
    } else {
      Pow2Add(m - 1, n);
      assert Pow2(m + n) == 2 * (Pow2(m - 1) * Pow2(n));
    }
  }

  /** Words of `k` bits stay words of `k` bits. */
  lemma {:induction false} OrBound(a: nat, b: nat, k: nat)
    requires a < Pow2(k) && b < Pow2(k)
    ensures Or(a, b) < Pow2(k)
  {
    if k == 0 || (a == 0 && b == 0) {
    } else {
      OrBound(a / 2, b / 2, k - 1);
    }
  }

  lemma {:induction false} OrZero(a: nat)
    ensures Or(a, 0) == a
  {
    if a == 0 {
    } else {
      OrZero(a / 2);
    }
  }

  /** Fields that do not overlap are simply put side by side. */
  lemma OrDisjoint(hi: nat, lo: nat, k: nat)
    requires lo < Pow2(k)
    ensures Or(hi * Pow2(k), lo) == hi * Pow2(k) + lo
  {
    OrOverField(hi, 0, lo, k);
    ZeroOr(lo);
  }

  lemma {:induction false} ZeroOr(a: nat)
    ensures Or(0, a) == a
  {
    if a == 0 {
    } else {
      ZeroOr(a / 2);
    }
  }

  lemma {:induction false} OrComm(a: nat, b: nat)
    ensures Or(a, b) == Or(b, a)
    decreases a + b
  {
    if a == 0 && b == 0 {
    } else {
      OrComm(a / 2, b / 2);
    }
  }

  /** Bits below position `k` are combined among themselves; the field above stays. */
  lemma {:induction false} OrOverField(hi: nat, mid: nat, lo: nat, k: nat)
    requires mid < Pow2(k) && lo < Pow2(k)
    ensures Or(hi * Pow2(k) + mid, lo) == hi * Pow2(k) + Or(mid, lo)
    decreases k
  {
    if k == 0 {
      OrZero(hi);
      OrZero(0);
    } else {
      var up := hi * Pow2(k - 1);
      var a := hi * Pow2(k) + mid;
      assert hi * Pow2(k) == 2 * up;
      assert a / 2 == up + mid / 2 && a % 2 == mid % 2;
      OrOverField(hi, mid / 2, lo / 2, k - 1);
      assert a == 0 && lo == 0 ==> up == 0;
    }
  }

  /** Masking with `k` ones keeps the value of the lowest `k` bits. */
  lemma {:induction false} AndLowMask(a: nat, k: nat)
    ensures And(a, Pow2(k) - 1) == a % Pow2(k)
  {
    if k == 0 {
      AndZero(a);
    } else {
      var m := Pow2(k) - 1;
      assert m / 2 == Pow2(k - 1) - 1 && m % 2 == 1;
      AndLowMask(a / 2, k - 1);
      ModHalves(a, Pow2(k - 1));
    }
  }

  lemma {:induction false} AndZero(a: nat)
    ensures And(a, 0) == 0
  {
    if a == 0 {
    } else {
      AndZero(a / 2);
    }
  }

  lemma ModHalves(a: nat, p: nat)
    requires p > 0
    ensures a % (2 * p) == 2 * ((a / 2) % p) + a % 2
  {
    var h, b := a / 2, a % 2;
    var q, r := h / p, h % p;
    assert a == (2 * p) * q + (2 * r + b) by {
      assert h == p * q + r;
      assert a == 2 * h + b;
    }
    DivModUnique(a, 2 * p, q, 2 * r + b);
  }

  lemma DivModUnique(a: nat, d: nat, q: nat, r: nat)
    requires d > 0 && r < d && a == d * q + r
    ensures a / d == q && a % d == r
  {
    var q', r' := a / d, a % d;
    assert a == d * q' + r';
    if q' > q {
      MulStep(d, q, q');
    } else if q' < q {
      MulStep(d, q', q);
    }
  }

  lemma MulStep(d: nat, x: nat, y: nat)
    requires x < y
    ensures d * x + d <= d * y
  {
    assert d * y == d * (y - x - 1) + d * (x + 1);
  }

  /** Masking off the lowest `k` bits of a word of `n` bits. */
  lemma {:induction false} AndHighMask(a: nat, n: nat, k: nat)
    requires a < Pow2(n) && k <= n
    ensures Pow2(k) <= Pow2(n)
    ensures And(a, Pow2(n) - Pow2(k)) == a - a % Pow2(k)
  {
    Pow2Monotone(k, n);
    if k == 0 {
      AndLowMask(a, n);
      DivModUnique(a, Pow2(n), 0, a);
      DivModUnique(a, 1, a, 0);
    } else {
      Pow2Monotone(k - 1, n - 1);
      var m := Pow2(n) - Pow2(k);
      assert m / 2 == Pow2(n - 1) - Pow2(k - 1) && m % 2 == 0;
      AndHighMask(a / 2, n - 1, k - 1);
      ModHalves(a, Pow2(k - 1));
    }
  }

  lemma {:induction false} Pow2Monotone(m: nat, n: nat)
    requires m <= n
    ensures Pow2(m) <= Pow2(n)
  {
    if m == n {
    } else {
      Pow2Monotone(m, n - 1);
    }
  }

  /** Bit `k` of a word, the lowest one being bit 0. */
  predicate Bit(a: nat, k: nat) {
    if k == 0 then a % 2 == 1 else Bit(a / 2, k - 1)
  }

  lemma {:induction false} ZeroBit(k: nat)
    ensures !Bit(0, k)
  {
    if k == 0 {
    } else {
      ZeroBit(k - 1);
    }
  }

  /** `Or` is what it says, bit by bit. */
  lemma {:induction false} OrBit(a: nat, b: nat, k: nat)
    ensures Bit(Or(a, b), k) <==> Bit(a, k) || Bit(b, k)
  {
    if k == 0 {
    } else if a == 0 && b == 0 {
      ZeroBit(k);
    } else {
      OrBit(a / 2, b / 2, k - 1);
      assert Or(a, b) / 2 == Or(a / 2, b / 2);
    }
  }

  /** And so is `And`. */
  lemma {:induction false} AndBit(a: nat, b: nat, k: nat)
    ensures Bit(And(a, b), k) <==> Bit(a, k) && Bit(b, k)
  {
    if k == 0 {
    } else if a == 0 && b == 0 {
      ZeroBit(k);
    } else {
      AndBit(a / 2, b / 2, k - 1);
      assert And(a, b) / 2 == And(a / 2, b / 2);
    }
  }

  /** Bits above position `k` are combined among themselves; the field below stays. */
  lemma {:induction false} OrAboveField(x: nat, y: nat, low: nat, k: nat)
    requires low < Pow2(k)
    ensures Or(x * Pow2(k) + low, y * Pow2(k)) == Or(x, y) * Pow2(k) + low
    decreases k
  {
    if k == 0 {
    } else {
      var p := Pow2(k - 1);
      assert Pow2(k) == 2 * p;
      hide Or;
      OrAboveField(x, y, low / 2, k - 1);
      Twice(x, p);
      Twice(y, p);
      Twice(Or(x, y), p);
      hide Pow2;
      OrDoubled(x * p, y * p, low);
    }
  }

  lemma Twice(x: nat, p: nat)
    ensures x * (2 * p) == 2 * (x * p)
  {
  }

  lemma OrDoubled(u: nat, v: nat, low: nat)
    ensures Or(2 * u + low, 2 * v) == 2 * Or(u + low / 2, v) + low % 2
  {
    var a, b := 2 * u + low, 2 * v;
    assert a / 2 == u + low / 2 && a % 2 == low % 2 && b / 2 == v && b % 2 == 0;
  }
}
