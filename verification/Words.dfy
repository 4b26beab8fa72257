/** Unsigned machine words as natural numbers. `&`, `|`, `<<`, `>>` and the counts of ones and of
    trailing zeros are defined by recursion on the binary digits, from the least significant digit
    up; wrapping arithmetic is `%` by a power of two. The lemmas say what the masks and shifts of
    the program compute. */
module Words {
  const U16: nat := 0x1_0000
  const U32: nat := 0x1_0000_0000
  const U48: nat := 0x1_0000_0000_0000
  const U64: nat := 0x1_0000_0000_0000_0000

  function Pow2(n: nat): (p: nat)
    ensures p >= 1
  {
    if n == 0 then 1 else 2 * Pow2(n - 1)
  }

  /** Binary digit `i` of `w`. */
  predicate Bit(w: nat, i: nat) {
    if i == 0 then w % 2 == 1 else Bit(w / 2, i - 1)
  }

  function And(a: nat, b: nat): nat
    decreases a
  {
    if a == 0 then 0 else 2 * And(a / 2, b / 2) + (if a % 2 == 1 && b % 2 == 1 then 1 else 0)
  }

  function Or(a: nat, b: nat): nat
    decreases a + b
  {
    if a == 0 && b == 0 then 0
    else 2 * Or(a / 2, b / 2) + (if a % 2 == 1 || b % 2 == 1 then 1 else 0)
  }

  /** `!w` on `n`-bit words. */
  function Not(w: nat, n: nat): nat
    requires w < Pow2(n)
  {
    Pow2(n) - 1 - w
  }

  /** `w << k` on `n`-bit words. */
  function ShiftLeft(w: nat, k: nat, n: nat): nat
    decreases k
  {
    if k == 0 then Remainder(w, Pow2(n)) else ShiftLeft(2 * w, k - 1, n)
  }

  /** `w >> k` */
  function ShiftRight(w: nat, k: nat): nat
    decreases k
  {
    if k == 0 then w else ShiftRight(w / 2, k - 1)
  }

  /** `w % m`, by repeated subtraction. */
  function Remainder(w: nat, m: nat): (r: nat)
    requires m > 0
    ensures r < m
    decreases w
  {
    if w < m then w else Remainder(w - m, m)
  }

  /** `w / m`, by repeated subtraction. */
  function Quotient(w: nat, m: nat): nat
    requires m > 0
    decreases w
  {
    if w < m then 0 else 1 + Quotient(w - m, m)
  }

  /** `a * b`, by repeated addition. */
  function Product(a: nat, b: nat): nat {
    if a == 0 then 0 else b + Product(a - 1, b)
  }

  function CountOnes(w: nat): nat {
    if w == 0 then 0 else w % 2 + CountOnes(w / 2)
  }

  function TrailingZeros(w: nat): nat
    requires w != 0
  {
    if w % 2 == 1 then 0 else 1 + TrailingZeros(w / 2)
  }

  function Max(a: nat, b: nat): nat {
    if a >= b then a else b
  }

  function SaturatingSub(a: nat, b: nat): nat {
    if a >= b then a - b else 0
  }

  function Min(a: nat, b: nat): nat {
    if a <= b then a else b
  }

  // ----- Powers of two -----

  lemma {:induction false} Pow2Values()
    ensures Pow2(3) == 8 && Pow2(6) == 64 && Pow2(16) == U16 && Pow2(32) == U32
    ensures Pow2(48) == U48 && Pow2(63) == 0x8000_0000_0000_0000 && Pow2(64) == U64
  {
    assert Pow2(3) == 8 && Pow2(6) == 64;
    Pow2Add(8, 8);
    Pow2Add(16, 16);
    Pow2Add(32, 16);
    Pow2Add(32, 32);
    assert Pow2(8) == 256;
  }

  lemma {:induction false} Pow2Add(a: nat, b: nat)
    ensures Pow2(a + b) == Pow2(a) * Pow2(b)
  {
    if a == 0 {
    } else {
      Pow2Add(a - 1, b);
      assert Pow2(a + b) == 2 * Pow2(a - 1 + b);
    }
  }

  lemma {:induction false} Pow2Monotone(a: nat, b: nat)
    requires a <= b
    ensures Pow2(a) <= Pow2(b)
  {
    if a == b {
    } else {
      Pow2Monotone(a, b - 1);
    }
  }

  // ----- Division and remainder -----

  lemma MulAtLeast(a: int, m: int)
    requires a >= 1 && m > 0
    ensures a * m >= m
  {
  }

  lemma DivModUnique(w: int, m: int, q: int, r: int)
    requires m > 0 && w == q * m + r && 0 <= r < m
    ensures w / m == q && w % m == r
  {
    SameQuotient(q, r, w / m, w % m, m);
  }

  lemma SameQuotient(q: int, r: int, q': int, r': int, m: int)
    requires m > 0 && 0 <= r < m && 0 <= r' < m
    requires q * m + r == q' * m + r'
    ensures q == q' && r == r'
  {
    if q > q' {
      MulAtLeast(q - q', m);
    } else if q' > q {
      MulAtLeast(q' - q, m);
    }
  }

  /** Reducing modulo a multiple of `m` first does not change the remainder by `m`. */
  lemma ModMod(w: nat, m: nat, k: nat)
    requires m > 0 && k > 0
    ensures m * k > 0 && w % (m * k) % m == w % m
  {
    assert m * k >= m;
    var q, r := w / (m * k), w % (m * k);
    assert w == q * (m * k) + r;
    var q2, r2 := r / m, r % m;
    assert q * (m * k) == (q * k) * m;
    assert w == (q * k + q2) * m + r2;
    DivModUnique(w, m, q * k + q2, r2);
  }

  lemma ModPow2(w: nat, k: nat, n: nat)
    requires k <= n
    ensures w % Pow2(n) % Pow2(k) == w % Pow2(k)
  {
    Pow2Add(k, n - k);
    ModMod(w, Pow2(k), Pow2(n - k));
  }

  /** Two counters that agree modulo `m` and are less than `m` apart are equal. */
  lemma ModInjective(a: nat, b: nat, m: nat)
    requires m > 0 && a <= b < a + m && a % m == b % m
    ensures a == b
  {
    var qa, qb := a / m, b / m;
    assert a == qa * m + a % m && b == qb * m + b % m;
    if qb > qa {
      MulAtLeast(qb - qa, m);
    } else if qa > qb {
      MulAtLeast(qa - qb, m);
    }
  }

  lemma ModIncrement(a: nat, m: nat)
    requires m > 0
    ensures (a % m + 1) % m == (a + 1) % m
  {
    var q, r := a / m, a % m;
    if r + 1 < m {
      DivModUnique(r + 1, m, 0, r + 1);
      DivModUnique(a + 1, m, q, r + 1);
    } else {
      DivModUnique(m, m, 1, 0);
      assert (q + 1) * m == q * m + m;
      DivModUnique(a + 1, m, q + 1, 0);
    }
  }

  /** A wrapping decrement undoes an increment. */
  lemma ModDecrement(a: nat, m: nat)
    requires m > 0 && a > 0
    ensures (a % m + m - 1) % m == (a - 1) % m
  {
    var q, r := a / m, a % m;
    if r == 0 {
      assert q >= 1;
      assert a - 1 == (q - 1) * m + (m - 1);
      DivModUnique(a - 1, m, q - 1, m - 1);
      DivModUnique(m - 1, m, 0, m - 1);
    } else {
      DivModUnique(a - 1, m, q, r - 1);
      DivModUnique(r + m - 1, m, 1, r - 1);
    }
  }

  /** Wrapping subtraction of nearby counters yields their true distance. */
  lemma WrappingDistance(a: nat, b: nat, m: nat)
    requires m > 0 && a <= b < a + m
    ensures (b % m + m - a % m) % m == b - a
  {
    var qa, qb := a / m, b / m;
    var d := b - a;
    assert b % m + m - a % m == d + (1 + qa - qb) * m;
    DivModUnique(b % m + m - a % m, m, 1 + qa - qb, d);
  }

  lemma {:induction false} DivisionIs(w: nat, m: nat)
    requires m > 0
    ensures Quotient(w, m) == w / m && Remainder(w, m) == w % m
    decreases w
  {
    if w < m {
      DivModUnique(w, m, 0, w);
    } else {
      DivisionIs(w - m, m);
      var q, r := Quotient(w - m, m), Remainder(w - m, m);
      assert (q + 1) * m == q * m + m;
      DivModUnique(w, m, q + 1, r);
    }
  }

  lemma {:induction false} ProductIs(a: nat, b: nat)
    ensures Product(a, b) == a * b
  {
    if a > 0 {
      ProductIs(a - 1, b);
      assert a * b == (a - 1) * b + b;
    }
  }

  /** A product divided by one factor is the other. */
  lemma {:induction false} QuotientOfProduct(a: nat, b: nat)
    requires b > 0
    ensures Quotient(Product(a, b), b) == a
  {
    if a > 0 { QuotientOfProduct(a - 1, b); }
  }

  lemma {:induction false} ProductStep(a: nat, n: nat, b: nat)
    requires a < n
    ensures Product(a, b) + b <= Product(n, b)
  {
    if a < n - 1 { ProductStep(a, n - 1, b); }
  }

  lemma HalfQuotient(w: nat, p: nat)
    requires p > 0
    ensures w / 2 / p == w / (2 * p)
  {
    var q, r := w / 2 / p, w / 2 % p;
    assert q * (2 * p) == 2 * (q * p);
    DivModUnique(w, 2 * p, q, 2 * r + w % 2);
  }

  /** Shifting right divides by a power of two. */
  lemma {:induction false} ShiftRightIs(w: nat, k: nat)
    ensures ShiftRight(w, k) == w / Pow2(k)
    decreases k
  {
    if k > 0 {
      ShiftRightIs(w / 2, k - 1);
      HalfQuotient(w, Pow2(k - 1));
    }
  }

  /** Shifting left multiplies by a power of two and drops what does not fit. */
  lemma {:induction false} ShiftLeftIs(w: nat, k: nat, n: nat)
    ensures ShiftLeft(w, k, n) == w * Pow2(k) % Pow2(n)
    decreases k
  {
    if k == 0 {
      DivisionIs(w, Pow2(n));
    } else {
      ShiftLeftIs(2 * w, k - 1, n);
      assert 2 * w * Pow2(k - 1) == w * (2 * Pow2(k - 1)) by { MulDouble(w, Pow2(k - 1)); MulLeft(w, Pow2(k - 1)); }
    }
  }

  lemma MulLeft(w: nat, p: nat)
    ensures 2 * w * p == 2 * (w * p)
  {
  }

  lemma Half(x: nat)
    ensures 2 * x / 2 == x && (2 * x + 1) / 2 == x
    ensures 2 * x % 2 == 0 && (2 * x + 1) % 2 == 1
  {
  }

  // ----- Digits -----

  lemma {:induction false} BitZero(i: nat)
    ensures !Bit(0, i)
  {
    if i > 0 { BitZero(i - 1); }
  }

  lemma AndHalf(a: nat, b: nat)
    ensures And(a, b) / 2 == And(a / 2, b / 2)
    ensures And(a, b) % 2 == 1 <==> a % 2 == 1 && b % 2 == 1
  {
    Half(And(a / 2, b / 2));
  }

  lemma OrHalf(a: nat, b: nat)
    ensures Or(a, b) / 2 == Or(a / 2, b / 2)
    ensures Or(a, b) % 2 == 1 <==> a % 2 == 1 || b % 2 == 1
  {
    Half(Or(a / 2, b / 2));
  }

  lemma {:induction false} BitAnd(a: nat, b: nat, i: nat)
    ensures Bit(And(a, b), i) <==> Bit(a, i) && Bit(b, i)
  {
    AndHalf(a, b);
    if i > 0 { BitAnd(a / 2, b / 2, i - 1); }
  }

  lemma {:induction false} BitOr(a: nat, b: nat, i: nat)
    ensures Bit(Or(a, b), i) <==> Bit(a, i) || Bit(b, i)
  {
    OrHalf(a, b);
    if i > 0 { BitOr(a / 2, b / 2, i - 1); }
  }

  lemma {:induction false} BitNot(w: nat, n: nat, i: nat)
    requires w < Pow2(n) && i < n
    ensures Bit(Not(w, n), i) <==> !Bit(w, i)
  {
    if i == 0 {
    } else {
      assert w / 2 < Pow2(n - 1);
      assert Not(w, n) / 2 == Not(w / 2, n - 1);
      BitNot(w / 2, n - 1, i - 1);
    }
  }

  lemma {:induction false} BitPow2(j: nat, i: nat)
    ensures Bit(Pow2(j), i) <==> i == j
  {
    if j == 0 {
      if i > 0 { BitZero(i - 1); }
    } else if i > 0 {
      assert Pow2(j) / 2 == Pow2(j - 1);
      BitPow2(j - 1, i - 1);
    }
  }

  /** A word is determined by its digits. */
  lemma {:induction false} BitsDetermine(a: nat, b: nat)
    requires forall i: nat :: Bit(a, i) <==> Bit(b, i)
    ensures a == b
    decreases a + b
  {
    if a == 0 && b == 0 {
    } else {
      assert Bit(a, 0) <==> Bit(b, 0);
      forall i: nat ensures Bit(a / 2, i) <==> Bit(b / 2, i) {
        assert Bit(a, i + 1) <==> Bit(b, i + 1);
      }
      BitsDetermine(a / 2, b / 2);
    }
  }

  lemma {:induction false} BitBelow(w: nat, n: nat, i: nat)
    requires w < Pow2(n) && i >= n
    ensures !Bit(w, i)
  {
    if n == 0 {
      BitZero(i);
    } else {
      BitBelow(w / 2, n - 1, i - 1);
    }
  }

  lemma {:induction false} BelowByBits(w: nat, n: nat)
    requires forall i: nat :: i >= n ==> !Bit(w, i)
    ensures w < Pow2(n)
    decreases w
  {
    if w == 0 {
    } else if n == 0 {
      SomeBit(w);
    } else {
      forall i: nat | i >= n - 1 ensures !Bit(w / 2, i) {
        assert !Bit(w, i + 1);
      }
      BelowByBits(w / 2, n - 1);
    }
  }

  /** The lowest digit of a nonzero word is at `TrailingZeros`. */
  lemma {:induction false} SomeBit(w: nat)
    requires w != 0
    ensures Bit(w, TrailingZeros(w))
    ensures forall j: nat :: j < TrailingZeros(w) ==> !Bit(w, j)
  {
    if w % 2 == 0 {
      SomeBit(w / 2);
      forall j: nat | j < TrailingZeros(w) ensures !Bit(w, j) {
        if j > 0 { assert !Bit(w / 2, j - 1); }
      }
    }
  }

  // ----- Masks and packed words -----

  /** `w & (2^n - 1)` is `w mod 2^n`. */
  lemma {:induction false} AndMask(w: nat, n: nat)
    ensures And(w, Pow2(n) - 1) == w % Pow2(n)
  {
    if n == 0 {
      AndZero(w);
    } else {
      AndMask(w / 2, n - 1);
      AndMaskStep(w, Pow2(n - 1));
    }
  }

  lemma AndMaskStep(w: nat, p: nat)
    requires p > 0 && And(w / 2, p - 1) == w / 2 % p
    ensures And(w, 2 * p - 1) == w % (2 * p)
  {
    ModDouble(w, p);
    AndOddMask(w, p);
  }

  lemma AndOddMask(w: nat, p: nat)
    requires p > 0
    ensures And(w, 2 * p - 1) == 2 * And(w / 2, p - 1) + w % 2
  {
    var m := 2 * p - 1;
    assert m / 2 == p - 1 && m % 2 == 1;
  }

  lemma ModDouble(w: nat, p: nat)
    requires p > 0
    ensures w % (2 * p) == 2 * (w / 2 % p) + w % 2
  {
    var q, r := w / 2 / p, w / 2 % p;
    assert w / 2 == q * p + r;
    assert q * (2 * p) == 2 * (q * p);
    DivModUnique(w, 2 * p, q, 2 * r + w % 2);
  }

  lemma {:induction false} AndZero(w: nat)
    ensures And(w, 0) == 0
  {
    if w > 0 { AndZero(w / 2); }
  }

  /** Disjoint high and low parts may be joined by `|` or by `+`. */
  lemma {:induction false} OrHighLow(h: nat, l: nat, n: nat)
    requires l < Pow2(n)
    ensures Or(h * Pow2(n), l) == h * Pow2(n) + l
  {
    if n == 0 {
      OrZero(h);
    } else {
      var p := Pow2(n - 1);
      MulDouble(h, p);
      OrHighLow(h, l / 2, n - 1);
      OrEven(h * p, l);
    }
  }

  lemma MulDouble(h: nat, p: nat)
    ensures h * (2 * p) == 2 * (h * p)
  {
  }

  lemma OrEven(a: nat, l: nat)
    ensures Or(2 * a, l) == 2 * Or(a, l / 2) + l % 2
  {
    assert 2 * a / 2 == a && 2 * a % 2 == 0;
  }

  lemma {:induction false} OrZero(h: nat)
    ensures Or(h, 0) == h
  {
    if h > 0 { OrZero(h / 2); }
  }

  /** Packing a high and a low part and taking the word apart again. */
  lemma PackRoundTrip(h: nat, l: nat, k: nat, n: nat)
    requires k <= n && h < Pow2(n - k) && l < Pow2(k)
    ensures var w := Or(ShiftLeft(h, k, n), And(l, Pow2(k) - 1));
            && w < Pow2(n) && ShiftRight(w, k) == h && And(w, Pow2(k) - 1) == l
  {
    hide And, Or, Pow2, ShiftLeft, ShiftRight;
    var p := Pow2(k);
    HighPartFits(h, l, k, n);
    DivModUnique(h * p, Pow2(n), 0, h * p);
    ShiftLeftIs(h, k, n);
    AndMask(l, k);
    DivModUnique(l, p, 0, l);
    OrHighLow(h, l, k);
    AndMask(h * p + l, k);
    DivModUnique(h * p + l, p, h, l);
    ShiftRightIs(h * p + l, k);
  }

  lemma HighPartFits(h: nat, l: nat, k: nat, n: nat)
    requires k <= n && h < Pow2(n - k) && l < Pow2(k)
    ensures h * Pow2(k) + l < Pow2(n)
  {
    Pow2Add(n - k, k);
    var p, d := Pow2(k), Pow2(n - k) - h;
    MulAtLeast(d, p);
    assert (h + d) * p == h * p + d * p;
  }

  // ----- Powers of two as sizes -----

  function NextPow2From(p: nat, n: nat): nat
    requires p > 0
    decreases if n > p then n - p else 0
  {
    if p >= n then p else NextPow2From(2 * p, n)
  }

  /** `n.next_power_of_two()`; 1 for 0. */
  function NextPowerOfTwo(n: nat): nat {
    NextPow2From(1, n)
  }

  lemma {:induction false} NextPow2FromProps(k: nat, n: nat) returns (j: nat)
    requires k == 0 || Pow2(k - 1) < n
    ensures NextPow2From(Pow2(k), n) == Pow2(j) && Pow2(j) >= n
    ensures j == 0 || Pow2(j - 1) < n
    decreases if n > Pow2(k) then n - Pow2(k) else 0
  {
    if Pow2(k) >= n {
      j := k;
    } else {
      j := NextPow2FromProps(k + 1, n);
    }
  }

  /** The result is the least power of two that is at least `n`. */
  lemma NextPowerOfTwoIsLeast(n: nat) returns (j: nat)
    ensures NextPowerOfTwo(n) == Pow2(j) && Pow2(j) >= n
    ensures forall i: nat :: Pow2(i) >= n ==> Pow2(j) <= Pow2(i)
    ensures n >= 1 ==> Pow2(j) < 2 * n
  {
    j := NextPow2FromProps(0, n);
    forall i: nat | Pow2(i) >= n ensures Pow2(j) <= Pow2(i) {
      if i < j {
        Pow2Monotone(i, j - 1);
      } else {
        Pow2Monotone(j, i);
      }
    }
  }
}
