// Bitwise operators on unbounded integers, two's complement for negative operands.
module Bits {

  function Pow2(n: nat): (r: nat)
    ensures r > 0
  {
    if n == 0 then 1 else 2 * Pow2(n - 1)
  }

  function BitAnd(a: int, b: nat): nat
    decreases b
  {
    if b == 0 then 0 else 2 * BitAnd(a / 2, b / 2) + (a % 2) * (b % 2)
  }

  function BitOr(a: nat, b: nat): nat
    decreases a + b
  {
    if a == 0 then b
    else if b == 0 then a
    else 2 * BitOr(a / 2, b / 2) + (if a % 2 == 1 || b % 2 == 1 then 1 else 0)
  }

  function ShiftLeft(a: int, n: nat): (r: int)
    ensures a >= 0 ==> r >= 0
  {
    a * Pow2(n)
  }

  function ShiftRight(a: nat, n: nat): nat {
    if n == 0 then a else ShiftRight(a / 2, n - 1)
  }

  lemma {:induction false} Pow2Add(m: nat, n: nat)
    ensures Pow2(m + n) == Pow2(m) * Pow2(n)
  {
    if m > 0 {
      Pow2Add(m - 1, n);
    }
  }

  // Halving an integer divided into a high part and its low n + 1 bits.
  lemma HalveMod(a: int, m: nat)
    requires m > 0
    ensures a % (2 * m) == 2 * ((a / 2) % m) + a % 2
  {
    var q, r := (a / 2) / m, (a / 2) % m;
    assert a / 2 == q * m + r;
    assert a == 2 * (q * m + r) + a % 2;
    assert a == q * (2 * m) + (2 * r + a % 2) by {
      assert 2 * (q * m) == q * (2 * m);
    }
    ModUnique(a, 2 * m, q, 2 * r + a % 2);
  }

  lemma ModUnique(a: int, m: nat, q: int, r: int)
    requires 0 <= r < m && a == q * m + r
    ensures a % m == r && a / m == q
  {
    var q', r' := a / m, a % m;
    assert a == q' * m + r';
    assert (q - q') * m == r' - r;
    if q != q' {
      MulBig(q - q', m);
    }
  }

  lemma MulBig(k: int, m: int)
    requires k != 0 && m >= 0
    ensures k * m >= m || k * m <= -m
  {
  }

  // Masking with the low n bits set keeps the remainder.
  lemma {:induction false} AndLowMask(a: int, n: nat)
    ensures BitAnd(a, Pow2(n) - 1) == a % Pow2(n)
    decreases n
  {
    if n > 0 {
      var m := Pow2(n - 1);
      assert (2 * m - 1) / 2 == m - 1 && (2 * m - 1) % 2 == 1;
      AndLowMask(a / 2, n - 1);
      HalveMod(a, m);
    }
  }

  // The number with exactly the bits k..n set.
  function HighBits(k: nat, n: nat): nat
    requires k <= n
  {
    Pow2Monotone(k, n);
    Pow2(n) - Pow2(k)
  }

  // Masking with bits k..n set clears the k low bits of an n-bit number.
  lemma {:induction false} AndHighMask(a: nat, k: nat, n: nat)
    requires k <= n && a < Pow2(n)
    ensures BitAnd(a, HighBits(k, n)) == a - a % Pow2(k)
  {
    if k == 0 {
      AndLowMask(a, n);
      ModUnique(a, Pow2(n), 0, a);
    } else {
      AndHighMask(a / 2, k - 1, n - 1);
      HalveMod(a, Pow2(k - 1));
      AndDouble(a, HighBits(k - 1, n - 1));
    }
  }

  lemma AndDouble(a: nat, d: nat)
    ensures BitAnd(a, 2 * d) == 2 * BitAnd(a / 2, d)
  {
    assert (2 * d) / 2 == d && (2 * d) % 2 == 0;
  }

  lemma {:induction false} Pow2Monotone(m: nat, n: nat)
    requires m <= n
    ensures Pow2(m) <= Pow2(n)
  {
    if m < n {
      Pow2Monotone(m, n - 1);
    }
  }

  // The mask built as (~0 << k) & (2^n - 1) has exactly the bits k..n set.
  lemma HighMask(k: nat, n: nat)
    requires k <= n
    ensures BitAnd(ShiftLeft(-1, k), Pow2(n) - 1) == HighBits(k, n)
  {
    AndLowMask(ShiftLeft(-1, k), n);
    Pow2Monotone(k, n);
    ModUnique(ShiftLeft(-1, k), Pow2(n), -1, HighBits(k, n));
  }

  // Or-ing in bits above those used is addition.
  lemma {:induction false} OrShifted(low: nat, x: nat, n: nat)
    requires low < Pow2(n)
    ensures BitOr(low, x * Pow2(n)) == low + x * Pow2(n)
    ensures BitOr(x * Pow2(n), low) == x * Pow2(n) + low
  {
    if n > 0 && low > 0 && x > 0 {
      var m := Pow2(n - 1);
      var y := x * m;
      assert x * (2 * m) == 2 * y;
      assert (2 * y) / 2 == y && (2 * y) % 2 == 0;
      OrShifted(low / 2, x, n - 1);
    }
  }
}
