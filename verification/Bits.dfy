/** Shifts, masks and bitwise operators of fixed-width unsigned words, as arithmetic. */
module Bits {

  function Pow2(n: nat): (p: nat)
    ensures p > 0
  {
    if n == 0 then 1 else 2 * Pow2(n - 1)
  }

  /** Shifting left in a word of `width` bits drops what leaves the word. */
  function Shl(width: nat, x: nat, n: nat): nat {
    (x * Pow2(n)) % Pow2(width)
  }

  function Shr(x: nat, n: nat): nat {
    Quotient(x, Pow2(n))
  }

  function Quotient(x: nat, d: nat): nat
    requires d > 0
  {
    x / d
  }

  function Or(x: nat, y: nat): nat
    decreases x + y
  {
    if x == 0 && y == 0 then 0
    else 2 * Or(x / 2, y / 2) + if x % 2 == 1 || y % 2 == 1 then 1 else 0
  }

  function And(x: nat, y: nat): nat
    decreases x + y
  {
    if x == 0 || y == 0 then 0
    else 2 * And(x / 2, y / 2) + if x % 2 == 1 && y % 2 == 1 then 1 else 0
  }

  /** The `n` low bits, all set. */
  function Mask(n: nat): nat {
    Pow2(n) - 1
  }

  lemma {:induction false} Pow2Adds(a: nat, b: nat)
    ensures Pow2(a + b) == Pow2(a) * Pow2(b)
  {
    if a > 0 {
      Pow2Adds(a - 1, b);
      Doubles(Pow2(a - 1), Pow2(b));
    }
  }

  lemma Doubles(a: nat, b: nat)
    ensures 2 * a * b == 2 * (a * b)
  {
  }

  lemma {:induction false} Pow2Grows(a: nat, b: nat)
    requires a <= b
    ensures Pow2(a) <= Pow2(b)
  {
    if a < b {
      Pow2Grows(a, b - 1);
    }
  }

  /** A left shift that fits its word loses nothing. */
  lemma ShlExact(width: nat, x: nat, n: nat, bits: nat)
    requires x < Pow2(bits) && bits + n <= width
    ensures Shl(width, x, n) == x * Pow2(n) < Pow2(bits + n)
  {
    Pow2Adds(bits, n);
    Pow2Grows(bits + n, width);
    Scales(x, Pow2(bits), Pow2(n));
    SmallRemainder(x * Pow2(n), Pow2(width));
  }

  lemma SmallRemainder(x: nat, d: nat)
    requires x < d
    ensures x % d == x
  {
  }

  lemma Scales(x: nat, bound: nat, factor: nat)
    requires x < bound && factor > 0
    ensures x * factor < bound * factor
  {
  }

  /** Joining a shifted word with what fits its free low bits adds them up. */
  lemma {:induction false} OrAdds(x: nat, n: nat, y: nat)
    requires y < Pow2(n)
    ensures Or(x * Pow2(n), y) == x * Pow2(n) + y
  {
    if n == 0 {
      OrZero(x);
    } else {
      var shifted := x * Pow2(n);
      assert shifted == 2 * (x * Pow2(n - 1)) by { Doubles(Pow2(n - 1), x); }
      assert shifted / 2 == x * Pow2(n - 1) && shifted % 2 == 0;
      OrAdds(x, n - 1, y / 2);
    }
  }

  lemma {:induction false} OrZero(x: nat)
    ensures Or(x, 0) == x
  {
    if x > 0 {
      OrZero(x / 2);
    }
  }

  /** Masking keeps the remainder. */
  lemma {:induction false} AndMask(x: nat, n: nat)
    ensures And(x, Mask(n)) == x % Pow2(n)
  {
    if n == 0 {
      assert x % 1 == 0;
    } else if x == 0 {
      SmallRemainder(0, Pow2(n));
    } else {
      AndMask(x / 2, n - 1);
      AndOdd(x, Mask(n - 1));
      HalfRemainder(x, Pow2(n - 1));
    }
  }

  lemma AndOdd(x: nat, m: nat)
    requires x > 0
    ensures And(x, 2 * m + 1) == 2 * And(x / 2, m) + x % 2
  {
    assert (2 * m + 1) / 2 == m && (2 * m + 1) % 2 == 1;
  }

  lemma HalfRemainder(x: nat, half: nat)
    requires half > 0
    ensures x % (2 * half) == 2 * ((x / 2) % half) + x % 2
  {
    var h, q, r := x / 2, (x / 2) / half, (x / 2) % half;
    assert h == q * half + r;
    assert x == 2 * h + x % 2;
    var low := 2 * r + x % 2;
    assert low < 2 * half;
    assert x == q * (2 * half) + low by { Doubles(half, q); }
    RemainderIs(x, 2 * half, q, low);
  }

  /** The quotient and remainder are the only ones. */
  lemma RemainderIs(x: nat, d: nat, q: nat, r: nat)
    requires d > 0 && r < d && x == q * d + r
    ensures x / d == q && x % d == r
  {
    var q', r' := x / d, x % d;
    DivMod(x, d);
    assert (q' - q) * d == r - r';
    OnlyMultiple(q' - q, d);
  }

  lemma DivMod(x: nat, d: nat)
    requires d > 0
    ensures x == (x / d) * d + x % d && x % d < d
  {
  }

  /** Zero is the only multiple closer to zero than the factor. */
  lemma OnlyMultiple(k: int, d: nat)
    requires 0 - d < k * d < d
    ensures k == 0
  {
    if k > 0 {
      AtLeast(k, d);
    } else if k < 0 {
      AtLeast(-k, d);
    }
  }

  lemma AtLeast(k: int, d: nat)
    requires k > 0
    ensures k * d >= d && -k * d == 0 - k * d
  {
    NonNegative(k - 1, d);
    assert k * d == (k - 1) * d + d;
  }

  lemma NonNegative(a: int, b: int)
    requires a >= 0 && b >= 0
    ensures a * b >= 0
  {
  }

  /** Splitting a word at a bit. */
  lemma SplitBits(x: nat, n: nat)
    ensures x == Shr(x, n) * Pow2(n) + And(x, Mask(n))
    ensures And(x, Mask(n)) < Pow2(n)
  {
    AndMask(x, n);
    DivMod(x, Pow2(n));
  }
}
