/** Numbers written in bytes as decimal digits. */
module Decimals {

  import opened Octets

  const ZERO: Byte := 48
  const NINE: Byte := 57

  predicate IsDigit(b: Byte) {
    ZERO <= b <= NINE
  }

  /** The value of the first `n` digits. */
  function Decimal(digits: seq<Byte>, n: nat): int
    requires n <= |digits|
  {
    if n == 0 then 0 else 10 * Decimal(digits, n - 1) + (digits[n - 1] as int - ZERO as int)
  }

  function PrintNat(n: nat): (text: seq<Byte>)
    ensures text != [] && forall k :: 0 <= k < |text| ==> IsDigit(text[k])
  {
    if n < 10 then [ZERO + n] else PrintNat(n / 10) + [ZERO + n % 10]
  }

  lemma {:induction false} DecimalOfPrefix(digits: seq<Byte>, more: seq<Byte>, n: nat)
    requires n <= |digits|
    ensures Decimal(digits + more, n) == Decimal(digits, n)
  {
    if n > 0 {
      DecimalOfPrefix(digits, more, n - 1);
    }
  }

  /** Reading a printed number gives the number back. */
  lemma {:induction false} DecimalOfPrint(n: nat)
    ensures Decimal(PrintNat(n), |PrintNat(n)|) == n
  {
    if n >= 10 {
      var init := PrintNat(n / 10);
      DecimalOfPrint(n / 10);
      DecimalOfPrefix(init, [ZERO + n % 10], |init|);
    }
  }

  function Pow10(k: nat): nat {
    if k == 0 then 1 else 10 * Pow10(k - 1)
  }

  lemma {:induction false} PrintLength(n: nat, k: nat)
    requires k > 0 && n < Pow10(k)
    ensures |PrintNat(n)| <= k
  {
    if n >= 10 {
      PrintLength(n / 10, k - 1);
    }
  }
}
