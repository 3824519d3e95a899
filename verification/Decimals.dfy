/** Numbers written out in base ten, as both languages of the source print them. */
module Decimals {
  import opened Arith

  function Digit(d: nat): char
    requires d < 10
  {
    "0123456789"[d]
  }

  function Decimal(n: nat): string
  {
    if n < 10 then [Digit(n)] else Decimal(n / 10) + [Digit(n % 10)]
  }

  function Pow10(k: nat): (p: nat)
    ensures p > 0
  {
    if k == 0 then 1 else 10 * Pow10(k - 1)
  }

  /** The digit `k` places from the right says how many times 10^k is in `n`, up to nine. */
  lemma {:induction false} DecimalPlace(n: nat, k: nat)
    requires k < |Decimal(n)|
    ensures Decimal(n)[|Decimal(n)| - 1 - k] as int == '0' as int + n / Pow10(k) % 10
    ensures n >= 10 ==> Decimal(n)[0] != '0'
  {
    if n >= 10 {
      var front := Decimal(n / 10);
      if n / 10 < 10 {
        assert front == [Digit(n / 10)];
      } else {
        DecimalPlace(n / 10, 0);
      }
      assert Decimal(n)[0] == front[0];
      if k > 0 {
        DecimalPlace(n / 10, k - 1);
        assert Decimal(n)[|Decimal(n)| - 1 - k] == front[|front| - 1 - (k - 1)];
        DivTwice(n, Pow10(k - 1));
      }
    }
  }

  lemma DivTwice(n: nat, b: nat)
    requires b > 0
    ensures n / 10 / b == n / (10 * b)
  {
    var q, r := n / 10, n % 10;
    var p, s := q / b, q % b;
    FloorOf(q, b);
    assert n == 10 * (p * b) + (10 * s + r);
    TimesTen(p, b);
    DivUnique(n, 10 * b, p, 10 * s + r);
  }

  lemma FloorOf(n: nat, b: nat)
    requires b > 0
    ensures n == n / b * b + n % b && n % b < b
  {
  }

  lemma TimesTen(p: nat, b: nat)
    ensures 10 * (p * b) == p * (10 * b)
  {
  }

  lemma {:induction false} DecimalDigits(n: nat, k: nat)
    requires k < |Decimal(n)|
    ensures '0' <= Decimal(n)[k] <= '9'
  {
    if n >= 10 && k < |Decimal(n / 10)| {
      DecimalDigits(n / 10, k);
    }
  }

  lemma {:induction false} DecimalInjective(m: nat, n: nat)
    requires Decimal(m) == Decimal(n)
    ensures m == n
  {
    var s, t := Decimal(m), Decimal(n);
    assert Digit(m % 10) == s[|s| - 1] == t[|t| - 1] == Digit(n % 10);
    assert s[..|s| - 1] == t[..|t| - 1];
    if m >= 10 && n >= 10 {
      assert s[..|s| - 1] == Decimal(m / 10) && t[..|t| - 1] == Decimal(n / 10);
      DecimalInjective(m / 10, n / 10);
    } else if m >= 10 {
      DecimalLonger(m);
    } else if n >= 10 {
      DecimalLonger(n);
    }
  }

  lemma DecimalLonger(n: nat)
    requires n >= 10
    ensures |Decimal(n)| >= 2
  {
  }
}
