/** The scaling loop of HumanSize (tools/util.go:21-33); the rounding of the printed quotient is not modelled. */
module HumanSize {

  const INT64_MAX := 0x7fff_ffff_ffff_ffff

  function Power(n: nat): (p: nat)
    ensures p > 0
  {
    if n == 0 then 1 else 1024 * Power(n - 1)
  }

  /** The divisor and the index into "KMGTPE" that fit a byte count. */
  ghost predicate Fits(bytes: int, div: int, exp: nat) {
    div == Power(exp + 1) && div <= bytes < 1024 * div
  }

  lemma {:induction false} PowerMonotone(m: nat, n: nat)
    requires m <= n
    ensures Power(m) <= Power(n)
    decreases n
  {
    if m < n {
      PowerMonotone(m, n - 1);
    }
  }

  lemma PowerSix()
    ensures Power(6) * 1024 > INT64_MAX
  {
    assert Power(1) == 1024;
    assert Power(2) == 1024 * 1024;
    assert Power(3) == 1024 * 1024 * 1024;
    assert Power(4) == 1024 * 1024 * 1024 * 1024;
    assert Power(5) == 1024 * 1024 * 1024 * 1024 * 1024;
    assert Power(6) == 1024 * 1024 * 1024 * 1024 * 1024 * 1024;
  }

  lemma TimesMonotone(a: int, b: int, c: int)
    requires a <= b && c >= 0
    ensures a * c <= b * c
  {
  }

  lemma Thousand(q: int, d: int)
    ensures q * (1024 * d) == 1024 * (q * d)
  {
  }

  /** What a quotient says about the number, one power further on. */
  lemma NextQuotient(bytes: int, div: int, n: int)
    requires div > 0 && n >= 1024 && n * div <= bytes < (n + 1) * div
    ensures (n / 1024) * (1024 * div) <= bytes < (n / 1024 + 1) * (1024 * div)
    ensures 1024 * div <= bytes
  {
    var q := n / 1024;
    Thousand(q, div);
    Thousand(q + 1, div);
    Thousand(1, div);
    TimesMonotone(1024 * q, n, div);
    TimesMonotone(n + 1, 1024 * (q + 1), div);
    TimesMonotone(1024, n, div);
    assert (1024 * q) * div == 1024 * (q * div);
    assert (1024 * (q + 1)) * div == 1024 * ((q + 1) * div);
  }

  /** The loop: no product overflows int64, and the unit index stays within the six letters. */
  method Scale(bytes: int) returns (div: int, exp: nat)
    requires 1024 <= bytes <= INT64_MAX
    ensures Fits(bytes, div, exp) && exp <= 5
  {
    div, exp := 1024, 0;
    var n := bytes / 1024;
    assert Power(1) == 1024 * Power(0);
    while n >= 1024
      invariant div == Power(exp + 1) && div <= bytes
      invariant n >= 1 && n * div <= bytes < (n + 1) * div
      decreases n
    {
      NextQuotient(bytes, div, n);
      div := 1024 * div;
      assert div <= INT64_MAX;
      exp := exp + 1;
      n := n / 1024;
    }
    TimesMonotone(n + 1, 1024, div);
    if exp >= 6 {
      PowerSix();
      PowerMonotone(7, exp + 1);
    }
  }

  /** Scale and quotient grow with the byte count, the unit index first; equal counts have equal scales. */
  lemma ScaleMonotone(b1: int, d1: int, e1: nat, b2: int, d2: int, e2: nat)
    requires Fits(b1, d1, e1) && Fits(b2, d2, e2) && b1 <= b2
    ensures e1 <= e2
    ensures e1 == e2 ==> d1 == d2 && b1 as real / d1 as real <= b2 as real / d2 as real
    ensures b1 == b2 ==> e1 == e2
  {
    if e1 > e2 {
      PowerMonotone(e2 + 2, e1 + 1);
    }
    if b1 == b2 && e1 < e2 {
      PowerMonotone(e1 + 2, e2 + 1);
    }
    if e1 == e2 {
      Divide(b1 as real, b2 as real, d1 as real);
    }
  }

  lemma Divide(x: real, y: real, d: real)
    requires x <= y && d > 0.0
    ensures x / d <= y / d
  {
    assert (y - x) / d >= 0.0;
  }
}
