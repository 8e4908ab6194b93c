/** Decimal numbers as Go's strconv reads and fmt prints them. */
module Numbers {
  import opened Wrappers
  import opened Text

  const INT64_MAX := 0x7fff_ffff_ffff_ffff
  const INT64_MIN := -0x8000_0000_0000_0000

  function Natural(digits: string): Option<nat> {
    if digits == "" then Some(0)
    else
      var n := |digits| - 1;
      match Natural(digits[..n])
      case None => None
      case Some(v) => if IsDigit(digits[n]) then Some(10 * v + (digits[n] as int - '0' as int)) else None
  }

  function Clamp(v: int): int {
    if v < INT64_MIN then INT64_MIN else if v > INT64_MAX then INT64_MAX else v
  }

  /**
   The value that strconv.Atoi returns beside its error: zero for a syntax error, the nearest int64 for a
   range error.
   */
  function Atoi(s: string): int {
    var negative := s != "" && s[0] == '-';
    var digits := if s != "" && (s[0] == '-' || s[0] == '+') then s[1..] else s;
    if digits == "" then 0
    else
      match Natural(digits)
      case None => 0
      case Some(v) => Clamp(if negative then 0 - v else v)
  }

  function DecimalNat(n: nat): string {
    var digit := ('0' as int + n % 10) as char;
    if n < 10 then [digit] else DecimalNat(n / 10) + [digit]
  }

  function Decimal(n: int): string {
    if n < 0 then "-" + DecimalNat(-n) else DecimalNat(n)
  }

  lemma {:induction false} NaturalDecimal(n: nat)
    ensures Natural(DecimalNat(n)) == Some(n) && DecimalNat(n) != ""
    ensures forall i :: 0 <= i < |DecimalNat(n)| ==> IsDigit(DecimalNat(n)[i])
    ensures DecimalNat(n)[0] == '0' ==> n == 0
  {
    var s := DecimalNat(n);
    if n >= 10 {
      NaturalDecimal(n / 10);
      assert s[..|s| - 1] == DecimalNat(n / 10);
    } else {
      assert s[..0] == "";
    }
  }

  /** Reading a printed number gives it back, or the nearest int64. */
  lemma AtoiDecimal(n: int)
    ensures Atoi(Decimal(n)) == Clamp(n)
  {
    NaturalDecimal(if n < 0 then -n else n);
    if n < 0 {
      assert Decimal(n)[1..] == DecimalNat(-n);
    }
  }

  function TenTo(n: nat): (p: nat)
    ensures p > 0
  {
    if n == 0 then 1 else 10 * TenTo(n - 1)
  }

  ghost predicate Digits(s: string) {
    forall i :: 0 <= i < |s| ==> '0' <= s[i] <= '9'
  }

  lemma {:induction false} NaturalIff(s: string)
    ensures Natural(s).Some? <==> Digits(s)
  {
    if s != "" {
      NaturalIff(s[..|s| - 1]);
    }
  }

  lemma NaturalLast(s: string)
    requires s != "" && Digits(s)
    ensures Natural(s[..|s| - 1]).Some? && Natural(s).Some?
    ensures Natural(s).value == 10 * Natural(s[..|s| - 1]).value + (s[|s| - 1] as int - '0' as int)
  {
    NaturalIff(s);
  }

  lemma TenTimes(d: int, t: int, v: int, last: int)
    ensures 10 * (d * t + v) + last == d * (10 * t) + (10 * v + last)
  {
  }

  /** The first digit counts most. */
  lemma {:induction false} NaturalFirst(s: string)
    requires s != "" && Digits(s)
    ensures Natural(s).Some? && Natural(s[1..]).Some?
    ensures Natural(s).value == (s[0] as int - '0' as int) * TenTo(|s| - 1) + Natural(s[1..]).value
  {
    var n := |s| - 1;
    NaturalLast(s);
    if n == 0 {
      assert s[..0] == "" && s[1..] == "";
      assert TenTo(0) == 1;
    } else {
      NaturalFirst(s[..n]);
      NaturalLast(s[1..]);
      assert s[..n][1..] == s[1..][..n - 1];
      TenTimes(s[0] as int - '0' as int, TenTo(n - 1), Natural(s[..n][1..]).value, s[n] as int - '0' as int);
    }
  }

  lemma {:induction false} NaturalConcat(a: string, b: string)
    requires Digits(a) && Digits(b)
    ensures Natural(a).Some? && Natural(b).Some? && Natural(a + b).Some?
    ensures Natural(a + b).value == Natural(a).value * TenTo(|b|) + Natural(b).value
  {
    NaturalIff(a);
    NaturalIff(b);
    if b == "" {
      assert a + b == a;
      assert TenTo(0) == 1;
    } else {
      var n := |b| - 1;
      NaturalConcat(a, b[..n]);
      NaturalLast(b);
      NaturalLast(a + b);
      assert (a + b)[..|a + b| - 1] == a + b[..n];
      TenTimes(Natural(a).value, TenTo(n), Natural(b[..n]).value, b[n] as int - '0' as int);
    }
  }

  /** A sign, if there is one, and what follows it. */
  ghost predicate Signed(s: string, negative: bool, digits: string) {
    || (s == "-" + digits && negative)
    || (s == "+" + digits && !negative)
    || (s == digits && !negative && (s == "" || (s[0] != '-' && s[0] != '+')))
  }

  /** Every text: a syntax error gives zero, a range error the nearest int64, anything else the number. */
  lemma AtoiMeaning(s: string, negative: bool, digits: string)
    requires Signed(s, negative, digits)
    ensures digits == "" || !Digits(digits) ==> Atoi(s) == 0
    ensures digits != "" && Digits(digits) ==>
              Natural(digits).Some?
              && var v: int := if negative then 0 - Natural(digits).value else Natural(digits).value;
                 Atoi(s) == if v > 9_223_372_036_854_775_807 then 9_223_372_036_854_775_807
                            else if v < -9_223_372_036_854_775_808 then -9_223_372_036_854_775_808
                            else v
  {
    NaturalIff(digits);
    assert s != "" && s != digits ==> s[1..] == digits;
  }

  lemma DecimalWord(n: int)
    ensures Word(Decimal(n))
  {
    NaturalDecimal(if n < 0 then -n else n);
  }
}
