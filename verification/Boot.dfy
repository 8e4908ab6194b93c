/** systemd timespans (tools/analyze.go:14-56); seconds are exact rationals. */
module Boot {
  import opened Wrappers
  import opened Text
  import opened Numbers

  // ---------------------------------------------------------------- timespans

  datatype Unit = Ns | Us | Ms | S | Min | H | D | W | Month | Y

  function UnitText(u: Unit): string {
    match u
    case Ns => "ns"
    case Us => "us"
    case Ms => "ms"
    case S => "s"
    case Min => "min"
    case H => "h"
    case D => "d"
    case W => "w"
    case Month => "month"
    case Y => "y"
  }

  function Seconds(u: Unit): real {
    match u
    case Ns => 0.000000001
    case Us => 0.000001
    case Ms => 0.001
    case S => 1.0
    case Min => 60.0
    case H => 3600.0
    case D => 86400.0
    case W => 604800.0
    case Month => 2592000.0
    case Y => 31536000.0
  }

  /** The unit table. */
  function UnitOf(s: string): Option<Unit> {
    if s == "ns" then Some(Ns)
    else if s == "us" then Some(Us)
    else if s == "ms" then Some(Ms)
    else if s == "s" then Some(S)
    else if s == "min" then Some(Min)
    else if s == "h" then Some(H)
    else if s == "d" then Some(D)
    else if s == "w" then Some(W)
    else if s == "month" then Some(Month)
    else if s == "y" then Some(Y)
    else None
  }

  predicate NumberChar(c: char) {
    c == '.' || IsDigit(c)
  }

  /** The length of the leading run of digits and dots. */
  function NumberLength(s: string): (n: nat)
    ensures n <= |s|
  {
    if s == "" || !NumberChar(s[0]) then 0 else 1 + NumberLength(s[1..])
  }

  function PowerOfTen(n: nat): (p: real)
    ensures p > 0.0
  {
    TenTo(n) as real
  }

  /** The number with `f` in the last `places` digits, behind the dot. */
  function Joined(w: nat, f: nat, places: nat): real {
    w as real + f as real / PowerOfTen(places)
  }

  /** strconv.ParseFloat on digits and dots: at most one dot, at least one digit. */
  function Number(s: string): Option<real> {
    match Cut(s, '.')
    case None =>
      if s == "" then None
      else (match Natural(s) case None => None case Some(v) => Some(v as real))
    case Some((whole, frac)) =>
      if whole + frac == "" then None
      else
        match (Natural(whole), Natural(frac))
        case (Some(w), Some(f)) => Some(Joined(w, f, |frac|))
        case _ => None
  }

  /** One token: a number directly followed by a unit. */
  function TokenSeconds(token: string): Option<real> {
    var idx := NumberLength(token);
    if idx == 0 then None else Worth(Number(token[..idx]), UnitOf(token[idx..]))
  }

  /** A number of units in seconds, if both could be read. */
  function Worth(num: Option<real>, unit: Option<Unit>): Option<real> {
    if num.None? || unit.None? then None else Some(num.value * Seconds(unit.value))
  }

  function Plus(a: Option<real>, b: Option<real>): Option<real> {
    if a.Some? && b.Some? then Some(a.value + b.value) else None
  }

  /** The sum over all tokens of what `value` makes of each; it fails if one does. */
  function Sum(value: string -> Option<real>, tokens: seq<string>): Option<real> {
    if tokens == [] then Some(0.0) else Plus(Sum(value, tokens[..|tokens| - 1]), value(tokens[|tokens| - 1]))
  }

  /** parseTimespan; None stands for its error. */
  function Timespan(text: string): Option<real> {
    if Trim(text) == "" then None else Sum(TokenSeconds, Fields(Trim(text)))
  }

  lemma {:induction false} SumConcat(value: string -> Option<real>, a: seq<string>, b: seq<string>)
    ensures Sum(value, a + b) == Plus(Sum(value, a), Sum(value, b))
  {
    if b == [] {
      assert a + b == a;
    } else {
      assert (a + b)[..|a + b| - 1] == a + b[..|b| - 1];
      SumConcat(value, a, b[..|b| - 1]);
    }
  }

  /** A failing token makes the whole sum fail. */
  lemma SumFails(value: string -> Option<real>, tokens: seq<string>, i: nat)
    requires i < |tokens| && value(tokens[i]).None?
    ensures Sum(value, tokens).None?
  {
    SumNext(value, tokens, i);
    SumConcat(value, tokens[..i + 1], tokens[i + 1..]);
    assert tokens[..i + 1] + tokens[i + 1..] == tokens;
  }

  lemma SumNext(value: string -> Option<real>, tokens: seq<string>, i: nat)
    requires i < |tokens|
    ensures Sum(value, tokens[..i + 1]) == Plus(Sum(value, tokens[..i]), value(tokens[i]))
  {
    assert tokens[..i + 1][..i] == tokens[..i];
  }

  /** The body of the token loop. */
  method ParseToken(token: string) returns (seconds: Option<real>)
    ensures seconds == TokenSeconds(token)
  {
    var idx := 0;
    while idx < |token| && NumberChar(token[idx])
      invariant idx <= |token| && NumberLength(token) == idx + NumberLength(token[idx..])
    {
      idx := idx + 1;
    }
    assert NumberLength(token[idx..]) == 0;
    if idx == 0 {
      return None;
    }
    var num := Number(token[..idx]);
    if num.None? {
      return None;
    }
    var unit := UnitOf(token[idx..]);
    if unit.None? {
      return None;
    }
    seconds := Worth(num, unit);
  }

  method ParseTimespan(text: string) returns (seconds: Option<real>)
    ensures seconds == Timespan(text)
  {
    var s := Trim(text);
    if s == "" {
      return None;
    }
    var tokens, total := Fields(s), 0.0;
    ghost var value := TokenSeconds;
    assert Timespan(text) == Sum(value, tokens);
    for i := 0 to |tokens|
      invariant Sum(value, tokens[..i]) == Some(total)
    {
      SumNext(value, tokens, i);
      var v := ParseToken(tokens[i]);
      if v.None? {
        SumFails(value, tokens, i);
        return None;
      }
      total := total + v.value;
    }
    assert tokens[..|tokens|] == tokens;
    seconds := Some(total);
  }

  lemma {:induction false} FieldsTrimLeft(s: string)
    ensures Fields(TrimLeft(s)) == Fields(s)
  {
    if s != "" && IsSpace(s[0]) {
      FieldsTrimLeft(s[1..]);
    }
  }

  lemma {:induction false} FieldsTrimRight(s: string)
    ensures Fields(TrimRight(s)) == Fields(s)
  {
    if s != "" && IsSpace(s[|s| - 1]) {
      var n := |s| - 1;
      FieldsTrimRight(s[..n]);
      FieldsConcat(s[..n], s[n], "");
      assert s[..n] + [s[n]] + "" == s;
    }
  }

  /** Trimming does not change the fields, and leaves nothing exactly if there are none. */
  lemma FieldsTrim(s: string)
    ensures Fields(Trim(s)) == Fields(s) && (Trim(s) == "" <==> Fields(s) == [])
  {
    FieldsTrimLeft(s);
    FieldsTrimRight(TrimLeft(s));
    TrimmedEnds(TrimLeft(s));
  }

  lemma {:induction false} TrimmedEnds(s: string)
    ensures var t := TrimRight(s); t != "" ==> Fields(t) != []
  {
    if s != "" {
      if IsSpace(s[|s| - 1]) {
        TrimmedEnds(s[..|s| - 1]);
      } else {
        LastFieldExists(s);
      }
    }
  }

  lemma {:induction false} LastFieldExists(s: string)
    requires s != "" && !IsSpace(s[|s| - 1])
    ensures Fields(s) != []
  {
    if IsSpace(s[0]) {
      LastFieldExists(s[1..]);
    }
  }

  /** Parsing is additive: two timespans written after each other mean their sum, and fail if either fails. */
  lemma TimespanAdditive(a: string, b: string)
    requires Trim(a) != "" && Trim(b) != ""
    ensures Timespan(a + " " + b) == Plus(Timespan(a), Timespan(b))
  {
    var both := a + " " + b;
    FieldsTrim(a);
    FieldsTrim(b);
    FieldsTrim(both);
    FieldsConcat(a, ' ', b);
    SumConcat(TokenSeconds, Fields(a), Fields(b));
  }

  /** A printed token: whole part, digits after the dot if any, unit. */
  datatype Amount = Amount(whole: nat, frac: string, unit: Unit)

  ghost predicate AmountOk(a: Amount) {
    forall i :: 0 <= i < |a.frac| ==> IsDigit(a.frac[i])
  }

  function NumberText(a: Amount): string {
    DecimalNat(a.whole) + if a.frac == "" then "" else "." + a.frac
  }

  function PrintAmount(a: Amount): string {
    NumberText(a) + UnitText(a.unit)
  }

  lemma {:induction false} NaturalOfDigits(s: string)
    requires forall i :: 0 <= i < |s| ==> IsDigit(s[i])
    ensures Natural(s).Some?
  {
    if s != "" {
      NaturalOfDigits(s[..|s| - 1]);
    }
  }

  function Fraction(digits: string): real {
    match Natural(digits)
    case Some(f) => f as real / PowerOfTen(|digits|)
    case None => 0.0
  }

  function AmountSeconds(a: Amount): real {
    (a.whole as real + Fraction(a.frac)) * Seconds(a.unit)
  }

  lemma {:induction false} NumberLengthOf(s: string, rest: string)
    requires (forall i :: 0 <= i < |s| ==> NumberChar(s[i])) && (rest == "" || !NumberChar(rest[0]))
    ensures NumberLength(s + rest) == |s|
  {
    if s == "" {
      assert s + rest == rest;
    } else {
      assert (s + rest)[1..] == s[1..] + rest;
      NumberLengthOf(s[1..], rest);
    }
  }

  lemma UnitRead(u: Unit)
    ensures UnitOf(UnitText(u)) == Some(u)
    ensures Word(UnitText(u)) && !NumberChar(UnitText(u)[0])
  {
    var t := UnitText(u);
    assert |t| == match u
                  case S => 1 case H => 1 case D => 1 case W => 1 case Y => 1
                  case Min => 3 case Month => 5 case _ => 2;
  }

  lemma NumberRead(a: Amount)
    requires AmountOk(a)
    ensures Number(NumberText(a)) == Some(a.whole as real + Fraction(a.frac))
    ensures forall i :: 0 <= i < |NumberText(a)| ==> NumberChar(NumberText(a)[i])
    ensures NumberText(a) != ""
  {
    NaturalDecimal(a.whole);
    var w := DecimalNat(a.whole);
    if a.frac == "" {
      assert NumberText(a) == w;
      CutNone(w, '.');
      assert Fraction("") == 0.0;
    } else {
      NaturalOfDigits(a.frac);
      assert NumberText(a) == w + ['.'] + a.frac;
      CutAt(w, '.', a.frac);
    }
  }

  lemma TokenSplit(num: string, unit: string)
    requires num != "" && (forall i :: 0 <= i < |num| ==> NumberChar(num[i])) && (unit == "" || !NumberChar(unit[0]))
    ensures TokenSeconds(num + unit) == Worth(Number(num), UnitOf(unit))
  {
    NumberLengthOf(num, unit);
    assert (num + unit)[..|num|] == num && (num + unit)[|num|..] == unit;
  }

  lemma AmountWord(a: Amount)
    requires AmountOk(a)
    ensures Word(PrintAmount(a))
  {
    NumberRead(a);
    UnitRead(a.unit);
  }

  lemma TokenRead(a: Amount)
    requires AmountOk(a)
    ensures TokenSeconds(PrintAmount(a)) == Some(AmountSeconds(a))
  {
    NumberRead(a);
    UnitRead(a.unit);
    var num, unit := NumberText(a), UnitText(a.unit);
    TokenSplit(num, unit);
    WorthOf(Number(num), UnitOf(unit), a);
  }

  lemma WorthOf(num: Option<real>, unit: Option<Unit>, a: Amount)
    requires num == Some(a.whole as real + Fraction(a.frac)) && unit == Some(a.unit)
    ensures Worth(num, unit) == Some(AmountSeconds(a))
  {
  }

  function PrintAmounts(amounts: seq<Amount>): seq<string> {
    seq(|amounts|, i requires 0 <= i < |amounts| => PrintAmount(amounts[i]))
  }

  function Total(values: seq<real>): real {
    if values == [] then 0.0 else Total(values[..|values| - 1]) + values[|values| - 1]
  }

  /** The exact value of a list of amounts. */
  function SumAmounts(amounts: seq<Amount>): real {
    Total(seq(|amounts|, i requires 0 <= i < |amounts| => AmountSeconds(amounts[i])))
  }

  lemma {:induction false} SumIsTotal(value: string -> Option<real>, tokens: seq<string>, values: seq<real>)
    requires |tokens| == |values| && forall i :: 0 <= i < |tokens| ==> value(tokens[i]) == Some(values[i])
    ensures Sum(value, tokens) == Some(Total(values))
  {
    if tokens != [] {
      var n := |tokens| - 1;
      SumIsTotal(value, tokens[..n], values[..n]);
    }
  }

  /** Printing amounts and parsing the text gives their exact sum. */
  lemma TimespanRoundTrip(amounts: seq<Amount>)
    requires amounts != [] && forall a :: a in amounts ==> AmountOk(a)
    ensures Timespan(Join(PrintAmounts(amounts), " ")) == Some(SumAmounts(amounts))
  {
    var tokens := PrintAmounts(amounts);
    var values := seq(|amounts|, i requires 0 <= i < |amounts| => AmountSeconds(amounts[i]));
    forall i | 0 <= i < |amounts| ensures TokenSeconds(tokens[i]) == Some(values[i]) && Word(tokens[i]) {
      assert amounts[i] in amounts;
      TokenRead(amounts[i]);
      AmountWord(amounts[i]);
    }
    SumIsTotal(TokenSeconds, tokens, values);
    FieldsJoin(tokens);
    FieldsTrim(Join(tokens, " "));
  }

  // ---------------------------------------------------------------- which texts are read, and as what

  /** Digits with at most one dot: `w` before it, `f` behind it, at least one digit in all. */
  ghost predicate NumberForm(s: string, w: string, f: string) {
    Digits(w) && Digits(f) && w + f != "" && (s == w + "." + f || (f == "" && s == w))
  }

  lemma ShiftDot(w: real, f: real, p: real)
    requires p > 0.0
    ensures (w + f / p) * p == w * p + f
  {
    assert f / p * p == f;
  }

  lemma NumberWhole(w: string)
    requires Digits(w) && w != ""
    ensures Natural(w).Some? && Number(w) == Some(Natural(w).value as real)
  {
    NaturalIff(w);
    CutNone(w, '.');
  }

  lemma NumberDotted(w: string, f: string)
    requires Digits(w) && Digits(f) && w + f != ""
    ensures Natural(w).Some? && Natural(f).Some?
    ensures Number(w + "." + f) == Some(Joined(Natural(w).value, Natural(f).value, |f|))
  {
    NaturalIff(w);
    NaturalIff(f);
    CutAt(w, '.', f);
  }

  /** The dot moved behind the last digit multiplies by a power of ten. */
  lemma NumberMeaning(w: string, f: string)
    requires Digits(w) && Digits(f) && w + f != ""
    ensures Number(w + "." + f).Some? && Natural(w + f).Some?
    ensures Moved(Number(w + "." + f).value, |f|) == Natural(w + f).value as real
  {
    NumberDotted(w, f);
    NaturalConcat(w, f);
    Shifted(Natural(w).value, Natural(f).value, |f|, Natural(w + f).value);
  }

  /** The number with its dot moved to the right. */
  function Moved(x: real, places: nat): real {
    x * TenTo(places) as real
  }

  lemma Shifted(w: nat, f: nat, places: nat, v: nat)
    requires v == w * TenTo(places) + f
    ensures Moved(Joined(w, f, places), places) == v as real
  {
    var t := TenTo(places);
    ShiftDot(w as real, f as real, t as real);
    assert (w * t) as real == w as real * t as real;
  }

  lemma {:induction false} CutForm(s: string, sep: char)
    ensures match Cut(s, sep)
            case Some((a, b)) => s == a + [sep] + b
            case None => sep !in s
  {
    if s != "" {
      CutForm(s[1..], sep);
      assert s == [s[0]] + s[1..];
    }
  }

  lemma NumberIff(s: string)
    ensures Number(s).Some? <==> exists w, f :: NumberForm(s, w, f)
  {
    if w, f :| NumberForm(s, w, f) {
      if s == w + "." + f {
        NumberDotted(w, f);
      } else {
        NumberWhole(w);
      }
    } else if Number(s).Some? {
      CutForm(s, '.');
      match Cut(s, '.')
      case None =>
        NaturalIff(s);
        assert s + "" == s;
        assert NumberForm(s, s, "");
      case Some((w, f)) =>
        NaturalIff(w);
        NaturalIff(f);
        assert NumberForm(s, w, f);
    }
  }

  ghost predicate UnitName(u: string) {
    || u == "ns" || u == "us" || u == "ms" || u == "s" || u == "min" || u == "h" || u == "d" || u == "w"
    || u == "month" || u == "y"
  }

  /** A number directly followed by a unit. */
  ghost predicate Readable(token: string, w: string, f: string, u: string) {
    UnitName(u) && (token == w + "." + f + u || (f == "" && token == w + u)) && Digits(w) && Digits(f) && w + f != ""
  }

  ghost predicate IsReadable(token: string) {
    exists w, f, u :: Readable(token, w, f, u)
  }

  lemma {:induction false} NumberLengthStops(s: string)
    ensures forall i :: 0 <= i < NumberLength(s) ==> NumberChar(s[i])
    ensures NumberLength(s) < |s| ==> !NumberChar(s[NumberLength(s)])
  {
    if s != "" && NumberChar(s[0]) {
      NumberLengthStops(s[1..]);
    }
  }

  lemma UnitNameIff(u: string)
    ensures UnitOf(u).Some? <==> UnitName(u)
    ensures UnitName(u) ==> u != "" && !NumberChar(u[0])
  {
    if UnitName(u) {
      UnitRead(UnitOf(u).value);
      assert UnitText(UnitOf(u).value) == u;
    }
  }

  /** A token is read exactly if it is a number directly followed by one of the ten units. */
  lemma TokenIff(token: string)
    ensures TokenSeconds(token).Some? <==> IsReadable(token)
  {
    if w, f, u :| Readable(token, w, f, u) {
      var num := if token == w + "." + f + u then w + "." + f else w;
      UnitNameIff(u);
      assert NumberForm(num, w, f);
      NumberIff(num);
      TokenSplit(num, u);
    } else if TokenSeconds(token).Some? {
      var idx := NumberLength(token);
      var num, u := token[..idx], token[idx..];
      NumberIff(num);
      UnitNameIff(u);
      var w, f :| NumberForm(num, w, f);
      assert token == num + u;
      assert Readable(token, w, f, u);
    }
  }

  lemma {:induction false} SumIff(value: string -> Option<real>, tokens: seq<string>)
    ensures Sum(value, tokens).Some? <==> forall i :: 0 <= i < |tokens| ==> value(tokens[i]).Some?
  {
    if tokens != [] {
      SumIff(value, tokens[..|tokens| - 1]);
    }
  }

  /** A timespan is read exactly if it has a token and every token is read; blank text is an error. */
  lemma TimespanIff(text: string)
    ensures Timespan(text).Some? <==> Fields(text) != [] && forall t :: t in Fields(text) ==> IsReadable(t)
  {
    var tokens := Fields(text);
    FieldsTrim(text);
    SumIff(TokenSeconds, tokens);
    forall i | 0 <= i < |tokens| ensures TokenSeconds(tokens[i]).Some? <==> IsReadable(tokens[i]) {
      TokenIff(tokens[i]);
    }
  }

  /** A timespan of one token means that token. */
  lemma TimespanOne(token: string)
    requires Word(token)
    ensures Timespan(token) == TokenSeconds(token)
  {
    FieldsTrim(token);
    FieldsJoin([token]);
    assert Sum(TokenSeconds, [token][..0]) == Some(0.0);
  }

  lemma UnitWorth(num: string, w: string, f: string, u: string)
    requires NumberForm(num, w, f) && UnitName(u)
    ensures Number(num).Some? && UnitOf(u).Some?
    ensures TokenSeconds(num + u) == Worth(Number(num), UnitOf(u))
  {
    NumberIff(num);
    UnitNameIff(u);
    TokenSplit(num, u);
  }

  /** What each unit multiplies a number by: a month has thirty days, a year 365. */
  lemma UnitTable(num: string, w: string, f: string, u: string)
    requires NumberForm(num, w, f) && UnitName(u)
    ensures Number(num).Some? && TokenSeconds(num + u).Some?
    ensures var x, t := Number(num).value, TokenSeconds(num + u).value;
            && (u == "ns" ==> 1_000_000_000.0 * t == x)
            && (u == "us" ==> 1_000_000.0 * t == x)
            && (u == "ms" ==> 1000.0 * t == x)
            && (u == "s" ==> t == x)
            && (u == "min" ==> t == 60.0 * x)
            && (u == "h" ==> t == 60.0 * 60.0 * x)
            && (u == "d" ==> t == 24.0 * 3600.0 * x)
            && (u == "w" ==> t == 7.0 * 86400.0 * x)
            && (u == "month" ==> t == 30.0 * 86400.0 * x)
            && (u == "y" ==> t == 365.0 * 86400.0 * x)
  {
    UnitWorth(num, w, f, u);
  }
}
