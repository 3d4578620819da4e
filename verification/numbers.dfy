/** JavaScript numbers as the split form handles them: parsing typed text with
    `parseFloat`, printing with `toFixed(2)`, and the decimal-input pattern
    `^\d*\.?\d*$` that guards every amount field (src/pages/AddExpense.tsx). */
module Numbers {
  import opened Seqs

  /** A JavaScript number: a finite value or NaN. Values the core can reach are
      never infinite, except as a divisor's quotient, which the aggregator handles. */
  datatype JsNumber = Num(value: real) | NaN

  /** `!x` on a number: NaN and zero are falsy. */
  predicate Falsy(x: JsNumber) {
    x.NaN? || x.value == 0.0
  }

  function Abs(x: real): real {
    if x < 0.0 then -x else x
  }

  /** `a + b` on numbers: NaN is absorbing. */
  function Add(a: JsNumber, b: JsNumber): JsNumber {
    if a.Num? && b.Num? then Num(a.value + b.value) else NaN
  }

  /** `xs.reduce((t, x) => t + x, 0)`. */
  function Sum(xs: seq<JsNumber>): JsNumber {
    if |xs| == 0 then Num(0.0) else Add(xs[0], Sum(xs[1..]))
  }

  predicate AllNum(xs: seq<JsNumber>) {
    forall i :: 0 <= i < |xs| ==> xs[i].Num?
  }

  function Values(xs: seq<JsNumber>): (r: seq<real>)
    requires AllNum(xs)
    ensures |r| == |xs|
    ensures forall i :: 0 <= i < |xs| ==> r[i] == xs[i].value
  {
    if |xs| == 0 then [] else [xs[0].value] + Values(xs[1..])
  }

  /** A total is a number exactly when every term is, and then it is the real sum. */
  lemma AllNumConcat(a: seq<JsNumber>, b: seq<JsNumber>)
    ensures AllNum(a + b) <==> AllNum(a) && AllNum(b)
  {
    if AllNum(a + b) {
      forall i | 0 <= i < |b|
        ensures b[i].Num?
      {
        assert b[i] == (a + b)[i + |a|];
      }
      forall i | 0 <= i < |a|
        ensures a[i].Num?
      {
        assert a[i] == (a + b)[i];
      }
    }
  }

  lemma {:induction false} SumNumeric(xs: seq<JsNumber>)
    ensures Sum(xs).Num? <==> AllNum(xs)
    ensures AllNum(xs) ==> Sum(xs).value == SumReals(Values(xs))
  {
    if |xs| > 0 {
      SumNumeric(xs[1..]);
      if AllNum(xs) {
        assert Values(xs) == [xs[0].value] + Values(xs[1..]);
      } else if xs[0].Num? {
        var i :| 0 <= i < |xs| && xs[i].NaN?;
        assert xs[1..][i - 1] == xs[i];
      }
    }
  }

  // ---------------------------------------------------------------- digits

  predicate IsDigit(c: char) {
    '0' <= c <= '9'
  }

  predicate AllDigits(s: string) {
    forall i :: 0 <= i < |s| ==> IsDigit(s[i])
  }

  function DigitValue(c: char): nat
    requires IsDigit(c)
  {
    (c as int) - ('0' as int)
  }

  function DigitChar(d: nat): (c: char)
    requires d < 10
    ensures IsDigit(c) && DigitValue(c) == d
  {
    (('0' as int) + d) as char
  }

  /** The value of a run of decimal digits, most significant first. */
  function DigitsValue(s: string): nat
    requires AllDigits(s)
  {
    if |s| == 0 then 0 else 10 * DigitsValue(s[..|s| - 1]) + DigitValue(s[|s| - 1])
  }

  function Pow10(k: nat): (p: nat)
    ensures p > 0
  {
    if k == 0 then 1 else 10 * Pow10(k - 1)
  }

  /** Length of the longest prefix of `s` made of digits. */
  function DigitRun(s: string): (n: nat)
    ensures n <= |s|
    ensures AllDigits(s[..n])
    ensures n < |s| ==> !IsDigit(s[n])
  {
    if |s| == 0 || !IsDigit(s[0]) then 0
    else
      var m := DigitRun(s[1..]);
      assert s[..m + 1] == [s[0]] + s[1..][..m];
      m + 1
  }

  /** A digit run followed by a non-digit (or nothing) is exactly the longest digit prefix. */
  lemma DigitRunOf(ds: string, rest: string)
    requires AllDigits(ds)
    requires |rest| == 0 || !IsDigit(rest[0])
    ensures DigitRun(ds + rest) == |ds|
  {
    var s := ds + rest;
    var n := DigitRun(s);
    assert forall i :: 0 <= i < |ds| ==> s[i] == ds[i];
    assert |rest| > 0 ==> s[|ds|] == rest[0];
    assert forall i :: 0 <= i < n ==> s[..n][i] == s[i];
  }

  // ---------------------------------------------------------------- parseFloat

  /** The value of `whole.frac` written in decimal. */
  function Decimal(whole: string, frac: string): real
    requires AllDigits(whole) && AllDigits(frac)
  {
    DigitsValue(whole) as real + DigitsValue(frac) as real / Pow10(|frac|) as real
  }

  /** Digits, an optional '.', digits; parsing stops at the first character that
      does not fit, and with no digit at all the result is NaN. */
  function ParseUnsigned(body: string): JsNumber {
    var n := DigitRun(body);
    var afterWhole := body[n..];
    var m := if |afterWhole| > 0 && afterWhole[0] == '.' then DigitRun(afterWhole[1..]) else 0;
    if n + m == 0 then NaN
    else
      var frac := if m > 0 then afterWhole[1..][..m] else "";
      Num(Decimal(body[..n], frac))
  }

  /** `parseFloat(s)` on text of the form the app's inputs produce: an optional
      sign followed by an unsigned decimal. */
  function ParseFloat(s: string): JsNumber {
    if |s| > 0 && (s[0] == '-' || s[0] == '+') then
      var magnitude := ParseUnsigned(s[1..]);
      if s[0] == '+' || magnitude.NaN? then magnitude else Num(-magnitude.value)
    else ParseUnsigned(s)
  }

  /** A plain run of digits parses to its value. */
  lemma ParseWhole(s: string)
    requires |s| > 0 && AllDigits(s)
    ensures ParseFloat(s) == Num(DigitsValue(s) as real)
  {
    assert IsDigit(s[0]);
    ParseUnsignedWhole(s);
  }

  lemma ParseUnsignedWhole(s: string)
    requires |s| > 0 && AllDigits(s)
    ensures ParseUnsigned(s) == Num(DigitsValue(s) as real)
  {
    DigitRunAll(s);
    assert s[|s|..] == "";
    assert s[..|s|] == s;
    assert Decimal(s, "") == DigitsValue(s) as real by {
      assert DigitsValue("") == 0 && Pow10(0) == 1;
    }
  }

  /** Digits, '.', digits parses to the decimal they spell. */
  lemma ParseDecimal(whole: string, frac: string)
    requires |whole| > 0 && AllDigits(whole) && |frac| > 0 && AllDigits(frac)
    ensures ParseFloat(whole + "." + frac) == Num(Decimal(whole, frac))
  {
    var s := whole + "." + frac;
    assert s == whole + ("." + frac);
    DigitRunOf(whole, "." + frac);
    assert s[|whole|..] == "." + frac;
    assert ("." + frac)[1..] == frac;
    DigitRunAll(frac);
    assert frac[..|frac|] == frac;
    assert s[..|whole|] == whole;
  }

  // ---------------------------------------------------------------- toFixed(2)

  /** The whole number of cents `x.toFixed(2)` denotes: the nearest integer to
      `100 * x`, ties away from zero. */
  function RoundCents(x: real): (c: int)
    ensures 100.0 * x - 0.5 <= c as real <= 100.0 * x + 0.5
    ensures x >= 0.0 ==> 100.0 * x - 0.5 < c as real && c >= 0
    ensures x < 0.0 ==> c as real < 100.0 * x + 0.5 && c <= 0
  {
    if x >= 0.0 then (100.0 * x + 0.5).Floor else -((-100.0 * x + 0.5).Floor)
  }

  /** The rounding is the only integer with its defining properties. */
  lemma RoundCentsUnique(x: real, c: int)
    requires 100.0 * x - 0.5 <= c as real <= 100.0 * x + 0.5
    requires x >= 0.0 ==> 100.0 * x - 0.5 < c as real
    requires x < 0.0 ==> c as real < 100.0 * x + 0.5
    ensures c == RoundCents(x)
  {
    var d := RoundCents(x);
    assert (c - d) as real == c as real - d as real;
  }

  /** The string `toFixed(2)` produces, kept as the number of cents it shows. */
  datatype Fixed2 = Cents(cents: int) | NaNText

  function ToFixed2(x: JsNumber): (f: Fixed2)
    ensures x.NaN? <==> f.NaNText?
    ensures x.Num? ==> f.cents == RoundCents(x.value)
  {
    if x.Num? then Cents(RoundCents(x.value)) else NaNText
  }

  /** Decimal text of a natural number, without leading zeros. */
  function NatText(n: nat): (s: string)
    ensures |s| > 0 && AllDigits(s)
    ensures DigitsValue(s) == n
    decreases n
  {
    if n < 10 then [DigitChar(n)]
    else
      var s := NatText(n / 10) + [DigitChar(n % 10)];
      assert s[..|s| - 1] == NatText(n / 10);
      s
  }

  function CentsText(c: nat): string {
    NatText(c / 100) + "." + [DigitChar(c % 100 / 10), DigitChar(c % 100 % 10)]
  }

  /** The characters of a `Fixed2`. */
  function Text(f: Fixed2): string {
    match f
    case NaNText => "NaN"
    case Cents(c) => if c < 0 then "-" + CentsText(-c) else CentsText(c)
  }

  lemma CentsTextParses(c: nat)
    ensures ParseFloat(CentsText(c)) == Num(c as real / 100.0)
  {
    var whole := NatText(c / 100);
    var frac := [DigitChar(c % 100 / 10), DigitChar(c % 100 % 10)];
    var s := CentsText(c);
    assert s == whole + ("." + frac);
    DigitRunOf(whole, "." + frac);
    assert s[|whole|..] == "." + frac;
    assert ("." + frac)[1..] == frac;
    DigitRunAll(frac);
    assert frac[..2] == frac;
    TwoDigits(c % 100 / 10, c % 100 % 10);
    assert s[..|whole|] == whole;
    assert c == 100 * (c / 100) + c % 100;
    assert (c as real) / 100.0 == (c / 100) as real + (c % 100) as real / 100.0;
  }

  lemma TwoDigits(a: nat, b: nat)
    requires a < 10 && b < 10
    ensures DigitsValue([DigitChar(a), DigitChar(b)]) == 10 * a + b
  {
    var s := [DigitChar(a), DigitChar(b)];
    assert s[..1] == [DigitChar(a)];
    assert s[..1][..0] == [];
    assert DigitsValue(s[..1][..0]) == 0;
    assert DigitsValue(s[..1]) == a;
  }

  /** A leading '-' negates what follows. */
  lemma ParseNegated(t: string)
    requires |t| > 0 && IsDigit(t[0])
    ensures ParseFloat(t).Num? && ParseFloat("-" + t) == Num(-ParseFloat(t).value)
  {
    assert ("-" + t)[1..] == t;
  }

  lemma NegativeCentsParse(c: int)
    requires c < 0
    ensures ParseFloat("-" + CentsText(-c)) == Num(c as real / 100.0)
  {
    var t := CentsText(-c);
    var w := NatText(-c / 100);
    assert t[0] == w[0];
    CentsTextParses(-c);
    ParseNegated(t);
    assert (-c) as real / 100.0 == -(c as real / 100.0);
  }

  /** Reading back what `toFixed(2)` printed (as the split preview's running
      total does) gives exactly the rounded amount, or NaN for "NaN". */
  lemma TextRoundTrip(f: Fixed2)
    ensures f.NaNText? ==> ParseFloat(Text(f)).NaN?
    ensures f.Cents? ==> ParseFloat(Text(f)) == Num(f.cents as real / 100.0)
  {
    match f
    case NaNText =>
      NaNTextParses();
    case Cents(c) =>
      if c < 0 {
        assert Text(f) == "-" + CentsText(-c);
        NegativeCentsParse(c);
      } else {
        assert Text(f) == CentsText(c);
        CentsTextParses(c);
      }
  }

  lemma NaNTextParses()
    ensures ParseFloat("NaN") == NaN
  {
    var s := "NaN";
    assert s[0] == 'N' && !IsDigit(s[0]);
    assert DigitRun(s) == 0;
    assert s[0..] == s;
  }

  // ---------------------------------------------------------------- input validation

  /** The pattern `^\d*\.?\d*$`: digits, at most one '.', digits. */
  predicate IsDecimalInput(s: string) {
    var n := DigitRun(s);
    n == |s| || (s[n] == '.' && DigitRun(s[n + 1..]) == |s| - n - 1)
  }

  /** Every character is a digit or '.'. */
  predicate DigitsAndDots(s: string) {
    forall i :: 0 <= i < |s| ==> IsDigit(s[i]) || s[i] == '.'
  }

  /** No two positions hold a '.'. */
  predicate AtMostOneDot(s: string) {
    forall i, j :: 0 <= i < j < |s| && s[i] == '.' ==> s[j] != '.'
  }

  lemma DigitRunAll(s: string)
    requires AllDigits(s)
    ensures DigitRun(s) == |s|
  {
    DigitRunOf(s, "");
    assert s + "" == s;
  }

  /** The pattern accepts exactly the strings of digits with at most one '.'. */
  lemma DecimalInputIff(s: string)
    ensures IsDecimalInput(s) <==> DigitsAndDots(s) && AtMostOneDot(s)
  {
    var n := DigitRun(s);
    assert forall i :: 0 <= i < n ==> s[..n][i] == s[i];
    if IsDecimalInput(s) && n < |s| {
      var t := s[n + 1..];
      assert forall i :: n < i < |s| ==> s[i] == t[..DigitRun(t)][i - n - 1];
    }
    if DigitsAndDots(s) && AtMostOneDot(s) && n < |s| {
      var t := s[n + 1..];
      assert forall i :: 0 <= i < |t| ==> t[i] == s[n + 1 + i];
      DigitRunAll(t);
    }
  }

  /** `handleAmountChange` / `handleCustomSplitChange`: an edit is stored only
      when it matches the pattern; otherwise the field keeps its value. */
  function AcceptEdit(stored: string, value: string): (r: string)
    ensures DigitsAndDots(value) && AtMostOneDot(value) ==> r == value
    ensures !(DigitsAndDots(value) && AtMostOneDot(value)) ==> r == stored
  {
    DecimalInputIff(value);
    if value == "" || IsDecimalInput(value) then value else stored
  }

  /** Accepted text parses to a non-negative number unless it has no digit at
      all, that is, unless it is "" or "."; those two parse to NaN. */
  lemma ParseDecimalInput(s: string)
    requires IsDecimalInput(s)
    ensures ParseFloat(s).NaN? <==> s == "" || s == "."
    ensures ParseFloat(s).Num? ==> ParseFloat(s).value >= 0.0
  {
    var n := DigitRun(s);
    if n == 0 && |s| > 0 {
      assert s[0] == '.';
      if |s| > 1 {
        assert IsDigit(s[1..][0]);
      } else {
        assert s == ".";
      }
    }
  }
}
