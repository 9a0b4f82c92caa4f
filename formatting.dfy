/**
  The value-formatting rules of the renderer: the languages cell, the
  population cell, the currency-rates cell and the UTC offset cell.
  Each is a pure function of the data it formats.
 */
module Formatting {
  import opened Text
  import opened Models

  function Abs(x: int): nat {
    if x < 0 then -x else x
  }

  // ---------------------------------------------------------------------
  // Languages: `", ".join(f"{item.name} ({item.native_name})" ...)`
  // ---------------------------------------------------------------------

  function LanguageText(l: Language): string {
    l.name + " (" + l.nativeName + ")"
  }

  function LanguageTexts(langs: seq<Language>): (texts: seq<string>)
    ensures |texts| == |langs|
    ensures forall i :: 0 <= i < |langs| ==> texts[i] == LanguageText(langs[i])
  {
    MapTexts(langs, LanguageText)
  }

  /** The languages cell; it is empty exactly when there are no languages. */
  function FormatLanguages(langs: seq<Language>): (r: string)
    ensures r == [] <==> langs == []
  {
    var texts := LanguageTexts(langs);
    JoinEmptyIff(", ", texts);
    Join(", ", texts)
  }

  lemma FormatLanguagesSingle(l: Language)
    ensures FormatLanguages([l]) == l.name + " (" + l.nativeName + ")"
  {
  }

  /** The cell for a concatenation is the two cells joined by ", ": input order is kept. */
  lemma FormatLanguagesAppend(a: seq<Language>, b: seq<Language>)
    requires a != [] && b != []
    ensures FormatLanguages(a + b) == FormatLanguages(a) + ", " + FormatLanguages(b)
  {
    JoinMapAppend(", ", a, b, LanguageText);
  }

  lemma FormatLanguagesExample()
    ensures FormatLanguages([Language("Russian", "Русский")]) == "Russian (Русский)"
  {
    FormatLanguagesSingle(Language("Russian", "Русский"));
  }

  // ---------------------------------------------------------------------
  // Population: `"{:,}".format(population).replace(",", ".")`
  // ---------------------------------------------------------------------

  /** Inserts '.' between groups of three digits, counting from the right. */
  function GroupThousands(ds: string): string
    decreases |ds|
  {
    if |ds| <= 3 then ds else GroupThousands(ds[..|ds| - 3]) + "." + ds[|ds| - 3..]
  }

  function FormatPopulation(n: int): string {
    (if n < 0 then "-" else "") + GroupThousands(NatToDecimal(Abs(n)))
  }

  /**
    Counted from the right, every fourth character is a '.', and no other
    character is; the length is not a multiple of four, so the first group
    has one to three characters and every later group exactly three.
   */
  ghost predicate GroupedFromRight(s: string) {
    && |s| % 4 != 0
    && forall p :: 0 <= p < |s| ==> (s[p] == '.' <==> (|s| - p) % 4 == 0)
  }

  lemma DigitsHaveNoDot(s: string)
    requires AllDigits(s)
    ensures '.' !in s
  {
  }

  lemma {:induction false} GroupThousandsDots(ds: string)
    requires |ds| >= 1 && '.' !in ds
    ensures GroupedFromRight(GroupThousands(ds))
    decreases |ds|
  {
    if |ds| > 3 {
      var head, tail := ds[..|ds| - 3], ds[|ds| - 3..];
      assert head + tail == ds;
      assert '.' !in head && '.' !in tail;
      GroupThousandsDots(head);
      var t := GroupThousands(head);
      var s := t + "." + tail;
      assert |s| == |t| + 4;
      forall p | 0 <= p < |s|
        ensures s[p] == '.' <==> (|s| - p) % 4 == 0
      {
        if p < |t| {
          assert s[p] == t[p];
          assert (|s| - p) % 4 == (|t| - p) % 4;
        } else if p > |t| {
          assert s[p] == tail[p - |t| - 1];
        }
      }
    }
  }

  lemma {:induction false} GroupThousandsWithout(ds: string)
    requires '.' !in ds
    ensures Without(GroupThousands(ds), '.') == ds
    decreases |ds|
  {
    if |ds| > 3 {
      var head, tail := ds[..|ds| - 3], ds[|ds| - 3..];
      assert head + tail == ds;
      assert '.' !in head && '.' !in tail;
      var t := GroupThousands(head);
      assert GroupThousands(ds) == t + ['.'] + tail;
      WithoutSeparator(t, tail, '.');
      GroupThousandsWithout(head);
      WithoutAbsent(tail, '.');
    } else {
      WithoutAbsent(ds, '.');
    }
  }

  /** Deleting every '.' gives back Python's plain `str(population)`. */
  lemma PopulationDigits(n: int)
    ensures Without(FormatPopulation(n), '.') == IntToString(n)
  {
    var ds := NatToDecimal(Abs(n));
    DigitsHaveNoDot(ds);
    GroupThousandsWithout(ds);
    WithoutAppend(if n < 0 then "-" else "", GroupThousands(ds), '.');
    WithoutAbsent(if n < 0 then "-" else "", '.');
  }

  lemma PopulationGroups(n: nat)
    ensures GroupedFromRight(FormatPopulation(n))
  {
    DigitsHaveNoDot(NatToDecimal(n));
    GroupThousandsDots(NatToDecimal(n));
    assert FormatPopulation(n) == GroupThousands(NatToDecimal(n));
  }

  /** A non-negative population gets a '.' exactly when it reaches a thousand. */
  lemma PopulationSmall(n: nat)
    ensures '.' in FormatPopulation(n) <==> n >= 1000
  {
    var ds := NatToDecimal(n);
    assert FormatPopulation(n) == GroupThousands(ds);
    DecimalWidth(n, 2);
    assert Pow10(3) == 1000;
    if |ds| <= 3 {
      DigitsHaveNoDot(ds);
    } else {
      var t := GroupThousands(ds[..|ds| - 3]);
      assert GroupThousands(ds)[|t|] == '.';
    }
  }

  lemma DigitsOfExamples()
    ensures NatToDecimal(1234567) == "1234567"
    ensures NatToDecimal(1000000) == "1000000"
  {
    assert NatToDecimal(12) == "12";
    assert NatToDecimal(123) == "123";
    assert NatToDecimal(1234) == "1234";
    assert NatToDecimal(12345) == "12345";
    assert NatToDecimal(123456) == "123456";
    assert NatToDecimal(10) == "10";
    assert NatToDecimal(100) == "100";
    assert NatToDecimal(1000) == "1000";
    assert NatToDecimal(10000) == "10000";
    assert NatToDecimal(100000) == "100000";
  }

  lemma GroupingOfExamples()
    ensures GroupThousands("1234567") == "1.234.567"
    ensures GroupThousands("1000000") == "1.000.000"
  {
    assert GroupThousands("1234") == "1.234";
    var ds: string := "1234567";
    assert ds[..4] == "1234" && ds[4..] == "567";
    assert GroupThousands("1000") == "1.000";
    var zs: string := "1000000";
    assert zs[..4] == "1000" && zs[4..] == "000";
  }

  lemma PopulationExampleGrouped()
    ensures FormatPopulation(1234567) == "1.234.567"
  {
    DigitsOfExamples();
    GroupingOfExamples();
  }

  lemma PopulationExampleMillion()
    ensures FormatPopulation(1000000) == "1.000.000"
    ensures FormatPopulation(0) == "0"
  {
    DigitsOfExamples();
    GroupingOfExamples();
  }

  // ---------------------------------------------------------------------
  // Currency rates:
  // `f"{code} = {Decimal(rate).quantize(Decimal('.01'), ROUND_HALF_UP)} руб."`
  // ---------------------------------------------------------------------

  /** `u / d` rounded to the nearest integer, a half rounded up. */
  function HalfUpQuotient(u: nat, d: nat): nat
    requires d >= 1
  {
    if 2 * (u % d) >= d then u / d + 1 else u / d
  }

  /** The rate quantized to hundredths, halves rounded away from zero, in hundredths. */
  function RoundCents(r: Rate): int {
    if r.scale <= 2 then r.units * Pow10(2 - r.scale)
    else
      var k := HalfUpQuotient(Abs(r.units), Pow10(r.scale - 2));
      if r.units < 0 then -(k as int) else k
  }

  lemma HalfUp(u: nat, d: nat)
    requires d >= 1
    ensures var k := HalfUpQuotient(u, d);
            && 2 * Abs(k * d - u) <= d
            && (2 * Abs(k * d - u) == d ==> k * d > u)
  {
    var q, rem := u / d, u % d;
    assert u == q * d + rem;
    assert (q + 1) * d == q * d + d;
  }

  lemma RoundCentsExact(r: Rate)
    requires r.scale <= 2
    ensures RoundCents(r) * Pow10(r.scale) == 100 * r.units
  {
    var f, den := Pow10(2 - r.scale), Pow10(r.scale);
    Pow10Add(2 - r.scale, r.scale);
    assert Pow10(2) == 100;
    calc {
      RoundCents(r) * den;
      (r.units * f) * den;
      r.units * (f * den);
      r.units * 100;
    }
  }

  lemma ScaleByHundred(k: int, d: int)
    ensures k * (100 * d) == 100 * (k * d)
    ensures (-k) * (100 * d) == -(100 * (k * d))
  {
  }

  /** Half-up rounding of the magnitude, scaled by a hundred and signed, stays half-up. */
  lemma SignedScale(units: int, k: nat, d: nat, c: int, den: nat)
    requires d >= 1 && den == 100 * d
    requires c == if units < 0 then -(k as int) else k
    requires 2 * Abs(k * d - Abs(units)) <= d
    requires 2 * Abs(k * d - Abs(units)) == d ==> k * d > Abs(units)
    ensures 2 * Abs(c * den - 100 * units) <= den
    ensures 2 * Abs(c * den - 100 * units) == den ==> Abs(c) * den > 100 * Abs(units)
  {
    ScaleByHundred(k, d);
    var kd, u := k * d, Abs(units);
    var e := kd - u;
    assert Abs(c) * den == 100 * kd;
    if units < 0 {
      assert c * den == -(100 * kd);
      assert c * den - 100 * units == -(100 * e);
    } else {
      assert c * den == 100 * kd;
      assert c * den - 100 * units == 100 * e;
    }
    assert Abs(c * den - 100 * units) == 100 * Abs(e);
  }

  lemma Pow10Hundred(k: nat)
    requires k >= 2
    ensures Pow10(k) == 100 * Pow10(k - 2)
  {
    assert Pow10(k) == 10 * Pow10(k - 1);
    assert Pow10(k - 1) == 10 * Pow10(k - 2);
  }

  lemma RoundCentsInexact(r: Rate)
    requires r.scale > 2
    ensures var c, den := RoundCents(r), Pow10(r.scale);
            && 2 * Abs(c * den - 100 * r.units) <= den
            && (2 * Abs(c * den - 100 * r.units) == den ==> Abs(c) * den > 100 * Abs(r.units))
  {
    var d, u := Pow10(r.scale - 2), Abs(r.units);
    Pow10Hundred(r.scale);
    HalfUp(u, d);
    var k := HalfUpQuotient(u, d);
    SignedScale(r.units, k, d, RoundCents(r), Pow10(r.scale));
  }

  /**
    The rounded amount is within half a hundredth of the rate, a tie goes
    away from zero, and the sign is kept: this is ROUND_HALF_UP.
   */
  lemma RoundCentsSpec(r: Rate)
    ensures var c, den := RoundCents(r), Pow10(r.scale);
            && 2 * Abs(c * den - 100 * r.units) <= den
            && (2 * Abs(c * den - 100 * r.units) == den ==> Abs(c) * den > 100 * Abs(r.units))
            && (r.units >= 0 ==> c >= 0)
            && (r.units <= 0 ==> c <= 0)
  {
    if r.scale <= 2 {
      RoundCentsExact(r);
    } else {
      RoundCentsInexact(r);
    }
  }

  /** Hundredths `m` printed as Decimal prints a value with exponent -2. */
  function CentsText(m: nat): string {
    NatToDecimal(m / 100) + "." + [DigitChar(m % 100 / 10), DigitChar(m % 10)]
  }

  /** Hundredths `c` printed after a '-' when `negative` holds. */
  function SignedCentsText(negative: bool, c: int): string {
    (if negative then "-" else "") + CentsText(Abs(c))
  }

  /** The quantized rate as Decimal prints it; a negative rate keeps its '-' even at zero. */
  function AmountText(r: Rate): string {
    SignedCentsText(r.units < 0, RoundCents(r))
  }

  function CurrencyText(code: string, r: Rate): string {
    code + " = " + AmountText(r) + " руб."
  }

  function EntryText(entry: (string, Rate)): string {
    CurrencyText(entry.0, entry.1)
  }

  function CurrencyTexts(rates: seq<(string, Rate)>): (texts: seq<string>)
    ensures |texts| == |rates|
    ensures forall i :: 0 <= i < |rates| ==> texts[i] == CurrencyText(rates[i].0, rates[i].1)
  {
    MapTexts(rates, EntryText)
  }

  /** The currency cell; it is empty exactly when there are no rates. */
  function FormatCurrencyRates(rates: seq<(string, Rate)>): (r: string)
    ensures r == [] <==> rates == []
  {
    var texts := CurrencyTexts(rates);
    JoinEmptyIff(", ", texts);
    Join(", ", texts)
  }

  lemma FormatCurrencyRatesAppend(a: seq<(string, Rate)>, b: seq<(string, Rate)>)
    requires a != [] && b != []
    ensures FormatCurrencyRates(a + b) == FormatCurrencyRates(a) + ", " + FormatCurrencyRates(b)
  {
    JoinMapAppend(", ", a, b, EntryText);
  }

  lemma FormatCurrencyRatesSingle(code: string, r: Rate)
    ensures FormatCurrencyRates([(code, r)]) == code + " = " + AmountText(r) + " руб."
  {
  }

  lemma DecimalAppend(s: string, c: char)
    requires AllDigits(s) && IsDigit(c)
    ensures AllDigits(s + [c]) && DecimalValue(s + [c]) == DecimalValue(s) * 10 + DigitValue(c)
  {
    assert (s + [c])[..|s|] == s;
  }

  /** The digits of `CentsText(m)` once the point is removed. */
  lemma CentsTextWithoutPoint(m: nat)
    ensures Without(CentsText(m), '.')
            == NatToDecimal(m / 100) + [DigitChar(m % 100 / 10), DigitChar(m % 10)]
  {
    var whole, frac := NatToDecimal(m / 100), [DigitChar(m % 100 / 10), DigitChar(m % 10)];
    assert CentsText(m) == whole + ['.'] + frac;
    DigitsHaveNoDot(whole);
    WithoutSeparator(whole, frac, '.');
    WithoutAbsent(whole, '.');
    WithoutAbsent(frac, '.');
  }

  lemma CentsTextValue(m: nat)
    ensures AllDigits(Without(CentsText(m), '.'))
    ensures DecimalValue(Without(CentsText(m), '.')) == m
  {
    var whole, d1, d0 := NatToDecimal(m / 100), DigitChar(m % 100 / 10), DigitChar(m % 10);
    CentsTextWithoutPoint(m);
    DecimalRoundTrip(m / 100);
    DecimalAppend(whole, d1);
    DecimalAppend(whole + [d1], d0);
    assert whole + [d1] + [d0] == whole + [d1, d0];
    assert (m / 100 * 10 + m % 100 / 10) * 10 + m % 10 == m;
  }

  /**
    `CentsText(m)` has exactly two digits after its only '.', and with the
    point removed its digits spell `m`.
   */
  lemma CentsTextMeaning(m: nat)
    ensures var s := CentsText(m);
            && |s| >= 4 && s[|s| - 3] == '.' && '.' !in s[..|s| - 3]
            && IsDigit(s[|s| - 2]) && IsDigit(s[|s| - 1])
            && AllDigits(Without(s, '.'))
            && DecimalValue(Without(s, '.')) == m
  {
    var s, whole := CentsText(m), NatToDecimal(m / 100);
    assert s[..|s| - 3] == whole;
    DigitsHaveNoDot(whole);
    CentsTextValue(m);
  }

  /** `r` as printed, read back as a signed number of hundredths. */
  ghost predicate ReadsAsCents(a: string, c: int) {
    && |a| >= 1
    && var unsigned := if a[0] == '-' then a[1..] else a;
       && AllDigits(Without(unsigned, '.'))
       && (if a[0] == '-' then -(DecimalValue(Without(unsigned, '.')) as int)
           else DecimalValue(Without(unsigned, '.'))) == c
  }

  lemma RoundCentsSign(r: Rate)
    ensures r.units >= 0 ==> RoundCents(r) >= 0
    ensures r.units <= 0 ==> RoundCents(r) <= 0
  {
    if r.scale <= 2 {
      RoundCentsExact(r);
    }
  }

  /** Hundredths printed without a sign read back as themselves. */
  lemma UnsignedCentsText(m: nat)
    ensures var s := CentsText(m);
            && |s| >= 4 && s[0] != '-' && ReadsAsCents(s, m)
  {
    var s := CentsText(m);
    CentsTextMeaning(m);
    assert s[0] == NatToDecimal(m / 100)[0];
  }

  /** Hundredths printed after a '-' read back as their negation. */
  lemma NegativeCentsText(m: nat)
    ensures var a := "-" + CentsText(m);
            && |a| >= 5 && a[|a| - 3] == '.' && '.' !in a[..|a| - 3]
            && IsDigit(a[|a| - 2]) && IsDigit(a[|a| - 1])
            && ReadsAsCents(a, -(m as int))
  {
    var s := CentsText(m);
    var a := "-" + s;
    CentsTextMeaning(m);
    assert a[1..] == s;
    assert a[..|a| - 3] == "-" + s[..|s| - 3];
  }

  /** A signed cent amount whose sign agrees with `negative` reads back as itself. */
  lemma SignedCentsTextMeaning(negative: bool, c: int)
    requires negative ==> c <= 0
    requires !negative ==> c >= 0
    ensures var a := SignedCentsText(negative, c);
            && |a| >= 4 && a[|a| - 3] == '.' && '.' !in a[..|a| - 3]
            && IsDigit(a[|a| - 2]) && IsDigit(a[|a| - 1])
            && (a[0] == '-' <==> negative)
            && ReadsAsCents(a, c)
  {
    CentsTextMeaning(Abs(c));
    if negative {
      NegativeCentsText(Abs(c));
    } else {
      UnsignedCentsText(Abs(c));
      assert SignedCentsText(negative, c) == CentsText(Abs(c));
    }
  }

  /**
    The printed amount has exactly two digits after its only '.', carries a
    '-' exactly for a negative rate, and reads back as the rounded hundredths.
   */
  lemma AmountTextMeaning(r: Rate)
    ensures var a := AmountText(r);
            && |a| >= 4 && a[|a| - 3] == '.' && '.' !in a[..|a| - 3]
            && IsDigit(a[|a| - 2]) && IsDigit(a[|a| - 1])
            && (a[0] == '-' <==> r.units < 0)
            && ReadsAsCents(a, RoundCents(r))
  {
    var c := RoundCents(r);
    assert AmountText(r) == SignedCentsText(r.units < 0, c);
    RoundCentsSign(r);
    SignedCentsTextMeaning(r.units < 0, c);
  }

  /** A tie rounds up: 12.345 is printed as 12.35. */
  lemma CurrencyExampleTie()
    ensures CurrencyText("USD", Rate(12345, 3)) == "USD = 12.35 руб."
  {
    assert Pow10(1) == 10;
    assert RoundCents(Rate(12345, 3)) == 1235;
    assert NatToDecimal(12) == "12";
    assert CentsText(1235) == "12.35";
  }

  lemma CurrencyExampleBelowTie()
    ensures CurrencyText("USD", Rate(12344, 3)) == "USD = 12.34 руб."
  {
    assert Pow10(1) == 10;
    assert RoundCents(Rate(12344, 3)) == 1234;
    assert NatToDecimal(12) == "12";
    assert CentsText(1234) == "12.34";
  }

  // ---------------------------------------------------------------------
  // UTC offset: `f"UTC+{timezone // 3600}"`
  // ---------------------------------------------------------------------

  function TimezoneText(timezone: int): string {
    "UTC+" + IntToString(timezone / 3600)
  }

  /**
    After "UTC+" comes an integer `h` with `h * 3600 <= timezone < (h + 1) * 3600`:
    the offset in hours rounded down, as Python's `//` does.
   */
  lemma TimezoneTextMeaning(timezone: int)
    ensures var v := TimezoneText(timezone);
            && |v| > 4 && v[..4] == "UTC+" && IsIntText(v[4..])
            && var h := ParseInt(v[4..]);
               h * 3600 <= timezone < h * 3600 + 3600
  {
    var v := TimezoneText(timezone);
    assert v[4..] == IntToString(timezone / 3600);
    IntRoundTrip(timezone / 3600);
  }

  lemma TimezoneExamples()
    ensures TimezoneText(10800) == "UTC+3"
    ensures TimezoneText(-18000) == "UTC+-5"
    ensures TimezoneText(-1) == "UTC+-1"
  {
  }
}
