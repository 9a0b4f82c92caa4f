/**
  Character-level helpers shared by the renderer and the news client:
  decimal printing of integers (Python's `str(int)`) with its parser,
  `sep.join(parts)`, and removal of one character from a string.
 */
module Text {

  predicate IsDigit(c: char) {
    '0' <= c <= '9'
  }

  predicate AllDigits(s: string) {
    forall i :: 0 <= i < |s| ==> IsDigit(s[i])
  }

  function Pow10(k: nat): (p: nat)
    ensures p >= 1
  {
    if k == 0 then 1 else 10 * Pow10(k - 1)
  }

  lemma {:induction false} Pow10Add(a: nat, b: nat)
    ensures Pow10(a) * Pow10(b) == Pow10(a + b)
  {
    if a > 0 {
      Pow10Add(a - 1, b);
      assert Pow10(a) * Pow10(b) == 10 * (Pow10(a - 1) * Pow10(b));
    }
  }

  function DigitValue(c: char): (d: nat)
    requires IsDigit(c)
    ensures d < 10
  {
    c as int - '0' as int
  }

  function DigitChar(d: nat): (c: char)
    requires d < 10
    ensures IsDigit(c) && DigitValue(c) == d
  {
    ('0' as int + d) as char
  }

  /** Decimal digits of `n`, most significant first, without leading zeros. */
  function NatToDecimal(n: nat): (s: string)
    ensures |s| >= 1 && AllDigits(s)
    ensures s[0] == '0' ==> n == 0
    decreases n
  {
    if n < 10 then [DigitChar(n)] else NatToDecimal(n / 10) + [DigitChar(n % 10)]
  }

  /** The value of a string of decimal digits (the empty string reads as 0). */
  function DecimalValue(s: string): nat
    requires AllDigits(s)
  {
    if s == [] then 0 else DecimalValue(s[..|s| - 1]) * 10 + DigitValue(s[|s| - 1])
  }

  lemma {:induction false} DecimalRoundTrip(n: nat)
    ensures DecimalValue(NatToDecimal(n)) == n
  {
    if n >= 10 {
      var s := NatToDecimal(n);
      assert s[..|s| - 1] == NatToDecimal(n / 10);
      DecimalRoundTrip(n / 10);
    }
  }

  /** `NatToDecimal(n)` fits in `k + 1` characters exactly when `n < 10^(k+1)`. */
  lemma {:induction false} DecimalWidth(n: nat, k: nat)
    ensures |NatToDecimal(n)| <= k + 1 <==> n < Pow10(k + 1)
    decreases n
  {
    if n >= 10 && k > 0 {
      DecimalWidth(n / 10, k - 1);
    }
  }

  /** Python's `str(i)` for an integer. */
  function IntToString(i: int): (s: string)
    ensures |s| >= 1
  {
    if i < 0 then "-" + NatToDecimal(-i) else NatToDecimal(i)
  }

  predicate IsIntText(s: string) {
    (|s| >= 2 && s[0] == '-' && AllDigits(s[1..])) || (|s| >= 1 && AllDigits(s))
  }

  /** Python's `int(s)` restricted to an optional minus sign followed by digits. */
  function ParseInt(s: string): int
    requires IsIntText(s)
  {
    if s[0] == '-' then -(DecimalValue(s[1..]) as int) else DecimalValue(s)
  }

  lemma IntRoundTrip(i: int)
    ensures IsIntText(IntToString(i)) && ParseInt(IntToString(i)) == i
  {
    if i < 0 {
      assert IntToString(i)[1..] == NatToDecimal(-i);
      DecimalRoundTrip(-i);
    } else {
      DecimalRoundTrip(i);
    }
  }

  /** Python's `sep.join(parts)`. */
  function Join(sep: string, parts: seq<string>): (r: string)
    ensures parts == [] ==> r == []
  {
    if |parts| == 0 then []
    else if |parts| == 1 then parts[0]
    else Join(sep, parts[..|parts| - 1]) + sep + parts[|parts| - 1]
  }

  /** Joining is associative over any split point: the parts keep their order. */
  lemma {:induction false} JoinSplit(sep: string, parts: seq<string>, k: nat)
    requires 0 < k < |parts|
    ensures Join(sep, parts) == Join(sep, parts[..k]) + sep + Join(sep, parts[k..])
    decreases |parts|
  {
    var n := |parts|;
    if k == n - 1 {
      assert parts[..k] == parts[..n - 1];
      assert parts[k..] == [parts[n - 1]];
    } else {
      var init, tail := parts[..n - 1], parts[k..];
      JoinSplit(sep, init, k);
      assert init[..k] == parts[..k];
      assert tail[..|tail| - 1] == init[k..];
      assert tail[|tail| - 1] == parts[n - 1];
      calc {
        Join(sep, parts);
        Join(sep, init) + sep + parts[n - 1];
        Join(sep, parts[..k]) + sep + Join(sep, init[k..]) + sep + parts[n - 1];
        Join(sep, parts[..k]) + sep + (Join(sep, init[k..]) + sep + parts[n - 1]);
        Join(sep, parts[..k]) + sep + Join(sep, tail);
      }
    }
  }

  /** The texts `f(x)` of the elements of `xs`, in order. */
  function MapTexts<T>(xs: seq<T>, f: T -> string): (texts: seq<string>)
    ensures |texts| == |xs|
    ensures forall i :: 0 <= i < |xs| ==> texts[i] == f(xs[i])
  {
    seq(|xs|, i requires 0 <= i < |xs| => f(xs[i]))
  }

  /** Joining the texts of a concatenation joins the texts of its two parts. */
  lemma JoinMapAppend<T>(sep: string, a: seq<T>, b: seq<T>, f: T -> string)
    requires a != [] && b != []
    ensures Join(sep, MapTexts(a + b, f)) == Join(sep, MapTexts(a, f)) + sep + Join(sep, MapTexts(b, f))
  {
    var texts := MapTexts(a + b, f);
    JoinSplit(sep, texts, |a|);
    assert texts[..|a|] == MapTexts(a, f);
    assert texts[|a|..] == MapTexts(b, f);
  }

  /** Every part non-empty: the joined text is empty exactly when there are no parts. */
  lemma JoinEmptyIff(sep: string, parts: seq<string>)
    requires forall i :: 0 <= i < |parts| ==> parts[i] != []
    ensures Join(sep, parts) == [] <==> parts == []
  {
  }

  /** The texts `f(x)` of the elements of `xs`, concatenated in order. */
  function ConcatMap<T>(xs: seq<T>, f: T -> string): string {
    if xs == [] then "" else ConcatMap(xs[..|xs| - 1], f) + f(xs[|xs| - 1])
  }

  lemma {:induction false} ConcatMapAppend<T>(a: seq<T>, b: seq<T>, f: T -> string)
    ensures ConcatMap(a + b, f) == ConcatMap(a, f) + ConcatMap(b, f)
    decreases |b|
  {
    if b == [] {
      assert a + b == a;
    } else {
      var init := b[..|b| - 1];
      assert (a + b)[..|a + b| - 1] == a + init;
      assert (a + b)[|a + b| - 1] == b[|b| - 1];
      ConcatMapAppend(a, init, f);
    }
  }

  /** Element `i`'s text stands between the texts of the elements before and after it. */
  lemma ConcatMapAt<T>(xs: seq<T>, i: nat, f: T -> string)
    requires i < |xs|
    ensures ConcatMap(xs, f) == ConcatMap(xs[..i], f) + f(xs[i]) + ConcatMap(xs[i + 1..], f)
  {
    var prefix, suffix := xs[..i + 1], xs[i + 1..];
    assert xs == prefix + suffix;
    assert prefix[..i] == xs[..i];
    ConcatMapAppend(prefix, suffix, f);
  }

  /** `s` with every occurrence of `c` deleted (`s.replace(c, "")`). */
  function Without(s: string, c: char): (r: string)
    ensures c !in r
    ensures |r| <= |s|
  {
    if s == [] then []
    else Without(s[..|s| - 1], c) + (if s[|s| - 1] == c then [] else [s[|s| - 1]])
  }

  lemma {:induction false} WithoutAppend(a: string, b: string, c: char)
    ensures Without(a + b, c) == Without(a, c) + Without(b, c)
    decreases |b|
  {
    if b == [] {
      assert a + b == a;
    } else {
      var n := |b|;
      assert (a + b)[..|a + b| - 1] == a + b[..n - 1];
      WithoutAppend(a, b[..n - 1], c);
    }
  }

  /** Deleting `c` from two texts joined by `c` deletes the separator too. */
  lemma WithoutSeparator(a: string, b: string, c: char)
    ensures Without(a + [c] + b, c) == Without(a, c) + Without(b, c)
  {
    var init := a + [c];
    assert init[..|init| - 1] == a && init[|init| - 1] == c;
    assert Without(init, c) == Without(a, c);
    WithoutAppend(init, b, c);
  }

  lemma {:induction false} WithoutAbsent(s: string, c: char)
    requires c !in s
    ensures Without(s, c) == s
    decreases |s|
  {
    if s != [] {
      WithoutAbsent(s[..|s| - 1], c);
    }
  }
}
