/**
 `formatFileSize`: a byte count as "<value> <unit>", where the unit is the
 largest power of 1024 not above the count and the value is rounded to two
 decimals with trailing zeros dropped.

 The source computes the unit index with floating-point logarithms and the
 value with `toFixed(2)` and `parseFloat`; this module states the integer
 meaning of both: the unit index by repeated division by 1024, and the value
 as a whole number of hundredths, rounded half up as `toFixed` rounds.
 */
module SizeFormat {
  import opened Wrappers
  import opened Text

  const Kilo: nat := 1024

  /** The unit names, indexed by the power of 1024. */
  const Units: seq<string> := ["Bytes", "KB", "MB", "GB"]

  function Pow(b: nat, e: nat): (r: nat)
    ensures b > 0 ==> r > 0
  {
    if e == 0 then 1 else b * Pow(b, e - 1)
  }

  /** `Math.floor(Math.log(bytes) / Math.log(1024))`, in integers. */
  function UnitIndex(bytes: nat): nat
    requires bytes > 0
  {
    if bytes < Kilo then 0 else 1 + UnitIndex(bytes / Kilo)
  }

  /** The unit index picks the power of 1024 that brackets the count. */
  lemma {:induction false} UnitIndexBrackets(bytes: nat)
    requires bytes > 0
    ensures Pow(Kilo, UnitIndex(bytes)) <= bytes < Pow(Kilo, UnitIndex(bytes) + 1)
  {
    if bytes >= Kilo {
      var q := bytes / Kilo;
      UnitIndexBrackets(q);
      var i := UnitIndex(q);
      assert Pow(Kilo, i + 1) == Kilo * Pow(Kilo, i);
      assert Pow(Kilo, i + 2) == Kilo * Pow(Kilo, i + 1);
      assert Kilo * q <= bytes < Kilo * q + Kilo;
      MulMonotone(Kilo, Pow(Kilo, i), q);
      MulMonotone(Kilo, q + 1, Pow(Kilo, i + 1));
    }
  }

  lemma MulMonotone(k: nat, a: nat, b: nat)
    requires a <= b
    ensures k * a <= k * b
  {
  }

  /** Only one unit index brackets a count. */
  lemma {:induction false} PowStrictlyIncreasing(i: nat, j: nat)
    requires i < j
    ensures Pow(Kilo, i + 1) <= Pow(Kilo, j)
    decreases j
  {
    if i + 1 < j {
      PowStrictlyIncreasing(i, j - 1);
      assert Pow(Kilo, j) == Kilo * Pow(Kilo, j - 1);
    }
  }

  lemma UnitIndexUnique(bytes: nat, i: nat)
    requires bytes > 0
    requires Pow(Kilo, i) <= bytes < Pow(Kilo, i + 1)
    ensures i == UnitIndex(bytes)
  {
    var u := UnitIndex(bytes);
    UnitIndexBrackets(bytes);
    if i < u {
      PowStrictlyIncreasing(i, u);
    } else if u < i {
      PowStrictlyIncreasing(u, i);
    }
  }

  /** `sizes[i]`; past "GB" the array lookup is `undefined`, which concatenates as "undefined". */
  function UnitName(i: nat): string
  {
    if i < |Units| then Units[i] else "undefined"
  }

  /** A count has a named unit exactly when it is below 1024^4 bytes. */
  lemma UnitNamedIff(bytes: nat)
    requires bytes > 0
    ensures UnitName(UnitIndex(bytes)) != "undefined" <==> bytes < Pow(Kilo, 4)
  {
    var i := UnitIndex(bytes);
    UnitIndexBrackets(bytes);
    if i < 4 {
      if i < 3 {
        PowStrictlyIncreasing(i, 4);
        PowStrictlyIncreasing(i + 1, 4);
      }
      assert Pow(Kilo, i + 1) <= Pow(Kilo, 4) by {
        if i < 3 { PowStrictlyIncreasing(i + 1, 4); }
      }
    } else if i > 4 {
      PowStrictlyIncreasing(4, i);
      assert Pow(Kilo, 4) < Pow(Kilo, 5) by { PowStrictlyIncreasing(4, 5); }
    }
  }

  /** `(bytes / 1024^i).toFixed(2)` as a whole number of hundredths, halves rounded up. */
  function Hundredths(bytes: nat): nat
    requires bytes > 0
  {
    var d := Pow(Kilo, UnitIndex(bytes));
    (200 * bytes + d) / (2 * d)
  }

  /** The hundredths are the nearest to 100 * bytes / 1024^i, the larger one on a tie. */
  lemma HundredthsNearest(bytes: nat)
    requires bytes > 0
    ensures var d: int, h: int := Pow(Kilo, UnitIndex(bytes)), Hundredths(bytes);
            -d < 2 * h * d - 200 * bytes <= d
  {
    var d: int, h: int := Pow(Kilo, UnitIndex(bytes)), Hundredths(bytes);
    var n := 200 * bytes + d;
    assert 2 * d * h <= n < 2 * d * h + 2 * d;
  }

  /** Integer quotient bounds, proved from the division identity. */
  lemma DivBetween(n: nat, m: nat, q: nat)
    requires m > 0
    requires q * m <= n < (q + 1) * m
    ensures n / m == q
  {
    var r := n / m;
    assert n == m * r + n % m;
    if r < q {
      MulMonotone(m, r + 1, q);
    } else if r > q {
      MulMonotone(m, q + 1, r);
    }
  }

  /** The rendered value lies between 1 and 1024 (1023.995 and above round up to 1024). */
  lemma HundredthsRange(bytes: nat)
    requires bytes > 0
    ensures 100 <= Hundredths(bytes) <= 102400
  {
    var d := Pow(Kilo, UnitIndex(bytes));
    UnitIndexBrackets(bytes);
    assert Pow(Kilo, UnitIndex(bytes) + 1) == Kilo * d;
    RoundedQuotientRange(bytes, d);
  }

  lemma RoundedQuotientRange(b: nat, d: nat)
    requires 0 < d <= b < 1024 * d
    ensures 100 <= (200 * b + d) / (2 * d) <= 102400
  {
    var n := 200 * b + d;
    var m := 2 * d;
    var h := n / m;
    assert 100 * m <= n;
    assert n < 102401 * m;
    if h < 100 {
      DivBetween(n, m, h);
      MulMonotone(m, h + 1, 100);
    } else if h > 102400 {
      DivBetween(n, m, h);
      MulMonotone(m, 102401, h);
    }
  }

  /** The fractional part of a number of hundredths, as `parseFloat` prints it. */
  function Fraction(f: nat): string
    requires f < 100
  {
    if f == 0 then ""
    else if f % 10 == 0 then ['.', Digit(f / 10)]
    else ['.', Digit(f / 10), Digit(f % 10)]
  }

  /** `parseFloat(x.toFixed(2))` printed as a string, for `x` given in hundredths. */
  function RenderHundredths(h: nat): string
  {
    NatToString(h / 100) + Fraction(h % 100)
  }

  /** Reads "<digits>", "<digits>.<d>" or "<digits>.<d><d>" as a number of hundredths. */
  function ParseHundredths(s: string): Option<nat>
  {
    var k := IndexOf(s, '.');
    var whole := s[..k];
    if whole == [] || !AllDigits(whole) then None
    else if k == |s| then Some(100 * DigitsValue(whole))
    else
      match ParseDecimals(s[k + 1..])
      case None => None
      case Some(f) => Some(100 * DigitsValue(whole) + f)
  }

  /** The one or two digits after the point, as hundredths. */
  function ParseDecimals(frac: string): Option<nat>
  {
    if |frac| == 1 && IsDigit(frac[0]) then
      Some(10 * DigitValue(frac[0]))
    else if |frac| == 2 && IsDigit(frac[0]) && IsDigit(frac[1]) then
      Some(10 * DigitValue(frac[0]) + DigitValue(frac[1]))
    else None
  }

  lemma {:induction false} IndexOfAfterDigits(w: string, rest: string)
    requires AllDigits(w)
    ensures IndexOf(w + rest, '.') == |w| + IndexOf(rest, '.')
    decreases |w|
  {
    if w != [] {
      assert (w + rest)[0] == w[0] && IsDigit(w[0]) && w[0] != '.';
      assert w + rest != [];
      assert IndexOf(w + rest, '.') == 1 + IndexOf((w + rest)[1..], '.');
      assert (w + rest)[1..] == w[1..] + rest;
      IndexOfAfterDigits(w[1..], rest);
    } else {
      assert w + rest == rest;
    }
  }

  /** Reading back a rendered value gives the same number of hundredths. */
  lemma RenderRoundTrip(h: nat)
    ensures ParseHundredths(RenderHundredths(h)) == Some(h)
  {
    var q, r := h / 100, h % 100;
    var w, f := NatToString(q), Fraction(r);
    assert RenderHundredths(h) == w + f;
    NatToStringRoundTrip(q);
    if r == 0 {
      WholeRoundTrip(w, q);
    } else {
      FractionRoundTrip(w, q, r);
    }
  }

  /** A whole number of units reads back without a fractional part. */
  lemma WholeRoundTrip(w: string, q: nat)
    requires AllDigits(w) && w != [] && DigitsValue(w) == q
    ensures ParseHundredths(w + Fraction(0)) == Some(100 * q)
  {
    IndexOfAfterDigits(w, Fraction(0));
    assert w + Fraction(0) == w;
    assert IndexOf(w, '.') == |w|;
    assert w[..|w|] == w;
  }

  /** A rendered fraction reads back after the point. */
  lemma FractionRoundTrip(w: string, q: nat, r: nat)
    requires AllDigits(w) && w != [] && DigitsValue(w) == q
    requires 0 < r < 100
    ensures ParseHundredths(w + Fraction(r)) == Some(100 * q + r)
  {
    var f := Fraction(r);
    var s := w + f;
    IndexOfAfterDigits(w, f);
    assert IndexOf(f, '.') == 0;
    assert s[..|w|] == w;
    assert s[|w| + 1..] == f[1..];
    DecimalsRoundTrip(r);
  }

  /** The digits `Fraction` prints after the point read back as the same hundredths. */
  lemma DecimalsRoundTrip(r: nat)
    requires 0 < r < 100
    ensures ParseDecimals(Fraction(r)[1..]) == Some(r)
  {
    var t, u := r / 10, r % 10;
    assert DigitValue(Digit(t)) == t;
    if u == 0 {
      assert Fraction(r)[1..] == [Digit(t)];
    } else {
      assert DigitValue(Digit(u)) == u;
      assert Fraction(r)[1..] == [Digit(t), Digit(u)];
    }
  }

  /** Trailing zeros are dropped: a whole value prints without a point, and a
      fractional one never ends in '0'. */
  lemma RenderDropsTrailingZeros(h: nat)
    ensures h % 100 == 0 ==> RenderHundredths(h) == NatToString(h / 100)
    ensures h % 100 != 0 ==> RenderHundredths(h)[|RenderHundredths(h)| - 1] != '0'
  {
  }

  /** `formatFileSize(bytes)` */
  function FormatFileSize(bytes: nat): (r: string)
    ensures |r| > 0 && IsDigit(r[0])
    ensures r[0] == '0' <==> bytes == 0
  {
    if bytes == 0 then "0 Bytes"
    else
      HundredthsRange(bytes);
      RenderHundredths(Hundredths(bytes)) + " " + UnitName(UnitIndex(bytes))
  }

  /** The size line ends with a space and the unit's name, so with one of 's', 'B' or 'd'. */
  lemma FormatFileSizeEndsWithUnit(bytes: nat)
    ensures bytes > 0 ==> EndsWith(FormatFileSize(bytes), " " + UnitName(UnitIndex(bytes)))
    ensures var r := FormatFileSize(bytes);
            r[|r| - 1] in {'s', 'B', 'd'}
  {
    if bytes > 0 {
      var v := RenderHundredths(Hundredths(bytes));
      var u := UnitName(UnitIndex(bytes));
      var r := FormatFileSize(bytes);
      assert r == v + (" " + u);
      assert r[|r| - |" " + u|..] == " " + u;
      assert r[|r| - 1] == u[|u| - 1];
    }
  }

  /** `formatFileSize` of 0, 1 and 1024 bytes. */
  lemma FormatFileSizeExamples()
    ensures FormatFileSize(0) == "0 Bytes"
    ensures FormatFileSize(1) == "1 Bytes"
    ensures FormatFileSize(1024) == "1 KB"
  {
    assert UnitIndex(1) == 0 && Hundredths(1) == 100;
    assert RenderHundredths(100) == "1";
    assert UnitIndex(1) == 0;
    assert UnitIndex(1024) == 1;
    assert Pow(Kilo, 1) == 1024;
    assert Hundredths(1024) == 100;
  }

  /** One and a half kibibytes render with one decimal. */
  lemma FormatFileSizeFraction()
    ensures FormatFileSize(1536) == "1.5 KB"
  {
    assert UnitIndex(1) == 0;
    assert UnitIndex(1536) == 1;
    assert Pow(Kilo, 1) == 1024;
    assert Hundredths(1536) == 150;
    assert Fraction(50) == ".5";
    assert RenderHundredths(150) == "1.5";
  }

  /** Exactly one mebibyte renders as "1 MB". */
  lemma FormatFileSizeMegabyte()
    ensures FormatFileSize(1048576) == "1 MB"
  {
    assert UnitIndex(1024) == 1;
    assert UnitIndex(1048576) == 2;
    assert Pow(Kilo, 2) == 1048576;
    assert Hundredths(1048576) == 100;
    assert RenderHundredths(100) == "1";
  }

  /** One byte short of a mebibyte stays in kilobytes and rounds up to 1024. */
  lemma FormatFileSizeJustBelowMegabyte()
    ensures FormatFileSize(1048575) == "1024 KB"
  {
    assert UnitIndex(1023) == 0;
    assert UnitIndex(1048575) == 1;
    assert Pow(Kilo, 1) == 1024;
    assert Hundredths(1048575) == 102400;
    assert NatToString(1024) == "1024" by {
      assert NatToString(102) == "102";
    }
    assert RenderHundredths(102400) == "1024";
  }
}
