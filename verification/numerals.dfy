/**
 * Decimal numeral parsing as both parsers use it (`str::parse::<f64>`),
 * restricted to texts made of digits and at most one point, which is all
 * a number token can slice to. Values are exact reals.
 */
module Numerals {
  import opened Wrappers
  import opened Chars
  import opened Lexing

  function DigitValue(c: char): nat
    requires IsAsciiDigit(c)
  {
    (c as int - '0' as int) as nat
  }

  /** The value of a run of decimal digits, most significant first. */
  function DigitsValue(ds: string): nat
    requires AllDigits(ds)
  {
    if ds == [] then 0 else DigitsValue(ds[..|ds| - 1]) * 10 + DigitValue(ds[|ds| - 1])
  }

  function Pow10(k: nat): (p: nat)
    ensures p > 0
  {
    if k == 0 then 1 else 10 * Pow10(k - 1)
  }

  /** The index of the first `.` in `s`, or `|s|` when there is none. */
  function PointIndex(s: string): (i: nat)
    ensures i <= |s| && (i < |s| ==> s[i] == '.')
    ensures forall k :: 0 <= k < i ==> s[k] != '.'
  {
    if s == [] then 0
    else if s[0] == '.' then 0
    else 1 + PointIndex(s[1..])
  }

  /** `s` with every point removed. */
  function Unpointed(s: string): string {
    if s == [] then [] else (if s[0] == '.' then [] else [s[0]]) + Unpointed(s[1..])
  }

  /**
   * A numeral: once its points are removed, a non-empty run of decimal
   * digits, and at most one point was removed.
   */
  predicate IsNumeral(s: string) {
    var d := Unpointed(s);
    d != [] && AllDigits(d) && |s| <= |d| + 1
  }

  /** The number of characters after the first point; 0 when there is none. */
  function FractionLength(s: string): nat {
    if s == [] then 0 else if s[0] == '.' then |s| - 1 else FractionLength(s[1..])
  }

  /**
   * The accepted forms are `d+`, `d+.d*` and `d*.d+`; anything else
   * (an empty text, a lone point, a second point) does not parse. The
   * value is the digits read as one integer, scaled down by the number of
   * fraction digits.
   */
  function ParseNumber(text: string): (r: Option<real>)
    ensures r.Some? <==> IsNumeral(text)
    ensures r.Some? ==>
      && AllDigits(Unpointed(text))
      && r.value == DigitsValue(Unpointed(text)) as real / Pow10(FractionLength(text)) as real
  {
    var i := PointIndex(text);
    var whole := text[..i];
    var frac := if i < |text| then text[i + 1..] else [];
    NumeralParts(text, whole, frac);
    if !AllDigits(whole) || !AllDigits(frac) then None
    else if i == |text| && whole == [] then None
    else if i < |text| && whole == [] && frac == [] then None
    else
      DigitsOfParts(text, whole, frac);
      ScaleUp(DigitsValue(whole), DigitsValue(frac), FractionLength(text), DigitsValue(Unpointed(text)));
      Some(Scaled(DigitsValue(whole), DigitsValue(frac), FractionLength(text)))
  }

  /** Removing the points never lengthens a text, and leaves it unchanged exactly when it has none. */
  lemma {:induction false} UnpointedLength(s: string)
    ensures |Unpointed(s)| <= |s|
    ensures |Unpointed(s)| == |s| <==> forall k :: 0 <= k < |s| ==> s[k] != '.'
    ensures (forall k :: 0 <= k < |s| ==> s[k] != '.') ==> Unpointed(s) == s
  {
    if s != [] {
      UnpointedLength(s[1..]);
      if forall k :: 0 <= k < |s[1..]| ==> s[1..][k] != '.' {
        if s[0] != '.' {
          forall k | 0 <= k < |s| ensures s[k] != '.' {
            if k > 0 {
              assert s[k] == s[1..][k - 1];
            }
          }
        }
      } else {
        var k :| 0 <= k < |s[1..]| && s[1..][k] == '.';
        assert s[k + 1] == '.';
      }
    }
  }

  lemma {:induction false} UnpointedAppend(a: string, b: string)
    ensures Unpointed(a + b) == Unpointed(a) + Unpointed(b)
  {
    if a == [] {
      assert a + b == b;
    } else {
      var head := if a[0] == '.' then [] else [a[0]];
      assert (a + b)[0] == a[0];
      assert (a + b)[1..] == a[1..] + b;
      UnpointedAppend(a[1..], b);
      calc {
        Unpointed(a + b);
        head + Unpointed(a[1..] + b);
        head + (Unpointed(a[1..]) + Unpointed(b));
        (head + Unpointed(a[1..])) + Unpointed(b);
        Unpointed(a) + Unpointed(b);
      }
    }
  }

  lemma {:induction false} FractionLengthAfterPoint(s: string)
    ensures FractionLength(s) == if PointIndex(s) < |s| then |s| - PointIndex(s) - 1 else 0
  {
    if s != [] && s[0] != '.' {
      FractionLengthAfterPoint(s[1..]);
    }
  }

  /** The text around its first point: the digits before it, and everything after it. */
  lemma SplitAtPoint(text: string)
    ensures var i := PointIndex(text);
      var frac := if i < |text| then text[i + 1..] else [];
      && Unpointed(text) == text[..i] + Unpointed(frac)
      && FractionLength(text) == |frac|
      && |text| == i + (if i < |text| then 1 else 0) + |frac|
  {
    var i := PointIndex(text);
    var frac := if i < |text| then text[i + 1..] else [];
    UnpointedLength(text[..i]);
    FractionLengthAfterPoint(text);
    if i < |text| {
      assert text == text[..i] + ['.'] + frac;
      UnpointedAppend(text[..i] + ['.'], frac);
      UnpointedAppend(text[..i], ['.']);
    } else {
      assert text == text[..i];
    }
  }

  lemma AllDigitsAppend(a: string, b: string)
    ensures AllDigits(a + b) <==> AllDigits(a) && AllDigits(b)
  {
    if AllDigits(a) && AllDigits(b) {
      forall k | 0 <= k < |a + b| ensures IsAsciiDigit((a + b)[k]) {
        if k >= |a| {
          assert (a + b)[k] == b[k - |a|];
        }
      }
    }
    if AllDigits(a + b) {
      forall k | 0 <= k < |b| ensures IsAsciiDigit(b[k]) {
        assert b[k] == (a + b)[|a| + k];
      }
      forall k | 0 <= k < |a| ensures IsAsciiDigit(a[k]) {
        assert a[k] == (a + b)[k];
      }
    }
  }

  lemma DigitsHaveNoPoint(ds: string)
    requires AllDigits(ds)
    ensures forall k :: 0 <= k < |ds| ==> ds[k] != '.'
  {
  }

  /** A text is a numeral exactly when the parts around its first point are digits and not both empty. */
  lemma NumeralParts(text: string, whole: string, frac: string)
    requires whole == text[..PointIndex(text)]
    requires frac == if PointIndex(text) < |text| then text[PointIndex(text) + 1..] else []
    ensures IsNumeral(text) <==>
      && AllDigits(whole) && AllDigits(frac)
      && !(PointIndex(text) == |text| && whole == [])
      && !(PointIndex(text) < |text| && whole == [] && frac == [])
  {
    SplitAtPoint(text);
    UnpointedLength(frac);
    AllDigitsAppend(whole, Unpointed(frac));
    if AllDigits(frac) {
      DigitsHaveNoPoint(frac);
    }
    if IsNumeral(text) && PointIndex(text) < |text| {
      assert Unpointed(frac) == frac;
    }
  }

  /** With digits around the first point, the value the parts give is the unpointed digits scaled down. */
  lemma DigitsOfParts(text: string, whole: string, frac: string)
    requires whole == text[..PointIndex(text)]
    requires frac == if PointIndex(text) < |text| then text[PointIndex(text) + 1..] else []
    requires AllDigits(whole) && AllDigits(frac)
    ensures Unpointed(text) == whole + frac && FractionLength(text) == |frac|
    ensures AllDigits(whole + frac)
    ensures DigitsValue(whole + frac) == DigitsValue(whole) * Pow10(|frac|) + DigitsValue(frac)
  {
    SplitAtPoint(text);
    DigitsHaveNoPoint(frac);
    UnpointedLength(frac);
    assert Unpointed(frac) == frac;
    assert Unpointed(text) == whole + frac;
    DigitsValueAppend(whole, frac);
  }

  /** A whole part plus `k` fraction digits worth `f`. */
  function Scaled(w: nat, f: nat, k: nat): real {
    w as real + f as real / Pow10(k) as real
  }

  lemma ScaleUp(w: nat, f: nat, k: nat, n: nat)
    requires n == w * Pow10(k) + f
    ensures Scaled(w, f, k) == n as real / Pow10(k) as real
  {
    var x, y, q := w as real, f as real, Pow10(k) as real;
    assert (w * Pow10(k)) as real == x * q by {
      NatProductAsReal(w, Pow10(k));
    }
    QuotientSum(x, y, q);
  }

  lemma NatProductAsReal(a: nat, b: nat)
    ensures (a * b) as real == a as real * b as real
  {
  }

  lemma QuotientSum(x: real, y: real, q: real)
    requires q > 0.0
    ensures x + y / q == (x * q + y) / q
  {
    assert x * q / q == x;
  }

  lemma ShiftDigit(x: nat, p: nat, y: nat, d: nat)
    ensures (x * p + y) * 10 + d == x * (p * 10) + (y * 10 + d)
  {
  }

  /** Appending digits shifts the value left by their count. */
  lemma {:induction false} DigitsValueAppend(w: string, f: string)
    requires AllDigits(w) && AllDigits(f)
    ensures AllDigits(w + f)
    ensures DigitsValue(w + f) == DigitsValue(w) * Pow10(|f|) + DigitsValue(f)
    decreases |f|
  {
    AllDigitsAppend(w, f);
    if f != [] {
      var g := f[..|f| - 1];
      var d := DigitValue(f[|f| - 1]);
      assert (w + f)[..|w + f| - 1] == w + g;
      assert (w + f)[|w + f| - 1] == f[|f| - 1];
      assert AllDigits(g);
      DigitsValueAppend(w, g);
      assert DigitsValue(w + f) == DigitsValue(w + g) * 10 + d;
      assert DigitsValue(f) == DigitsValue(g) * 10 + d;
      assert Pow10(|f|) == Pow10(|g|) * 10;
      ShiftDigit(DigitsValue(w), Pow10(|g|), DigitsValue(g), d);
    } else {
      assert w + f == w;
    }
  }

  /** Every number lexeme the scanners produce parses, so the literal can never fail to convert. */
  lemma NumberWordsParse(w: string)
    requires IsNumberWord(w)
    ensures ParseNumber(w).Some?
  {
    var k := RunEnd(w, 0, Digit);
    if AllDigits(w) {
      NoPointInDigits(w);
    } else {
      NoPointInDigits(w[..k]);
      assert w[..k] + w[k..] == w;
      PointIndexAfterDigits(w, k);
      assert w[..k] == w[..PointIndex(w)];
    }
  }

  lemma NoPointInDigits(ds: string)
    requires AllDigits(ds)
    ensures PointIndex(ds) == |ds|
  {
    if ds != [] {
      assert AllDigits(ds[1..]);
      NoPointInDigits(ds[1..]);
    }
  }

  lemma PointIndexAfterDigits(w: string, k: nat)
    requires k < |w| && w[k] == '.' && forall j :: 0 <= j < k ==> IsAsciiDigit(w[j])
    ensures PointIndex(w) == k
    decreases k
  {
    if k > 0 {
      PointIndexAfterDigits(w[1..], k - 1);
    }
  }

  /** Decimal rendering of a natural number, most significant digit first. */
  function Decimal(n: nat): (s: string)
    ensures |s| > 0 && AllDigits(s)
  {
    var d := ['0' + (n % 10) as char];
    if n < 10 then d else Decimal(n / 10) + d
  }

  /** Digits read back the number they render. */
  lemma {:induction false} DecimalRoundTrip(n: nat)
    ensures DigitsValue(Decimal(n)) == n
  {
    var s := Decimal(n);
    assert s[|s| - 1] == '0' + (n % 10) as char;
    if n >= 10 {
      assert s[..|s| - 1] == Decimal(n / 10);
      DecimalRoundTrip(n / 10);
    }
  }

  /** A rendered natural number parses to itself. */
  lemma ParseDecimal(n: nat)
    ensures ParseNumber(Decimal(n)) == Some(n as real)
  {
    var s := Decimal(n);
    NoPointInDigits(s);
    FractionLengthAfterPoint(s);
    assert s[..|s|] == s;
    DecimalRoundTrip(n);
    assert Scaled(n, 0, 0) == n as real;
  }

  lemma ParseExamples()
    ensures ParseNumber("12.34") == Some(12.34)
    ensures ParseNumber("10") == Some(10.0)
    ensures ParseNumber("1.") == Some(1.0)
    ensures ParseNumber("") == None
    ensures ParseNumber(".") == None
  {
    ParseFraction();
    ParseInteger();
    ParseTrailingPoint();
  }

  lemma ParseFraction()
    ensures ParseNumber("12.34") == Some(12.34)
  {
    assert PointIndex("12.34") == 2;
    assert "12.34"[..2] == "12" && "12.34"[3..] == "34";
    assert DigitsValue("12") == 12 by { assert "12"[..1] == "1"; }
    assert DigitsValue("34") == 34 by { assert "34"[..1] == "3"; }
  }

  lemma ParseInteger()
    ensures ParseNumber("10") == Some(10.0)
  {
    assert PointIndex("10") == 2;
    assert "10"[..2] == "10";
    assert DigitsValue("10") == 10 by { assert "10"[..1] == "1"; }
  }

  lemma ParseTrailingPoint()
    ensures ParseNumber("1.") == Some(1.0)
  {
    assert PointIndex("1.") == 1;
    assert "1."[..1] == "1";
  }
}
