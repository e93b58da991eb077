/** Labelled percentiles, `Percentile::from` of `src/data/mod.rs`.

    The source takes an `f64`, clamps it into [0, 100], prints it with `{}` and
    derives a label from the printed text. Here the input is a finite decimal
    number (sign, whole part, fraction digits) and `{}` prints the whole part,
    then, when the fraction is not zero, a `.` and the fraction digits without
    trailing zeros: the shortest text that denotes the number. */
module Percentiles {
  import opened Base

  type Digit = d: int | 0 <= d < 10

  datatype Decimal = Decimal(negative: bool, whole: nat, frac: seq<Digit>)

  /** A percentile: its label and its clamped value. */
  datatype Percentile = Percentile(name: string, value: Decimal)

  /** The value of `0.d1 d2 d3 ...`. */
  function FracValue(f: seq<Digit>): real
    decreases |f|
  {
    if |f| == 0 then 0.0 else (f[0] as real + FracValue(f[1..])) / 10.0
  }

  /** The number a decimal denotes. */
  function Value(d: Decimal): real {
    var magnitude := d.whole as real + FracValue(d.frac);
    if d.negative then -magnitude else magnitude
  }

  predicate AllZero(f: seq<Digit>) {
    forall i :: 0 <= i < |f| ==> f[i] == 0
  }

  /** No trailing zero digit in the fraction: the form `{}` prints. */
  predicate Canonical(d: Decimal) {
    |d.frac| == 0 || d.frac[|d.frac| - 1] != 0
  }

  lemma {:induction false} FracBounds(f: seq<Digit>)
    ensures 0.0 <= FracValue(f) < 1.0
    ensures FracValue(f) == 0.0 <==> AllZero(f)
    decreases |f|
  {
    if |f| > 0 {
      FracBounds(f[1..]);
      assert AllZero(f) <==> f[0] == 0 && AllZero(f[1..]) by {
        if f[0] == 0 && AllZero(f[1..]) {
          forall i | 0 <= i < |f|
            ensures f[i] == 0
          {
            if i > 0 {
              assert f[i] == f[1..][i - 1];
            }
          }
        }
        if AllZero(f) {
          forall i | 0 <= i < |f[1..]|
            ensures f[1..][i] == 0
          {
            assert f[1..][i] == f[i + 1];
          }
        }
      }
    }
  }

  lemma {:induction false} FracTrailingZero(f: seq<Digit>)
    ensures FracValue(f + [0]) == FracValue(f)
    decreases |f|
  {
    if |f| == 0 {
      assert [0][1..] == [];
    } else {
      assert (f + [0])[1..] == f[1..] + [0];
      FracTrailingZero(f[1..]);
    }
  }

  /** The fraction digits with trailing zeros removed. */
  function StripZeros(f: seq<Digit>): (r: seq<Digit>)
    ensures FracValue(r) == FracValue(f)
    ensures |r| == 0 || r[|r| - 1] != 0
    ensures |r| == 0 <==> AllZero(f)
    decreases |f|
  {
    if |f| == 0 then []
    else if f[|f| - 1] == 0 then
      var front := f[..|f| - 1];
      assert f == front + [0];
      FracTrailingZero(front);
      assert AllZero(f) <==> AllZero(front) by {
        if AllZero(front) {
          assert forall i :: 0 <= i < |front| ==> f[i] == front[i];
        }
      }
      StripZeros(front)
    else
      f
  }

  /** Forces a value into [0, 100], as `p.max(0.0).min(100.0)` does. */
  function Clamp(p: Decimal): (r: Decimal)
    ensures !r.negative && Canonical(r)
    ensures 0.0 <= Value(r) <= 100.0
    ensures Value(p) <= 0.0 ==> Value(r) == 0.0
    ensures 0.0 <= Value(p) <= 100.0 ==> Value(r) == Value(p)
    ensures Value(p) >= 100.0 ==> Value(r) == 100.0
  {
    FracBounds(p.frac);
    if p.negative then
      Decimal(false, 0, [])
    else if p.whole > 100 || (p.whole == 100 && !AllZero(p.frac)) then
      Decimal(false, 100, [])
    else
      var r := Decimal(false, p.whole, StripZeros(p.frac));
      FracBounds(StripZeros(p.frac));
      r
  }

  /** The ASCII digit for `d`. */
  function DigitChar(d: Digit): (c: char)
    ensures '0' <= c <= '9'
    ensures c as int - '0' as int == d
  {
    ('0' as int + d) as char
  }

  /** Decimal text of a natural number, without leading zeros. */
  function NatToString(n: nat): (s: string)
    ensures 1 <= |s|
    ensures n >= 10 ==> 2 <= |s|
    ensures forall i :: 0 <= i < |s| ==> '0' <= s[i] <= '9'
    decreases n
  {
    if n < 10 then [DigitChar(n)] else NatToString(n / 10) + [DigitChar(n % 10)]
  }

  /** Different numbers print differently. */
  lemma {:induction false} NatToStringInjective(a: nat, b: nat)
    requires NatToString(a) == NatToString(b)
    ensures a == b
    decreases a
  {
    if a >= 10 && b >= 10 {
      var sa, sb := NatToString(a), NatToString(b);
      assert sa[|sa| - 1] == sb[|sb| - 1];
      assert DigitChar(a % 10) == DigitChar(b % 10);
      assert sa[..|sa| - 1] == NatToString(a / 10);
      assert sb[..|sb| - 1] == NatToString(b / 10);
      NatToStringInjective(a / 10, b / 10);
    } else if a < 10 && b < 10 {
      assert NatToString(a)[0] == DigitChar(a);
    }
  }

  function DigitsToString(f: seq<Digit>): (s: string)
    ensures |s| == |f|
    ensures forall i :: 0 <= i < |s| ==> s[i] == DigitChar(f[i])
  {
    seq(|f|, i requires 0 <= i < |f| => DigitChar(f[i]))
  }

  /** What `format!("{}", x)` prints for the number. */
  function Format(d: Decimal): string {
    (if d.negative then "-" else "")
    + NatToString(d.whole)
    + (if |d.frac| == 0 then "" else "." + DigitsToString(d.frac))
  }

  /** `str::replace(".", "")`. */
  function RemoveDots(s: string): (r: string)
    ensures forall i :: 0 <= i < |r| ==> r[i] != '.'
    decreases |s|
  {
    if |s| == 0 then ""
    else if s[0] == '.' then RemoveDots(s[1..])
    else [s[0]] + RemoveDots(s[1..])
  }

  lemma {:induction false} RemoveDotsConcat(a: string, b: string)
    ensures RemoveDots(a + b) == RemoveDots(a) + RemoveDots(b)
    decreases |a|
  {
    if |a| == 0 {
      assert a + b == b;
    } else {
      assert (a + b)[0] == a[0];
      assert (a + b)[1..] == a[1..] + b;
      RemoveDotsConcat(a[1..], b);
    }
  }

  /** The label the source derives from the printed, clamped value. */
  function LabelOf(c: Decimal): string {
    var raw := Format(c);
    if raw == "0" then "min"
    else if raw == "100" then "max"
    else RemoveDots("p" + raw)
  }

  /** The digits of a decimal, whole part then fraction, with no point. */
  function DigitText(c: Decimal): string {
    NatToString(c.whole) + DigitsToString(c.frac)
  }

  /** `Percentile::from`: the value is clamped into [0, 100]; the label is
      `min` at 0, `max` at 100 and otherwise `p` followed by the digits of the
      value with the decimal point dropped (99 is `p99`, 99.9 is `p999`). */
  function From(p: Decimal): (r: Percentile)
    ensures r.value == Clamp(p)
    ensures r.name == "min" <==> Value(r.value) == 0.0
    ensures r.name == "max" <==> Value(r.value) == 100.0
    ensures 0.0 < Value(r.value) < 100.0 ==> r.name == "p" + DigitText(r.value)
  {
    var c := Clamp(p);
    FormatLabel(c);
    Percentile(LabelOf(c), c)
  }

  lemma FormatWhole(c: Decimal)
    requires !c.negative && |c.frac| == 0
    ensures Format(c) == "0" <==> c.whole == 0
    ensures Format(c) == "100" <==> c.whole == 100
  {
    assert Format(c) == NatToString(c.whole);
    assert NatToString(0) == "0";
    assert NatToString(100) == "100";
    if Format(c) == "0" {
      NatToStringInjective(c.whole, 0);
    }
    if Format(c) == "100" {
      NatToStringInjective(c.whole, 100);
    }
  }

  lemma FormatFraction(c: Decimal)
    requires !c.negative && |c.frac| > 0
    ensures Format(c) != "0" && Format(c) != "100"
  {
    var whole := NatToString(c.whole);
    var raw := Format(c);
    assert raw == whole + ("." + DigitsToString(c.frac));
    assert raw[|whole|] == '.';
    assert |raw| >= 3;
  }

  /** Text without a point is left alone. */
  lemma {:induction false} NoDots(s: string)
    requires forall i :: 0 <= i < |s| ==> s[i] != '.'
    ensures RemoveDots(s) == s
    decreases |s|
  {
    if |s| > 0 {
      NoDots(s[1..]);
    }
  }

  /** Removing the one point between two point-free texts joins them. */
  lemma RemoveDotsPoint(s: string, whole: string, digits: string)
    requires s == whole + ("." + digits)
    requires RemoveDots(whole) == whole && RemoveDots(digits) == digits
    ensures RemoveDots(s) == whole + digits
  {
    RemoveDotsConcat(whole, "." + digits);
    assert ("." + digits)[1..] == digits;
  }

  lemma WholeWithoutDots(n: nat)
    ensures RemoveDots("p" + NatToString(n)) == "p" + NatToString(n)
  {
    NoDots("p" + NatToString(n));
  }

  lemma DigitsWithoutDots(f: seq<Digit>)
    ensures RemoveDots(DigitsToString(f)) == DigitsToString(f)
  {
    NoDots(DigitsToString(f));
  }

  lemma FormatSplit(c: Decimal)
    requires !c.negative && |c.frac| > 0
    ensures "p" + Format(c) == ("p" + NatToString(c.whole)) + ("." + DigitsToString(c.frac))
  {
  }

  lemma FormatWithoutDots(c: Decimal)
    requires !c.negative
    ensures RemoveDots("p" + Format(c)) == "p" + DigitText(c)
  {
    var whole := "p" + NatToString(c.whole);
    var digits := DigitsToString(c.frac);
    assert "p" + DigitText(c) == whole + digits;
    WholeWithoutDots(c.whole);
    if |c.frac| == 0 {
      assert "p" + Format(c) == whole;
      assert digits == "";
    } else {
      DigitsWithoutDots(c.frac);
      FormatSplit(c);
      RemoveDotsPoint("p" + Format(c), whole, digits);
    }
  }

  /** A clamped value is 0 or 100 exactly when it prints as `0` or `100`. */
  lemma ValueExtremes(c: Decimal)
    requires !c.negative && Canonical(c) && 0.0 <= Value(c) <= 100.0
    ensures Value(c) == 0.0 <==> c.whole == 0 && |c.frac| == 0
    ensures Value(c) == 100.0 <==> c.whole == 100 && |c.frac| == 0
  {
    FracBounds(c.frac);
    assert |c.frac| > 0 ==> !AllZero(c.frac);
  }

  lemma FormatLabel(c: Decimal)
    requires !c.negative && Canonical(c) && 0.0 <= Value(c) <= 100.0
    ensures LabelOf(c) == "min" <==> Value(c) == 0.0
    ensures LabelOf(c) == "max" <==> Value(c) == 100.0
    ensures 0.0 < Value(c) < 100.0 ==> LabelOf(c) == "p" + DigitText(c)
  {
    ValueExtremes(c);
    FormatWithoutDots(c);
    if |c.frac| == 0 {
      FormatWhole(c);
    } else {
      FormatFraction(c);
    }
    assert ("p" + DigitText(c))[0] == 'p';
  }

  /** Clamping an already clamped value changes nothing, so looking a
      percentile up by its own value finds its own label. */
  lemma FromIdempotent(p: Decimal)
    ensures From(From(p).value) == From(p)
  {
    var c := Clamp(p);
    FracBounds(c.frac);
    if c.whole == 100 {
      assert c.frac == [];
    }
  }

  /** The boundary cases of the percentile unit test: 0 and 100 are `min` and
      `max`, and out-of-range values clamp to them. */
  lemma LabelExamplesBounds()
    ensures From(Decimal(false, 0, [])) == Percentile("min", Decimal(false, 0, []))
    ensures From(Decimal(false, 100, [])) == Percentile("max", Decimal(false, 100, []))
    ensures From(Decimal(true, 20, [])) == Percentile("min", Decimal(false, 0, []))
    ensures From(Decimal(false, 1442, [])) == Percentile("max", Decimal(false, 100, []))
  {
    assert Value(Decimal(false, 0, [])) == 0.0;
    assert Value(Decimal(false, 100, [])) == 100.0;
  }

  lemma LabelExample99()
    ensures From(Decimal(false, 99, [])).name == "p99"
  {
    var c := Decimal(false, 99, []);
    assert Clamp(c) == c;
    assert DigitText(c) == "99" by {
      assert NatToString(99) == "99";
    }
  }

  lemma LabelExample999()
    ensures From(Decimal(false, 99, [9])).name == "p999"
  {
    var c := Decimal(false, 99, [9]);
    assert FracValue([9]) == 0.9 by {
      assert [9][1..] == [];
    }
    assert StripZeros([9]) == [9];
    assert Clamp(c) == c;
    assert DigitText(c) == "999" by {
      assert NatToString(99) == "99";
      assert DigitsToString([9]) == "9";
    }
  }

  lemma LabelExample9999()
    ensures From(Decimal(false, 99, [9, 9])).name == "p9999"
  {
    var c := Decimal(false, 99, [9, 9]);
    FracBounds([9, 9]);
    assert StripZeros([9, 9]) == [9, 9];
    assert Clamp(c) == c;
    assert DigitText(c) == "9999" by {
      assert NatToString(99) == "99";
      assert DigitsToString([9, 9]) == "99";
    }
  }

  /** A whole percentile strictly between 0 and 100 keeps its value and is
      labelled `p` followed by its digits. */
  lemma WholeLabel(n: nat)
    requires 0 < n < 100
    ensures From(Decimal(false, n, [])) == Percentile("p" + NatToString(n), Decimal(false, n, []))
  {
    var c := Decimal(false, n, []);
    assert Clamp(c) == c;
    assert DigitText(c) == NatToString(n);
  }

  /** Dropping the decimal point makes distinct percentiles share a label:
      1.5 and 15 are both `p15`. */
  lemma LabelCollision()
    ensures From(Decimal(false, 1, [5])).name == From(Decimal(false, 15, [])).name
    ensures From(Decimal(false, 1, [5])).value != From(Decimal(false, 15, [])).value
  {
    assert NatToString(1) == "1";
    assert NatToString(15) == "15";
    assert DigitsToString([5]) == "5";
    assert StripZeros([5]) == [5];
    assert FracValue([5]) == 0.5 by {
      assert [5][1..] == [];
    }
  }

  /** The percentiles the snapshot unit tests store: min, p50, p99 and max. */
  function UnitTestPercentiles(): seq<Percentile> {
    [From(Decimal(false, 0, [])), From(Decimal(false, 50, [])),
     From(Decimal(false, 99, [])), From(Decimal(false, 100, []))]
  }

  /** The 63rd percentile those tests query shares a label with none of them. */
  lemma NotP63(ps: seq<Percentile>)
    requires ps == UnitTestPercentiles()
    ensures forall i :: 0 <= i < |ps| ==> ps[i].name != From(Decimal(false, 63, [])).name
  {
    LabelExamplesBounds();
    WholeLabel(50);
    WholeLabel(99);
    WholeLabel(63);
    var p63 := "p" + NatToString(63);
    assert p63[0] == 'p';
    if p63 == "p" + NatToString(50) {
      PrefixCancel("p", NatToString(63), NatToString(50));
      NatToStringInjective(63, 50);
    }
    if p63 == "p" + NatToString(99) {
      PrefixCancel("p", NatToString(63), NatToString(99));
      NatToStringInjective(63, 99);
    }
  }
}
