/**
 * The second rendering: both ports ask for the shortest digits that read back as the number, keep only
 * how many there are, and render the number again, correctly rounded, to that many digits.
 */
module Rerender {
  import opened Numbers

  /** How far a number is from a decimal. */
  ghost function Away(value: real, digits: string, n: int): real {
    if value < Magnitude(digits, n) then Magnitude(digits, n) - value else value - Magnitude(digits, n)
  }

  /** The number rounded to `k` digits: no decimal of that length is nearer. */
  ghost predicate Rerendered(value: real, k: nat, digits: string, n: int) {
    && Significand(digits) && |digits| == k
    && forall other, p :: Significand(other) && |other| == k ==> Away(value, digits, n) <= Away(value, other, p)
  }

  /** The reals that read back as one float: an even significand owns the two midpoints as well. */
  datatype Interval = Interval(low: real, high: real, ends: bool)

  predicate Inside(r: real, i: Interval) {
    i.low < r < i.high || (i.ends && i.low <= r <= i.high)
  }

  /** The second interval lies above the first, and no midpoint is in both. */
  predicate Below(i: Interval, j: Interval) {
    i.high < j.low || (i.high == j.low && !(i.ends && j.ends))
  }

  /** The fewest digits with which a decimal reads back. */
  ghost predicate ShortestLength(i: Interval, k: nat) {
    && (exists digits, n :: Significand(digits) && |digits| == k && Inside(Magnitude(digits, n), i))
    && forall digits, n :: Significand(digits) && |digits| < k ==> !Inside(Magnitude(digits, n), i)
  }

  // ----- names, over whatever the renderer returns -----

  /** Names tell floats apart exactly when the second rendering does. */
  lemma NamesTellApart<F(!new)>(render: F -> Number)
    requires forall x :: Rendered(render(x))
    ensures (forall x, y :: FormatNumber(render(x)) == FormatNumber(render(y)) ==> x == y) <==>
            (forall x, y :: SameNumber(render(x), render(y)) ==> x == y)
  {
    forall x, y ensures FormatNumber(render(x)) == FormatNumber(render(y)) <==> SameNumber(render(x), render(y)) {
      NumbersNameSources(render(x), render(y));
    }
  }

  /** Floats that are still inside their own intervals after the second rendering have names of their own. */
  lemma ReadBackNamesApart(i: Interval, a: string, m: int, j: Interval, b: string, n: int)
    requires Below(i, j) && Significand(a) && Significand(b)
    requires Inside(Magnitude(a, m), i) && Inside(Magnitude(b, n), j)
    ensures FormatNumber(Finite(false, a, m)) != FormatNumber(Finite(false, b, n))
  {
    NumbersNameSources(Finite(false, a, m), Finite(false, b, n));
  }

  // ----- names, when the float lies in the middle of what reads back as it -----

  /** The float is as far from one end of its interval as from the other: it is no power of two. */
  predicate Even(i: Interval, value: real) { i.high - value == value - i.low }

  /** Then the nearest decimal of the shortest length that reads back reads back itself. */
  lemma EvenReadsBack(value: real, i: Interval, k: nat, digits: string, n: int)
    requires Even(i, value) && ShortestLength(i, k) && Rerendered(value, k, digits, n)
    ensures Inside(Magnitude(digits, n), i)
  {
    var other, p :| Significand(other) && |other| == k && Inside(Magnitude(other, p), i);
    assert Away(value, digits, n) <= Away(value, other, p);
  }

  /** Two floats share a name only if one of them lies unevenly: a name lost is a power of two's. */
  lemma SharedNameIsUneven(v: real, i: Interval, a: string, m: int, w: real, j: Interval, b: string, n: int)
    requires Below(i, j) && ShortestLength(i, |a|) && ShortestLength(j, |b|)
    requires Rerendered(v, |a|, a, m) && Rerendered(w, |b|, b, n)
    requires FormatNumber(Finite(false, a, m)) == FormatNumber(Finite(false, b, n))
    ensures !Even(i, v) || !Even(j, w)
  {
    if Even(i, v) && Even(j, w) {
      EvenReadsBack(v, i, |a|, a, m);
      EvenReadsBack(w, j, |b|, b, n);
      ReadBackNamesApart(i, a, m, j, b, n);
    }
  }

  // ----- powers of ten -----

  ghost function Ten(e: nat): nat { if e == 0 then 1 else 10 * Ten(e - 1) }

  lemma {:induction false} TenAdds(a: nat, b: nat)
    ensures Ten(a + b) == Ten(a) * Ten(b)
  {
    if a > 0 {
      TenAdds(a - 1, b);
      Regroup(Ten(a - 1), Ten(b));
    }
  }

  lemma Regroup(x: nat, y: nat)
    ensures 10 * (x * y) == (10 * x) * y
  {
  }

  lemma TenSplit(a: nat, b: nat, sum: nat)
    requires sum == a + b
    ensures Ten(sum) == Ten(a) * Ten(b)
  {
    TenAdds(a, b);
  }

  lemma TenSum(a: nat, x: nat, b: nat, y: nat, z: nat)
    requires Ten(a) == x && Ten(b) == y && z == x * y
    ensures Ten(a + b) == z
  {
    TenAdds(a, b);
  }

  /** Scaling a whole number up. */
  lemma {:induction false} ScaleTen(c: nat, e: nat)
    ensures Scale(c as real, e) == (c * Ten(e)) as real
    decreases e
  {
    if e > 0 {
      assert (10 * c) as real == c as real * 10.0;
      ScaleTen(10 * c, e - 1);
      Regroup(c, Ten(e - 1));
    }
  }

  lemma {:induction false} ScaleLinear(r: real, e: int)
    ensures Scale(r, e) == r * Scale(1.0, e) && Scale(1.0, e) > 0.0
    decreases if e < 0 then -e else e
  {
    ScaleInjective(1.0, 0.0, e);
    if e > 0 {
      ScaleLinear(r * 10.0, e - 1);
      ScaleLinear(10.0, e - 1);
      assert Scale(10.0, e - 1) == Scale(1.0, e);
      Ungroup(r, 10.0, Scale(1.0, e - 1));
    } else if e < 0 {
      ScaleLinear(r / 10.0, e + 1);
      ScaleLinear(0.1, e + 1);
      assert 1.0 / 10.0 == 0.1 && r / 10.0 == r * 0.1;
      assert Scale(0.1, e + 1) == Scale(1.0, e);
      Ungroup(r, 0.1, Scale(1.0, e + 1));
    }
  }

  lemma Ungroup(x: real, y: real, z: real)
    ensures x * y * z == x * (y * z)
  {
  }

  /** The unit of the last digit, one place further left. */
  lemma UnitStep(e: int)
    ensures Scale(1.0, e + 1) == 10.0 * Scale(1.0, e)
  {
    ScaleStep(1.0, e + 1);
    ScaleLinear(10.0, e);
  }

  lemma {:induction false} UnitGrows(e: int, f: int)
    requires e <= f
    ensures Scale(1.0, e) <= Scale(1.0, f)
    decreases f - e
  {
    if e < f {
      UnitStep(e);
      ScaleLinear(1.0, e);
      UnitGrows(e + 1, f);
    }
  }

  // ----- where a decimal of k digits lies -----

  lemma {:induction false} CoefficientRange(digits: string)
    requires Significand(digits)
    ensures Ten(|digits| - 1) <= ReadNat(digits) < Ten(|digits|)
  {
    var front := digits[..|digits| - 1];
    if front == "" {
      assert digits == [digits[0]] && ReadNat(front) == 0;
    } else {
      assert front[0] == digits[0];
      CoefficientRange(front);
    }
  }

  lemma {:induction false} ScaleOrder(r: real, s: real, e: int)
    requires r <= s
    ensures Scale(r, e) <= Scale(s, e)
    decreases if e < 0 then -e else e
  {
    if e > 0 {
      ScaleOrder(r * 10.0, s * 10.0, e - 1);
    } else if e < 0 {
      ScaleOrder(r / 10.0, s / 10.0, e + 1);
    }
  }

  lemma {:induction false} ScaleMinus(r: real, s: real, e: int)
    ensures Scale(r - s, e) == Scale(r, e) - Scale(s, e)
    decreases if e < 0 then -e else e
  {
    if e > 0 {
      assert (r - s) * 10.0 == r * 10.0 - s * 10.0;
      ScaleMinus(r * 10.0, s * 10.0, e - 1);
    } else if e < 0 {
      assert (r - s) / 10.0 == r / 10.0 - s / 10.0;
      ScaleMinus(r / 10.0, s / 10.0, e + 1);
    }
  }

  lemma ScaleOfPower(k: nat, e: int, sum: int)
    requires sum == k + e
    ensures Scale(Ten(k) as real, e) == Scale(1.0, sum)
  {
    ScaleTen(1, k);
    ScaleAdds(1.0, k, e);
  }

  /** A decimal with its point at `n` lies from one power of ten up to a unit short of the next. */
  lemma MagnitudeRange(digits: string, n: int)
    requires Significand(digits)
    ensures Scale(1.0, n - 1) <= Magnitude(digits, n) <= Scale(1.0, n) - Scale(1.0, n - |digits|)
  {
    var k, c, e := |digits|, ReadNat(digits) as real, n - |digits|;
    CoefficientRange(digits);
    ScaleOrder(Ten(k - 1) as real, c, e);
    ScaleOrder(c, Ten(k) as real - 1.0, e);
    ScaleMinus(Ten(k) as real, 1.0, e);
    ScaleOfPower(k - 1, e, n - 1);
    ScaleOfPower(k, e, n);
  }

  // ----- digits of a number -----

  lemma {:induction false} TenGrows(a: nat, b: nat)
    requires a <= b
    ensures Ten(a) <= Ten(b) && Ten(a) > 0
    decreases b
  {
    if a < b {
      TenGrows(a, b - 1);
    } else if a > 0 {
      TenGrows(a - 1, a - 1);
    }
  }

  lemma {:induction false} DecimalLeads(c: nat)
    requires c > 0
    ensures Significand(Decimal(c))
  {
    if c < 10 {
      assert Decimal(c) == ['0' + (c % 10) as char];
    } else {
      DecimalLeads(c / 10);
      assert Decimal(c)[0] == Decimal(c / 10)[0];
    }
  }

  lemma DigitsOf(c: nat, k: nat) returns (digits: string)
    requires k > 0 && Ten(k - 1) <= c < Ten(k)
    ensures Significand(digits) && |digits| == k && ReadNat(digits) == c
  {
    TenGrows(0, k - 1);
    digits := Decimal(c);
    DecimalLeads(c);
    ReadDecimal(c);
    CoefficientRange(digits);
    if |digits| < k {
      TenGrows(|digits|, k - 1);
    } else if |digits| > k {
      TenGrows(k, |digits| - 1);
    }
  }

  // ----- the nearest decimal is within half a unit -----

  ghost predicate HalfAway(value: real, digits: string, n: int) {
    Significand(digits) && 2.0 * Away(value, digits, n) <= Scale(1.0, n - |digits|)
  }

  /** The next decimal of the same length. */
  lemma NextAbove(digits: string, n: int) returns (other: string, p: int)
    requires Significand(digits)
    ensures Significand(other) && |other| == |digits| &&
            Magnitude(other, p) == Magnitude(digits, n) + Scale(1.0, n - |digits|)
  {
    var k, c, e := |digits|, ReadNat(digits), n - |digits|;
    CoefficientRange(digits);
    ScaleMinus((c + 1) as real, 1.0, e);
    if c + 1 < Ten(k) {
      p := n;
      other := DigitsOf(c + 1, k);
    } else {
      TenGrows(k - 1, k);
      p := n + 1;
      other := DigitsOf(Ten(k - 1), k);
      ScaleOfPower(k - 1, n + 1 - k, n);
      ScaleOfPower(k, e, n);
    }
  }

  /** A decimal of the same length below, no more than a unit away. */
  lemma NextBelow(digits: string, n: int) returns (other: string, p: int)
    requires Significand(digits)
    ensures Significand(other) && |other| == |digits|
    ensures Magnitude(digits, n) - Scale(1.0, n - |digits|) <= Magnitude(other, p) < Magnitude(digits, n)
  {
    var k, c, e := |digits|, ReadNat(digits), n - |digits|;
    CoefficientRange(digits);
    ScaleLinear(1.0, e);
    if c > Ten(k - 1) {
      p := n;
      other := DigitsOf(c - 1, k);
      ScaleMinus(c as real, 1.0, e);
      assert (c - 1) as real == c as real - 1.0;
    } else {
      TenGrows(k - 1, k - 1);
      p := n - 1;
      other := DigitsOf(Ten(k) - 1, k);
      ScaleMinus(Ten(k) as real, 1.0, e - 1);
      assert (Ten(k) - 1) as real == Ten(k) as real - 1.0;
      ScaleOfPower(k, e - 1, n - 1);
      ScaleOfPower(k - 1, e, n - 1);
      UnitStep(e - 1);
      ScaleLinear(1.0, e - 1);
    }
  }

  lemma NearestIsHalfAway(value: real, k: nat, digits: string, n: int)
    requires Rerendered(value, k, digits, n)
    ensures HalfAway(value, digits, n)
  {
    var above, p := NextAbove(digits, n);
    var below, q := NextBelow(digits, n);
    assert Away(value, digits, n) <= Away(value, above, p) && Away(value, digits, n) <= Away(value, below, q);
  }

  /** In the decade of the number itself, half a unit away is nearest. */
  lemma HalfAwayIsNearest(value: real, digits: string, n: int)
    requires HalfAway(value, digits, n) && Scale(1.0, n - 1) <= value
    ensures Rerendered(value, |digits|, digits, n)
  {
    forall other, p | Significand(other) && |other| == |digits|
      ensures Away(value, digits, n) <= Away(value, other, p)
    {
      if p == n {
        SameDecade(value, digits, other, n);
      } else if p > n {
        HigherDecade(value, digits, n, other, p);
      } else {
        LowerDecade(value, digits, n, other, p);
      }
    }
  }

  lemma SameDecade(value: real, digits: string, other: string, n: int)
    requires HalfAway(value, digits, n) && Significand(other) && |other| == |digits|
    ensures Away(value, digits, n) <= Away(value, other, n)
  {
    var c, d, e := ReadNat(digits), ReadNat(other), n - |digits|;
    ScaleMinus(c as real, 1.0, e);
    ScaleMinus((c + 1) as real, 1.0, e);
    if d < c {
      ScaleOrder(d as real, c as real - 1.0, e);
    } else if d > c {
      ScaleOrder((c + 1) as real, d as real, e);
    }
  }

  lemma HigherDecade(value: real, digits: string, n: int, other: string, p: int)
    requires HalfAway(value, digits, n) && Significand(other) && |other| == |digits| && p > n
    ensures Away(value, digits, n) <= Away(value, other, p)
  {
    MagnitudeRange(digits, n);
    MagnitudeRange(other, p);
    UnitGrows(n, p - 1);
  }

  lemma LowerDecade(value: real, digits: string, n: int, other: string, p: int)
    requires HalfAway(value, digits, n) && Significand(other) && |other| == |digits| && p < n &&
             Scale(1.0, n - 1) <= value
    ensures Away(value, digits, n) <= Away(value, other, p)
  {
    var k, c, e := |digits|, ReadNat(digits), n - |digits|;
    MagnitudeRange(digits, n);
    MagnitudeRange(other, p);
    UnitGrows(p, n - 1);
    ScaleLinear(1.0, p - k);
    CoefficientRange(digits);
    ScaleOfPower(k - 1, e, n - 1);
    if c > Ten(k - 1) {
      ScaleMinus(c as real, 1.0, e);
      ScaleOrder(Ten(k - 1) as real, c as real - 1.0, e);
    }
  }
}
