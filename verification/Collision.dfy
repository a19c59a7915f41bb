/**
 * A number that its own name does not read back as: two to the power 863, whose second rendering is the
 * shortest decimal of the float before it.
 */
module Collision {
  import opened Numbers
  import opened Rerender

  /** Two to the power 863, and the distance to the float before it, two to the power 810. */
  const BIG: nat :=
    0x1_00000000_00000000_00000000_00000000_00000000_00000000_00000000_00000000 *
    0x1_00000000_00000000_00000000_00000000_00000000_00000000_00000000_00000000 *
    0x1_00000000_00000000_00000000_00000000_00000000_00000000_00000000_00000000 *
    0x1_00000000_00000000 * 0x8000_0000

  const GAP: nat :=
    0x1_00000000_00000000_00000000_00000000_00000000_00000000_00000000_00000000 *
    0x1_00000000_00000000_00000000_00000000_00000000_00000000_00000000_00000000 *
    0x1_00000000_00000000_00000000_00000000_00000000_00000000_00000000_00000000 *
    0x400_00000000

  const BELOW: nat := BIG - GAP

  /**
   * What reads back as each: half the way to either neighbour. Below a power of two the floats lie
   * twice as close. The significand of the power is even, and that of the float before it odd.
   */
  const BIG_INTERVAL: Interval := Interval((BIG - GAP / 2) as real, (BIG + GAP) as real, true)
  const BELOW_INTERVAL: Interval := Interval((BELOW - GAP / 2) as real, (BELOW + GAP / 2) as real, false)

  /** Ten to the power 60, and to the power 243, which is one in the seventeenth digit of both numbers. */
  const E60: nat := 1_000000_000000_000000_000000_000000_000000_000000_000000_000000_000000

  const UNIT: nat :=
    1_000000_000000_000000_000000_000000_000000_000000_000000_000000_000000 *
    1_000000_000000_000000_000000_000000_000000_000000_000000_000000_000000 *
    1_000000_000000_000000_000000_000000_000000_000000_000000_000000_000000 *
    1_000000_000000_000000_000000_000000_000000_000000_000000_000000_000000 *
    1000

  // ----- powers of ten, and where the two numbers lie among them -----

  lemma SmallPowers()
    ensures Ten(0) == 1 && Ten(1) == 10 && Ten(2) == 100 && Ten(3) == 1000
    ensures Ten(14) == 100_000000_000000 && Ten(15) == 10 * Ten(14) && Ten(16) == 100 * Ten(14) &&
            Ten(17) == 1000 * Ten(14)
    ensures Ten(60) == E60
  {
    TenSum(1, 10, 1, 10, 100);
    TenSum(2, 100, 1, 10, 1000);
    TenSum(3, 1000, 3, 1000, 1_000000);
    TenSum(6, 1_000000, 6, 1_000000, 1_000000_000000);
    TenSum(12, 1_000000_000000, 2, 100, 100_000000_000000);
    TenSum(14, 100_000000_000000, 1, 10, 1000_000000_000000);
    TenSum(15, 1000_000000_000000, 15, 1000_000000_000000, 1_000000_000000_000000_000000_000000);
    TenSum(30, 1_000000_000000_000000_000000_000000, 30, 1_000000_000000_000000_000000_000000, E60);
    TenAdds(2, 14);
    TenAdds(3, 14);
  }

  lemma UnitIsPower()
    ensures Ten(243) == UNIT
  {
    SmallPowers();
    TenAdds(60, 60);
    TenAdds(120, 120);
    TenAdds(240, 3);
  }

  lemma Powers()
    ensures Ten(243) == UNIT && Ten(244) == 10 * UNIT && Ten(245) == 100 * UNIT && Ten(246) == 1000 * UNIT
    ensures Ten(259) == 10_000000_000000_000 * UNIT && Ten(260) == 100_000000_000000_000 * UNIT
  {
    SmallPowers();
    UnitIsPower();
    TenAdds(1, 243);
    TenAdds(2, 243);
    TenAdds(3, 243);
    TenAdds(16, 243);
    TenAdds(17, 243);
  }

  /** Where the two numbers lie, in units of the seventeenth digit. */
  lemma Measures()
    ensures 61501577861568100 * UNIT < BIG && 2 * (BIG - 61501577861568100 * UNIT) < 10 * UNIT
    ensures 61501577861568100 * UNIT > BELOW && 2 * (61501577861568100 * UNIT - BELOW) < 100 * UNIT
    ensures 61501577861568100 * UNIT < BIG - GAP / 2 && BIG + GAP < 61501577861568200 * UNIT
    ensures BIG - GAP / 2 < 61501577861568110 * UNIT < BIG + GAP
    ensures BELOW - GAP / 2 < 61501577861568100 * UNIT < BELOW + GAP / 2
    ensures 61501577861568000 * UNIT < BELOW - GAP / 2 && BELOW + GAP / 2 < 61501577861569000 * UNIT
  {
  }

  lemma Bounds()
    ensures Scale(1.0, 259) == (10_000000_000000_000 * UNIT) as real
    ensures Scale(1.0, 260) == (100_000000_000000_000 * UNIT) as real
    ensures Scale(1.0, 259) <= (BELOW - GAP / 2) as real && 10.0 * (BIG + GAP) as real <= 9.0 * Scale(1.0, 260)
  {
    ScaleTen(1, 259);
    ScaleTen(1, 260);
    Powers();
  }

  // ----- decimals there -----

  /** A decimal of two digits or more that is half a unit from a number there has its point there. */
  lemma PointAt260(value: real, digits: string, n: int)
    requires Significand(digits) && |digits| >= 2
    ensures HalfAway(value, digits, n) && Scale(1.0, 259) <= value && 10.0 * value <= 9.0 * Scale(1.0, 260) ==> n == 260
  {
    MagnitudeRange(digits, n);
    ScaleLinear(1.0, n - |digits|);
    if n <= 259 {
      UnitGrows(n, 259);
    } else if n >= 261 {
      UnitGrows(260, n - 1);
      UnitGrows(n - |digits|, n - 2);
      UnitStep(n - 2);
    }
  }

  /** Inside either interval a decimal has its point there. */
  lemma InsideAt260(digits: string, n: int)
    requires Significand(digits)
    ensures (BELOW - GAP / 2) as real <= Magnitude(digits, n) <= (BIG + GAP) as real ==> n == 260
  {
    Bounds();
    MagnitudeRange(digits, n);
    ScaleLinear(1.0, n - |digits|);
    if n <= 259 {
      UnitGrows(n, 259);
    } else if n >= 261 {
      UnitGrows(260, n - 1);
    }
  }

  lemma MagnitudeAt260(digits: string)
    requires Significand(digits) && |digits| <= 16
    ensures Magnitude(digits, 260) == (ReadNat(digits) * Ten(16 - |digits|) * Ten(244)) as real
    ensures Scale(1.0, 260 - |digits|) == (Ten(16 - |digits|) * Ten(244)) as real
  {
    ScaleTen(ReadNat(digits), 260 - |digits|);
    ScaleTen(1, 260 - |digits|);
    TenAdds(16 - |digits|, 244);
    Associate(ReadNat(digits), Ten(16 - |digits|), Ten(244));
  }

  lemma Associate(x: nat, y: nat, z: nat)
    ensures x * (y * z) == x * y * z
  {
  }

  /** Strictly nearer than half a step, there is one multiple only. */
  lemma Nearest(c: nat, d: nat, step: int, value: nat)
    requires step > 0 && -step <= 2 * (value - c * step) <= step && -step < 2 * (value - d * step) < step
    ensures c == d
  {
    if c < d {
      StepsApart(c, d, step);
    } else if d < c {
      StepsApart(d, c, step);
    }
  }

  lemma StepsApart(c: nat, d: nat, step: int)
    requires c < d && step > 0
    ensures c * step + step <= d * step
  {
    assert (c + 1) * step <= d * step;
  }

  // ----- what the second rendering makes of the two -----

  ghost predicate HalfStep(value: nat, c: nat, step: nat) {
    0 - step <= 2 * (value - c * step) <= step
  }

  lemma HalfAwayIsHalfStep(value: nat, digits: string)
    requires HalfAway(value as real, digits, 260) && |digits| <= 16
    ensures Magnitude(digits, 260) == (ReadNat(digits) * (Ten(16 - |digits|) * Ten(244))) as real
    ensures HalfStep(value, ReadNat(digits), Ten(16 - |digits|) * Ten(244))
  {
    MagnitudeAt260(digits);
    Associate(ReadNat(digits), Ten(16 - |digits|), Ten(244));
  }

  lemma BigRounds(c: nat)
    ensures HalfStep(BIG, c, 10 * UNIT) ==> c == 6150157786156810
  {
    Measures();
    if HalfStep(BIG, c, 10 * UNIT) {
      Nearest(c, 6150157786156810, 10 * UNIT, BIG);
    }
  }

  lemma BelowRounds(c: nat)
    ensures HalfStep(BELOW, c, 100 * UNIT) ==> c == 615015778615681
  {
    Measures();
    if HalfStep(BELOW, c, 100 * UNIT) {
      Nearest(c, 615015778615681, 100 * UNIT, BELOW);
    }
  }

  lemma BigComesOut(a: string, m: int)
    ensures Rerendered(BIG as real, 16, a, m) ==>
              m == 260 && ReadNat(a) == 6150157786156810 && Magnitude(a, m) == (61501577861568100 * UNIT) as real
  {
    if Rerendered(BIG as real, 16, a, m) {
      NearestIsHalfAway(BIG as real, 16, a, m);
      Bounds();
      PointAt260(BIG as real, a, m);
      HalfAwayIsHalfStep(BIG, a);
      Powers();
      SmallPowers();
      BigRounds(ReadNat(a));
    }
  }

  lemma BelowComesOut(b: string, n: int)
    ensures Rerendered(BELOW as real, 15, b, n) ==> Magnitude(b, n) == (61501577861568100 * UNIT) as real
  {
    if Rerendered(BELOW as real, 15, b, n) {
      NearestIsHalfAway(BELOW as real, 15, b, n);
      Bounds();
      PointAt260(BELOW as real, b, n);
      HalfAwayIsHalfStep(BELOW, b);
      Powers();
      SmallPowers();
      BelowRounds(ReadNat(b));
    }
  }

  /** However the two are rounded to 16 and 15 digits, both come out as one decimal, and have one name. */
  lemma NeighboursShareAName(a: string, m: int, b: string, n: int)
    ensures Rerendered(BIG as real, 16, a, m) && Rerendered(BELOW as real, 15, b, n) ==>
              && Magnitude(a, m) == Magnitude(b, n) && !Inside(Magnitude(a, m), BIG_INTERVAL)
              && FormatNumber(Finite(false, a, m)) == FormatNumber(Finite(false, b, n))
  {
    if Rerendered(BIG as real, 16, a, m) && Rerendered(BELOW as real, 15, b, n) {
      BigComesOut(a, m);
      BelowComesOut(b, n);
      Measures();
      NumbersNameSources(Finite(false, a, m), Finite(false, b, n));
    }
  }

  /** And the ports name the first of them differently: its second rendering ends in a zero. */
  lemma PortsNameBigApart(a: string, m: int)
    ensures Rerendered(BIG as real, 16, a, m) ==>
              FormatNumber(Finite(false, a, m)) != JsNumberToString(Finite(false, a, m))
  {
    if Rerendered(BIG as real, 16, a, m) {
      BigComesOut(a, m);
      PortsAgree(Finite(false, a, m));
      LastDigit(a);
    }
  }

  lemma LastDigit(digits: string)
    requires Significand(digits)
    ensures ReadNat(digits) % 10 == 0 <==> digits[|digits| - 1] == '0'
  {
    assert IsDigit(digits[|digits| - 1]);
  }

  // ----- that these are the lengths, and that such renderings exist -----

  lemma NoMultiple(d: nat, q: nat, step: int)
    requires step > 0
    ensures !(q * step < d * step < (q + 1) * step)
  {
    if d <= q {
      assert d * step <= q * step;
    } else {
      assert (q + 1) * step <= d * step;
    }
  }

  /** A decimal of fewer digits is a multiple of a coarser step. */
  lemma Coarser(digits: string, k: nat) returns (d: nat)
    requires Significand(digits) && |digits| < k <= 16
    ensures Magnitude(digits, 260) == (d * (Ten(17 - k) * Ten(244))) as real
  {
    var c, x, y, z := ReadNat(digits), Ten(k - 1 - |digits|), Ten(17 - k), Ten(244);
    MagnitudeAt260(digits);
    TenSplit(k - 1 - |digits|, 17 - k, 16 - |digits|);
    d := Collected(c, x, y, z, Ten(16 - |digits|));
  }

  lemma Collected(c: nat, x: nat, y: nat, z: nat, xy: nat) returns (d: nat)
    requires xy == x * y
    ensures c * xy * z == d * (y * z)
  {
    d := c * x;
    Associate(c, x, y);
    Associate(d, y, z);
  }

  lemma SixteenDigits(c: nat) returns (digits: string)
    requires 1000_000000_000000 <= c < 10000_000000_000000
    ensures Significand(digits) && |digits| == 16 && ReadNat(digits) == c
    ensures Magnitude(digits, 260) == (c * 10 * UNIT) as real && Scale(1.0, 244) == (10 * UNIT) as real
  {
    SmallPowers();
    Powers();
    digits := DigitsOf(c, 16);
    MagnitudeAt260(digits);
  }

  lemma FifteenDigits(c: nat) returns (digits: string)
    requires 100_000000_000000 <= c < 1000_000000_000000
    ensures Significand(digits) && |digits| == 15 && ReadNat(digits) == c
    ensures Magnitude(digits, 260) == (c * 100 * UNIT) as real && Scale(1.0, 245) == (100 * UNIT) as real
  {
    SmallPowers();
    Powers();
    digits := DigitsOf(c, 15);
    MagnitudeAt260(digits);
  }

  lemma BigNeedsSixteen(digits: string, n: int)
    requires Significand(digits) && |digits| < 16
    ensures !Inside(Magnitude(digits, n), BIG_INTERVAL)
  {
    if Inside(Magnitude(digits, n), BIG_INTERVAL) {
      InsideAt260(digits, n);
      Measures();
      Powers();
      SmallPowers();
      var d := Coarser(digits, 16);
      NoMultiple(d, 615015778615681, 100 * UNIT);
    }
  }

  lemma BigTakesSixteen()
    ensures ShortestLength(BIG_INTERVAL, 16)
  {
    Measures();
    var digits := SixteenDigits(6150157786156811);
    assert Inside(Magnitude(digits, 260), BIG_INTERVAL);
    forall digits, n | Significand(digits) && |digits| < 16 ensures !Inside(Magnitude(digits, n), BIG_INTERVAL) {
      BigNeedsSixteen(digits, n);
    }
  }

  lemma BelowNeedsFifteen(digits: string, n: int)
    requires Significand(digits) && |digits| < 15
    ensures !Inside(Magnitude(digits, n), BELOW_INTERVAL)
  {
    if Inside(Magnitude(digits, n), BELOW_INTERVAL) {
      InsideAt260(digits, n);
      Measures();
      Powers();
      SmallPowers();
      var d := Coarser(digits, 15);
      NoMultiple(d, 61501577861568, 1000 * UNIT);
    }
  }

  lemma BelowTakesFifteen()
    ensures ShortestLength(BELOW_INTERVAL, 15)
  {
    Measures();
    var digits := FifteenDigits(615015778615681);
    assert Inside(Magnitude(digits, 260), BELOW_INTERVAL);
    forall digits, n | Significand(digits) && |digits| < 15 ensures !Inside(Magnitude(digits, n), BELOW_INTERVAL) {
      BelowNeedsFifteen(digits, n);
    }
  }

  /** Two neighbouring floats, rendered a second time at their own shortest lengths, are given one name. */
  lemma TwoFloatsOneName() returns (a: string, m: int, b: string, n: int)
    ensures ShortestLength(BIG_INTERVAL, |a|) && Rerendered(BIG as real, |a|, a, m)
    ensures ShortestLength(BELOW_INTERVAL, |b|) && Rerendered(BELOW as real, |b|, b, n)
    ensures FormatNumber(Finite(false, a, m)) == FormatNumber(Finite(false, b, n))
    ensures Even(BELOW_INTERVAL, BELOW as real) && !Even(BIG_INTERVAL, BIG as real)
  {
    BigTakesSixteen();
    BelowTakesFifteen();
    Measures();
    Bounds();
    m, n := 260, 260;
    a := SixteenDigits(6150157786156810);
    b := FifteenDigits(615015778615681);
    HalfAwayIsNearest(BIG as real, a, m);
    HalfAwayIsNearest(BELOW as real, b, n);
    NeighboursShareAName(a, m, b, n);
  }
}
