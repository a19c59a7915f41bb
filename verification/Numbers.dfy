/**
 * How a numeric reference becomes a source name: `Number::toString` of section 6.1.6.1.20 of
 * ECMA-262, over the digits and the point position that a float renderer supplies.
 */
module Numbers {
  import opened Common

  /**
   * A float as its renderer hands it over: `digits` is the significand without its point, and
   * `n` is where the point sits relative to the start of `digits`.
   */
  datatype Number =
    | NaN
    | Infinite(neg: bool)
    | Zero(neg: bool)
    | Finite(neg: bool, digits: string, n: int)

  predicate IsDigit(c: char) { '0' <= c <= '9' }

  predicate AllDigits(s: string) { forall i :: 0 <= i < |s| ==> IsDigit(s[i]) }

  /** A significand as rendered: digits, no leading zero; trailing zeros are possible. */
  predicate Significand(digits: string) {
    digits != "" && AllDigits(digits) && digits[0] != '0'
  }

  predicate Shortest(digits: string) {
    Significand(digits) && digits[|digits| - 1] != '0'
  }

  ghost predicate Rendered(x: Number) { x.Finite? ==> Significand(x.digits) }

  function Zeros(count: nat): (s: string)
    ensures |s| == count
  {
    seq(count, i => '0')
  }

  function Decimal(power: nat): (s: string)
    ensures s != "" && AllDigits(s)
  {
    var last := ['0' + (power % 10) as char];
    if power < 10 then last else Decimal(power / 10) + last
  }

  function TrimZeros(digits: string): string {
    if digits != "" && digits[|digits| - 1] == '0' then TrimZeros(digits[..|digits| - 1]) else digits
  }

  /** The first digit, then a point and the others if there are any. */
  function Mantissa(digits: string): string {
    if |digits| <= 1 then digits else digits[..1] + "." + digits[1..]
  }

  function Exponent(e: int): string {
    if e < 0 then "-" + Decimal(-e) else "+" + Decimal(e)
  }

  /** The four cases of the specification, in its order. */
  function Layout(digits: string, n: int): string {
    var k := |digits|;
    if k <= n <= 21 then digits + Zeros(n - k)
    else if 0 < n <= 21 then digits[..n] + "." + digits[n..]
    else if -6 < n <= 0 then "0" + "." + (Zeros(-n) + digits)
    else Mantissa(digits) + "e" + Exponent(n - 1)
  }

  function Sign(neg: bool): string { if neg then "-" else "" }

  /** The Rust port drops trailing zeros before the layout. */
  function TrimmedLayout(digits: string, n: int): string {
    var trimmed := TrimZeros(digits);
    Layout(if trimmed == "" then "0" else trimmed, n)
  }

  function FormatNumber(x: Number): string {
    match x
    case NaN => "NaN"
    case Zero(_) => "0"
    case Infinite(neg) => Sign(neg) + "Infinity"
    case Finite(neg, digits, n) => Sign(neg) + TrimmedLayout(digits, n)
  }

  /** The Go port lays the digits out as they came. */
  function JsNumberToString(x: Number): string {
    match x
    case NaN => "NaN"
    case Infinite(neg) => Sign(neg) + "Infinity"
    case Zero(_) => "0"
    case Finite(neg, digits, n) => Sign(neg) + Layout(digits, n)
  }

  // ----- the reader: an independent decoder of decimal literals -----

  function DigitValue(c: char): nat { if IsDigit(c) then (c - '0') as nat else 0 }

  function ReadNat(s: string): nat {
    if s == "" then 0 else 10 * ReadNat(s[..|s| - 1]) + DigitValue(s[|s| - 1])
  }

  function ReadInt(s: string): int {
    if s != "" && s[0] == '-' then -(ReadNat(s[1..]) as int)
    else if s != "" && s[0] == '+' then ReadNat(s[1..])
    else ReadNat(s)
  }

  function FindFrom(s: string, c: char, from: nat): (i: nat)
    requires from <= |s|
    ensures from <= i <= |s| && c !in s[from..i]
    ensures i < |s| ==> s[i] == c
    decreases |s| - from
  {
    if from == |s| || s[from] == c then from else FindFrom(s, c, from + 1)
  }

  /** Where `c` first occurs in `s`, or the length of `s`. */
  function Find(s: string, c: char): (i: nat)
    ensures i <= |s| && c !in s[..i]
    ensures i < |s| ==> s[i] == c
  {
    FindFrom(s, c, 0)
  }

  /** `r` times ten to the power `e`. */
  ghost function Scale(r: real, e: int): real
    decreases if e < 0 then -e else e
  {
    if e == 0 then r else if e > 0 then Scale(r * 10.0, e - 1) else Scale(r / 10.0, e + 1)
  }

  /** A decimal literal, read: `coef` times ten to the power `exp`. */
  datatype Scientific = Scientific(coef: nat, exp: int) {
    ghost function Value(): real { Scale(coef as real, exp) }
  }

  /** The number a significand denotes: `digits` times ten to the `n - k`. */
  ghost function Magnitude(digits: string, n: int): real {
    Scale(ReadNat(digits) as real, n - |digits|)
  }

  function Decode(text: string): Scientific {
    var e := Find(text, 'e');
    DecodeMantissa(text[..e], if e == |text| then 0 else ReadInt(text[e + 1..]))
  }

  function DecodeMantissa(mantissa: string, exponent: int): Scientific {
    var p := Find(mantissa, '.');
    var fraction := if p == |mantissa| then "" else mantissa[p + 1..];
    Scientific(ReadNat(mantissa[..p] + fraction), exponent - |fraction|)
  }

  // ----- reading back what was printed -----

  lemma FindAt(s: string, c: char, i: nat)
    requires i <= |s| && c !in s[..i] && (i < |s| ==> s[i] == c)
    ensures Find(s, c) == i
  {
  }

  lemma {:induction false} ReadDecimal(power: nat)
    ensures ReadNat(Decimal(power)) == power
  {
    var last := ['0' + (power % 10) as char];
    if power >= 10 {
      ReadDecimal(power / 10);
      assert (Decimal(power / 10) + last)[..|Decimal(power / 10)|] == Decimal(power / 10);
    } else {
      assert last[..0] == "";
    }
  }

  lemma {:induction false} ReadLeadingZeros(count: nat, s: string)
    ensures ReadNat(Zeros(count) + s) == ReadNat(s)
  {
    if s == "" {
      assert Zeros(count) + s == Zeros(count);
      if count > 0 {
        assert Zeros(count)[..count - 1] == Zeros(count - 1) + "";
        ReadLeadingZeros(count - 1, "");
      }
    } else {
      ReadLeadingZeros(count, s[..|s| - 1]);
      assert (Zeros(count) + s)[..|Zeros(count) + s| - 1] == Zeros(count) + s[..|s| - 1];
    }
  }

  lemma {:induction false} ReadTrailingZeros(s: string, count: nat)
    ensures ReadNat(s + Zeros(count)) as real == Scale(ReadNat(s) as real, count)
    decreases count
  {
    if count == 0 {
      assert s + Zeros(0) == s;
    } else {
      ReadTrailingZeros(s + "0", count - 1);
      assert s + Zeros(count) == s + "0" + Zeros(count - 1);
      assert (s + "0")[..|s|] == s;
    }
  }

  /** The literal reader, given where the point is. */
  lemma DecodePlain(whole: string, fraction: string, point: bool, e: int, digits: string)
    requires AllDigits(whole) && AllDigits(fraction) && (point || fraction == "")
    requires whole + fraction == digits
    ensures var text := if point then whole + "." + fraction else whole;
            && Find(text, 'e') == |text|
            && DecodeMantissa(text, e) == Scientific(ReadNat(digits), e - |fraction|)
            && Decode(text) == DecodeMantissa(text, 0)
  {
    var text := if point then whole + "." + fraction else whole;
    assert 'e' !in text && '.' !in whole;
    assert text[..|text|] == text && text[..|whole|] == whole;
    FindAt(text, 'e', |text|);
    FindAt(text, '.', |whole|);
    assert (if |whole| == |text| then "" else text[|whole| + 1..]) == fraction;
  }

  /** The literal reader, given a mantissa and an exponent. */
  lemma DecodeExponent(mantissa: string, exponent: string)
    requires Find(mantissa, 'e') == |mantissa|
    ensures Decode(mantissa + "e" + exponent) == DecodeMantissa(mantissa, ReadInt(exponent))
  {
    var text := mantissa + "e" + exponent;
    assert mantissa[..|mantissa|] == mantissa;
    assert text[..|mantissa|] == mantissa && text[|mantissa| + 1..] == exponent;
    FindAt(text, 'e', |mantissa|);
  }

  lemma ReadExponent(e: int)
    ensures ReadInt(Exponent(e)) == e
  {
    var power := Decimal(if e < 0 then -e else e);
    ReadDecimal(if e < 0 then -e else e);
    assert Exponent(e)[1..] == power;
  }

  lemma MantissaDecodes(digits: string, e: int)
    requires digits != "" && AllDigits(digits)
    ensures Find(Mantissa(digits), 'e') == |Mantissa(digits)|
    ensures DecodeMantissa(Mantissa(digits), e) == Scientific(ReadNat(digits), e + 1 - |digits|)
  {
    if |digits| == 1 {
      DecodePlain(digits, "", false, e, digits);
    } else {
      SplitDigits(digits, 1);
      DecodePlain(digits[..1], digits[1..], true, e, digits);
    }
  }

  ghost predicate Faithful(text: string, digits: string, n: int) {
    Decode(text).Value() == Magnitude(digits, n)
  }

  lemma ScientificDenotes(digits: string, n: int)
    requires digits != "" && AllDigits(digits)
    ensures Faithful(Mantissa(digits) + "e" + Exponent(n - 1), digits, n)
  {
    ReadExponent(n - 1);
    MantissaDecodes(digits, n - 1);
    DecodeExponent(Mantissa(digits), Exponent(n - 1));
  }

  lemma IntegralDenotes(digits: string, n: int)
    requires digits != "" && AllDigits(digits) && |digits| <= n
    ensures Faithful(digits + Zeros(n - |digits|), digits, n)
  {
    var text := digits + Zeros(n - |digits|);
    ReadTrailingZeros(digits, n - |digits|);
    DecodePlain(text, "", false, 0, text);
  }

  lemma SplitDigits(digits: string, n: nat)
    requires AllDigits(digits) && n <= |digits|
    ensures digits[..n] + digits[n..] == digits
    ensures AllDigits(digits[..n]) && AllDigits(digits[n..])
  {
  }

  lemma PointedDenotes(digits: string, n: nat)
    requires AllDigits(digits) && n <= |digits|
    ensures Faithful(digits[..n] + "." + digits[n..], digits, n)
  {
    SplitDigits(digits, n);
    DecodePlain(digits[..n], digits[n..], true, 0, digits);
  }

  lemma LeadingZero(zeros: nat, digits: string)
    requires AllDigits(digits)
    ensures "0" + (Zeros(zeros) + digits) == Zeros(zeros + 1) + digits
    ensures AllDigits(Zeros(zeros) + digits)
  {
  }

  lemma SmallDenotes(digits: string, zeros: nat)
    requires AllDigits(digits)
    ensures Faithful("0" + "." + (Zeros(zeros) + digits), digits, -(zeros as int))
  {
    LeadingZero(zeros, digits);
    DecodePlain("0", Zeros(zeros) + digits, true, 0, Zeros(zeros + 1) + digits);
    ReadLeadingZeros(zeros + 1, digits);
  }

  /** Printing then reading is the identity: the text denotes the number laid out. */
  lemma LayoutDenotes(digits: string, n: int)
    requires digits != "" && AllDigits(digits)
    ensures Decode(Layout(digits, n)).Value() == Magnitude(digits, n)
  {
    LayoutFaithful(digits, n);
  }

  lemma LayoutFaithful(digits: string, n: int)
    requires digits != "" && AllDigits(digits)
    ensures Faithful(Layout(digits, n), digits, n)
  {
    if 0 < n <= 21 {
      LaidOutWhole(digits, n);
    } else if -6 < n <= 0 {
      SmallDenotes(digits, -n);
    } else {
      ScientificDenotes(digits, n);
    }
  }

  lemma LaidOutWhole(digits: string, n: int)
    requires digits != "" && AllDigits(digits) && 0 < n <= 21
    ensures Faithful(Layout(digits, n), digits, n)
  {
    if |digits| <= n {
      IntegralDenotes(digits, n);
    } else {
      PointedDenotes(digits, n);
    }
  }

  // ----- dropping trailing zeros, and where the two ports agree -----

  lemma {:induction false} TrimShape(digits: string)
    ensures TrimZeros(digits) <= digits
    ensures Significand(digits) ==> Shortest(TrimZeros(digits))
    ensures TrimZeros(digits) == digits <==> digits == "" || digits[|digits| - 1] != '0'
  {
    if digits != "" && digits[|digits| - 1] == '0' {
      var front := digits[..|digits| - 1];
      TrimShape(front);
      if Significand(digits) {
        assert digits[0] == front[0];
      }
    }
  }

  lemma ScaleStep(r: real, e: int)
    ensures Scale(r * 10.0, e - 1) == Scale(r, e)
  {
    if e <= 0 {
      assert r * 10.0 / 10.0 == r;
    }
  }

  /** Dropping trailing zeros changes no value. */
  lemma {:induction false} TrimKeepsValue(digits: string, n: int)
    ensures Magnitude(TrimZeros(digits), n) == Magnitude(digits, n)
  {
    if digits != "" && digits[|digits| - 1] == '0' {
      var front := digits[..|digits| - 1];
      TrimKeepsValue(front, n);
      ScaleStep(ReadNat(front) as real, n - |front|);
      assert ReadNat(digits) == 10 * ReadNat(front);
    }
  }

  /** In both ports the text is a sign followed by a literal that denotes the number rendered. */
  lemma RenderingsDenote(x: Number)
    requires x.Finite? && Rendered(x)
    ensures var value := Magnitude(x.digits, x.n);
            && FormatNumber(x) == Sign(x.neg) + TrimmedLayout(x.digits, x.n)
            && Decode(TrimmedLayout(x.digits, x.n)).Value() == value
            && JsNumberToString(x) == Sign(x.neg) + Layout(x.digits, x.n)
            && Decode(Layout(x.digits, x.n)).Value() == value
  {
    TrimShape(x.digits);
    TrimKeepsValue(x.digits, x.n);
    LayoutDenotes(x.digits, x.n);
    LayoutDenotes(TrimZeros(x.digits), x.n);
  }

  lemma LayoutLength(digits: string, n: int)
    requires digits != ""
    ensures var k := |digits|;
            |Layout(digits, n)| ==
              if k <= n <= 21 then n
              else if 0 < n <= 21 then k + 1
              else if -6 < n <= 0 then 2 - n + k
              else (if k == 1 then 1 else k + 1) + 1 + |Exponent(n - 1)|
  {
  }

  /** The digits end in no zero, or the layout is integral. */
  predicate LaidAlike(x: Number)
    requires x.Finite? ==> x.digits != ""
  {
    x.Finite? ==> x.digits[|x.digits| - 1] != '0' || |x.digits| <= x.n <= 21
  }

  /** The ports agree except on a trailing zero that is not part of an integral layout. */
  lemma PortsAgree(x: Number)
    requires Rendered(x)
    ensures FormatNumber(x) == JsNumberToString(x) <==> LaidAlike(x)
  {
    if x.Finite? {
      LayoutsAgree(x.digits, x.n);
      SignInjective(x.neg, TrimmedLayout(x.digits, x.n), Layout(x.digits, x.n));
    }
  }

  lemma LayoutsAgree(digits: string, n: int)
    requires Significand(digits)
    ensures TrimmedLayout(digits, n) == Layout(digits, n) <==> digits[|digits| - 1] != '0' || |digits| <= n <= 21
  {
    TrimShape(digits);
    if |digits| <= n <= 21 {
      IntegralAgrees(digits, n);
    } else if digits[|digits| - 1] == '0' {
      ShorterApart(TrimZeros(digits), digits, n);
    }
  }

  lemma ShorterApart(trimmed: string, digits: string, n: int)
    requires trimmed != "" && |trimmed| < |digits| && !(|digits| <= n <= 21)
    ensures Layout(trimmed, n) != Layout(digits, n)
  {
    LayoutLength(digits, n);
    LayoutLength(trimmed, n);
  }

  lemma IntegralAgrees(digits: string, n: int)
    requires Significand(digits) && |digits| <= n <= 21
    ensures TrimmedLayout(digits, n) == Layout(digits, n)
  {
    var trimmed := TrimZeros(digits);
    TrimShape(digits);
    TrimmedZeros(digits);
    ZerosAdd(|digits| - |trimmed|, n - |digits|);
    ConcatAssociative(trimmed, Zeros(|digits| - |trimmed|), Zeros(n - |digits|));
  }

  lemma ZerosAdd(a: nat, b: nat)
    ensures Zeros(a) + Zeros(b) == Zeros(a + b)
  {
  }

  lemma SignInjective(neg: bool, a: string, b: string)
    ensures Sign(neg) + a == Sign(neg) + b <==> a == b
  {
    assert (Sign(neg) + a)[|Sign(neg)|..] == a && (Sign(neg) + b)[|Sign(neg)|..] == b;
  }

  lemma {:induction false} TrimmedZeros(digits: string)
    ensures |TrimZeros(digits)| <= |digits|
    ensures digits == TrimZeros(digits) + Zeros(|digits| - |TrimZeros(digits)|)
  {
    if digits != "" && digits[|digits| - 1] == '0' {
      TrimmedZeros(digits[..|digits| - 1]);
    }
  }

  // ----- distinct numbers name distinct sources -----

  lemma {:induction false} ReadPositive(digits: string)
    requires Significand(digits)
    ensures ReadNat(digits) > 0
  {
    var front := digits[..|digits| - 1];
    if front == "" {
      assert digits == [digits[0]];
    } else {
      assert front[0] == digits[0];
      ReadPositive(front);
    }
  }

  lemma LastDigitUnique(a: nat, lastA: nat, b: nat, lastB: nat)
    requires lastA < 10 && lastB < 10 && 10 * a + lastA == 10 * b + lastB
    ensures a == b && lastA == lastB
  {
  }

  lemma {:induction false} ReadInjective(a: string, b: string)
    requires Significand(a) && Significand(b)
    requires ReadNat(a) == ReadNat(b)
    ensures a == b
  {
    var frontA, frontB := a[..|a| - 1], b[..|b| - 1];
    var lastA, lastB := DigitValue(a[|a| - 1]), DigitValue(b[|b| - 1]);
    LastDigitUnique(ReadNat(frontA), lastA, ReadNat(frontB), lastB);
    assert a == frontA + [a[|a| - 1]] && b == frontB + [b[|b| - 1]];
    if frontA != "" { assert frontA[0] == a[0]; ReadPositive(frontA); }
    if frontB != "" { assert frontB[0] == b[0]; ReadPositive(frontB); }
    if frontA != "" && frontB != "" {
      ReadInjective(frontA, frontB);
    }
  }

  lemma {:induction false} ScaleAdds(r: real, a: nat, b: int)
    ensures Scale(Scale(r, a), b) == Scale(r, a + b)
    decreases a
  {
    if a > 0 {
      ScaleAdds(r * 10.0, a - 1, b);
      ScaleStep(r, a + b);
    }
  }

  lemma {:induction false} ScaleInjective(r: real, s: real, e: int)
    ensures Scale(r, e) == Scale(s, e) ==> r == s
    ensures r > 0.0 ==> Scale(r, e) > 0.0
    decreases if e < 0 then -e else e
  {
    if e > 0 {
      ScaleInjective(r * 10.0, s * 10.0, e - 1);
    } else if e < 0 {
      ScaleInjective(r / 10.0, s / 10.0, e + 1);
    }
  }

  lemma {:induction false} ScaledWhole(c: nat, m: nat) returns (whole: nat)
    ensures Scale(c as real, m) == whole as real
    ensures m > 0 ==> whole % 10 == 0
    decreases m
  {
    if m == 0 {
      whole := c;
    } else {
      whole := ScaledWhole(10 * c, m - 1);
      assert (10 * c) as real == c as real * 10.0;
    }
  }

  lemma ScaleCancels(a: nat, e: int, b: nat, shift: nat)
    requires Scale(a as real, e) == Scale(b as real, shift + e)
    ensures shift == 0 ==> a == b
    ensures shift > 0 ==> a % 10 == 0
  {
    ScaleAdds(b as real, shift, e);
    ScaleInjective(a as real, Scale(b as real, shift), e);
    var whole := ScaledWhole(b, shift);
    assert a == whole;
  }

  lemma SameValueSamePoint(a: string, m: int, b: string, n: int)
    requires Shortest(a) && Shortest(b) && m - |a| <= n - |b|
    requires Magnitude(a, m) == Magnitude(b, n)
    ensures a == b && m == n
  {
    var shift := (n - |b|) - (m - |a|);
    ScaleCancels(ReadNat(a), m - |a|, ReadNat(b), shift);
    assert ReadNat(a) % 10 == DigitValue(a[|a| - 1]) != 0;
    ReadInjective(a, b);
  }

  ghost predicate SameNumber(x: Number, y: Number) {
    match (x, y)
    case (NaN, NaN) => true
    case (Zero(_), Zero(_)) => true
    case (Infinite(p), Infinite(q)) => p == q
    case (Finite(p, a, m), Finite(q, b, n)) =>
      p == q && Magnitude(a, m) == Magnitude(b, n)
    case _ => false
  }

  lemma LayoutStartsWithDigit(digits: string, n: int)
    requires Significand(digits)
    ensures Layout(digits, n) != "" && IsDigit(Layout(digits, n)[0])
  {
    assert IsDigit(digits[0]);
  }

  /** Two numeric references name the same source exactly when they are the same number. */
  lemma NumbersNameSources(x: Number, y: Number)
    requires Rendered(x) && Rendered(y)
    ensures FormatNumber(x) == FormatNumber(y) <==> SameNumber(x, y)
  {
    assert Sign(true) + "Infinity" == "-Infinity" && Sign(false) + "Infinity" == "Infinity";
    if x.Finite? && y.Finite? {
      FiniteNames(x, y);
    } else if x.Finite? {
      FiniteIsNumeric(x);
    } else if y.Finite? {
      FiniteIsNumeric(y);
    } else {
      assert "-Infinity"[0] == '-' && "NaN"[0] == 'N' && "Infinity"[0] == 'I';
    }
  }

  lemma FiniteIsNumeric(x: Number)
    requires x.Finite? && Rendered(x)
    ensures FormatNumber(x) !in {"NaN", "0", "Infinity", "-Infinity"}
  {
    var body := TrimmedLayout(x.digits, x.n);
    TrimShape(x.digits);
    LayoutStartsWithDigit(TrimZeros(x.digits), x.n);
    assert FormatNumber(x)[|Sign(x.neg)|] == body[0];
    assert "NaN"[0] == 'N' && "Infinity"[0] == 'I' && "-Infinity"[1] == 'I';
    if !x.neg {
      assert FormatNumber(x) == body;
      NotZero(x);
    }
  }

  lemma NotZero(x: Number)
    requires x.Finite? && Rendered(x)
    ensures TrimmedLayout(x.digits, x.n) != "0"
  {
    RenderingsDenote(x);
    MagnitudePositive(x.digits, x.n);
    ZeroDenotes();
  }

  lemma MagnitudePositive(digits: string, n: int)
    requires Significand(digits)
    ensures Magnitude(digits, n) > 0.0
  {
    ReadPositive(digits);
    ScaleInjective(ReadNat(digits) as real, 0.0, n - |digits|);
  }

  lemma ZeroDenotes()
    ensures Decode("0").Value() == 0.0
  {
    DecodePlain("0", "", false, 0, "0");
    assert ReadNat("0") == 0;
  }

  lemma FiniteNames(x: Number, y: Number)
    requires x.Finite? && y.Finite? && Rendered(x) && Rendered(y)
    ensures FormatNumber(x) == FormatNumber(y) <==> SameNumber(x, y)
  {
    SignsDiffer(x);
    SignsDiffer(y);
    if x.neg == y.neg {
      SignInjective(x.neg, TrimmedLayout(x.digits, x.n), TrimmedLayout(y.digits, y.n));
      if SameNumber(x, y) {
        SameValueSameText(x, y);
      } else {
        SameTextSameValue(x, y);
      }
    }
  }

  lemma SameTextSameValue(x: Number, y: Number)
    requires x.Finite? && y.Finite? && Rendered(x) && Rendered(y)
    ensures TrimmedLayout(x.digits, x.n) == TrimmedLayout(y.digits, y.n) ==>
            Magnitude(x.digits, x.n) == Magnitude(y.digits, y.n)
  {
    RenderingsDenote(x);
    RenderingsDenote(y);
  }

  lemma SignsDiffer(x: Number)
    requires x.Finite? && Rendered(x)
    ensures FormatNumber(x) != "" && (FormatNumber(x)[0] == '-' <==> x.neg)
  {
    TrimShape(x.digits);
    LayoutStartsWithDigit(TrimZeros(x.digits), x.n);
  }

  lemma SameValueSameText(x: Number, y: Number)
    requires x.Finite? && y.Finite? && Rendered(x) && Rendered(y) && SameNumber(x, y)
    ensures TrimmedLayout(x.digits, x.n) == TrimmedLayout(y.digits, y.n)
  {
    var a, b := TrimZeros(x.digits), TrimZeros(y.digits);
    TrimShape(x.digits);
    TrimShape(y.digits);
    TrimKeepsValue(x.digits, x.n);
    TrimKeepsValue(y.digits, y.n);
    if x.n - |a| <= y.n - |b| {
      SameValueSamePoint(a, x.n, b, y.n);
    } else {
      SameValueSamePoint(b, y.n, a, x.n);
    }
  }
}
