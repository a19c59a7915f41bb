/** The notation of a number as a source name: when it has an exponent, and how that is written. */
module Notation {
  import opened Common
  import opened Numbers
  import opened Rerender

  lemma {:induction false} NoLetter(digits: string)
    requires AllDigits(digits)
    ensures 'e' !in digits && '+' !in digits && '-' !in digits && '.' !in digits
  {
  }

  /** Far from one: at least ten to the 21, or less than a millionth. */
  ghost predicate Far(value: real) { value >= Scale(1.0, 21) || value < Scale(1.0, -6) }

  lemma FarIs(digits: string, n: int)
    requires Significand(digits)
    ensures Far(Magnitude(digits, n)) <==> n > 21 || n <= -6
    ensures Magnitude(digits, n) >= 1.0 <==> n >= 1
  {
    MagnitudeRange(digits, n);
    ScaleLinear(1.0, n - |digits|);
    if n > 21 {
      UnitGrows(21, n - 1);
    } else {
      UnitGrows(n, 21);
    }
    if n <= -6 {
      UnitGrows(n, -6);
    } else {
      UnitGrows(-6, n - 1);
    }
    if n >= 1 {
      UnitGrows(0, n - 1);
    } else {
      UnitGrows(n, 0);
    }
  }

  /** The parts of an exponent form: the mantissa, the letter, the sign and the digits of the exponent. */
  ghost predicate ExponentForm(text: string, mantissa: string, sign: char, exponent: string) {
    && text == mantissa + "e" + [sign] + exponent && 'e' !in mantissa
    && exponent != "" && AllDigits(exponent)
  }

  /**
   * A number has an exponent exactly when it is far from one, and the exponent has a sign: a plus for a
   * number of at least one, which a reader of the number would not miss.
   */
  lemma ExponentWhenFar(digits: string, n: int)
    requires Significand(digits)
    ensures 'e' in Layout(digits, n) <==> Far(Magnitude(digits, n))
    ensures var sign := if Magnitude(digits, n) >= 1.0 then '+' else '-';
            Far(Magnitude(digits, n)) ==>
              exists exponent :: ExponentForm(Layout(digits, n), Mantissa(digits), sign, exponent)
  {
    FarIs(digits, n);
    NoLetter(digits);
    if n > 21 || n <= -6 {
      FarLayout(digits, n);
    } else {
      NearLayout(digits, n);
    }
  }

  lemma FarLayout(digits: string, n: int)
    requires Significand(digits) && (n > 21 || n <= -6)
    ensures 'e' in Layout(digits, n)
    ensures var sign := if n >= 1 then '+' else '-';
            exists exponent :: ExponentForm(Layout(digits, n), Mantissa(digits), sign, exponent)
  {
    NoLetter(digits);
    var mantissa, power := Mantissa(digits), if n - 1 < 0 then 1 - n else n - 1;
    assert 'e' !in mantissa;
    var text := Layout(digits, n);
    assert text == mantissa + "e" + Exponent(n - 1);
    var sign := if n >= 1 then '+' else '-';
    assert Exponent(n - 1) == [sign] + Decimal(power);
    assert text == mantissa + "e" + [sign] + Decimal(power);
    assert text[|mantissa|] == 'e';
    assert ExponentForm(text, mantissa, sign, Decimal(power));
  }

  lemma NearLayout(digits: string, n: int)
    requires Significand(digits) && -6 < n <= 21
    ensures 'e' !in Layout(digits, n)
  {
    NoLetter(digits);
    assert forall count: nat :: 'e' !in Zeros(count);
  }

  /** Before the exponent stands one digit, and a point only if there are more. */
  lemma MantissaIs(digits: string)
    requires Significand(digits)
    ensures Mantissa(digits) == (if |digits| == 1 then digits else [digits[0]] + "." + digits[1..])
  {
    assert digits[..1] == [digits[0]];
  }

  ghost predicate OnlyZeros(text: string, count: int) {
    |text| == count && forall i :: 0 <= i < |text| ==> text[i] == '0'
  }

  /** A number near one is its digits, with zeros after them, a point among them, or a point and zeros before them. */
  lemma NearForms(digits: string, n: int) returns (zeros: string)
    requires Significand(digits) && -6 < n <= 21
    ensures n >= |digits| ==> OnlyZeros(zeros, n - |digits|) && Layout(digits, n) == digits + zeros
    ensures 0 < n < |digits| ==> Layout(digits, n) == digits[..n] + "." + digits[n..]
    ensures n <= 0 ==> OnlyZeros(zeros, -n) && Layout(digits, n) == "0." + zeros + digits
  {
    zeros := if n >= |digits| then Zeros(n - |digits|) else if n <= 0 then Zeros(-n) else "";
    if n <= 0 {
      assert "0" + "." + (Zeros(-n) + digits) == "0." + Zeros(-n) + digits;
    }
  }

  /** What is no finite number has the same name in both ports, and zero has no sign. */
  lemma SpecialNames(neg: bool)
    ensures FormatNumber(NaN) == JsNumberToString(NaN) == "NaN"
    ensures FormatNumber(Infinite(neg)) == JsNumberToString(Infinite(neg)) == if neg then "-Infinity" else "Infinity"
    ensures FormatNumber(Zero(neg)) == JsNumberToString(Zero(neg)) == "0"
  {
  }
}
