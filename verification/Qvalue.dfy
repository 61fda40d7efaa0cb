/** Quality values (section 12.4.2 of RFC 9110), as parse_quality in core/src/negotiation.rs reads them. */
module Qvalue {
  import opened Wrappers
  import opened Text

  const QUALITY_MAX: nat := 1000

  function Digit(c: char): nat
    requires IsDigit(c)
  {
    (c - '0') as nat
  }

  // ----- the grammar and its meaning -----

  /** `qvalue = ( "0" [ "." 0*3DIGIT ] ) / ( "1" [ "." 0*3("0") ] )` */
  predicate IsQvalue(s: string) {
    && s != ""
    && (s[0] == '0' || s[0] == '1')
    && (|s| == 1 ||
        (&& s[1] == '.' && |s| <= 5
         && AllDigits(s[2..])
         && (s[0] == '1' ==> forall i :: 2 <= i < |s| ==> s[i] == '0')))
  }

  /** The number the digits after the point stand for. */
  function Fraction(digits: string): real
    requires AllDigits(digits)
  {
    if digits == "" then 0.0 else (Digit(digits[0]) as real + Fraction(digits[1..])) / 10.0
  }

  /** The number a qvalue stands for. */
  function ValueOf(s: string): real
    requires IsQvalue(s)
  {
    Digit(s[0]) as real + (if |s| == 1 then 0.0 else Fraction(s[2..]))
  }

  // ----- the parser -----

  /** The digits after the point, in thousandths. */
  function Thousandths(digits: string): nat
    requires AllDigits(digits) && |digits| <= 3
  {
    var d := (i: nat) => if i < |digits| then Digit(digits[i]) else 0;
    100 * d(0) + 10 * d(1) + d(2)
  }

  /** parse_quality, as a function: a quality for each qvalue, and for nothing else. */
  function Quality(s: string): (r: Option<nat>)
    ensures r.Some? <==> IsQvalue(s)
    ensures r.Some? ==> r.value <= QUALITY_MAX
  {
    if !IsQvalue(s) then None
    else if s[0] == '1' then Some(QUALITY_MAX)
    else Some(Thousandths(if |s| == 1 then "" else s[2..]))
  }

  lemma FractionOfThree(digits: string)
    requires AllDigits(digits) && |digits| <= 3
    ensures Thousandths(digits) as real == 1000.0 * Fraction(digits)
  {
    if |digits| > 0 {
      var d1 := digits[1..];
      assert Fraction(digits) == (Digit(digits[0]) as real + Fraction(d1)) / 10.0;
      if |digits| > 1 {
        var d2 := d1[1..];
        assert Fraction(d1) == (Digit(digits[1]) as real + Fraction(d2)) / 10.0;
        if |digits| > 2 {
          assert d2[1..] == "";
          assert Fraction(d2) == (Digit(digits[2]) as real + Fraction(d2[1..])) / 10.0;
        }
      }
    }
  }

  lemma {:induction false} ZerosAreNothing(digits: string)
    requires forall i :: 0 <= i < |digits| ==> digits[i] == '0'
    ensures AllDigits(digits) && Fraction(digits) == 0.0
  {
    if digits != "" {
      ZerosAreNothing(digits[1..]);
    }
  }

  /** What is read is a thousand times what is meant, exactly. */
  lemma QualityIsThousandfold(s: string)
    requires IsQvalue(s)
    ensures Quality(s).value as real == 1000.0 * ValueOf(s)
  {
    if |s| > 1 {
      if s[0] == '1' {
        ZerosAreNothing(s[2..]);
      } else {
        FractionOfThree(s[2..]);
      }
    }
  }

  /** parse_quality. */
  method ParseQuality(value: string) returns (r: Option<nat>)
    ensures r == Quality(value)
  {
    var (whole, fractional) := match SplitOnce(value, '.') case Some(parts) => parts case None => (value, "");
    assert '.' in value ==> value == whole + "." + fractional;
    assert IsQvalue(value) ==> |whole| == 1 && (whole == "0" || whole == "1");
    if |fractional| > 3 || !AllDigits(fractional) {
      assert whole == "0" || whole == "1" ==> |value| > 1 && value[2..] == fractional;
      return None;
    }
    match whole {
      case "0" =>
        assert value == "0" || value[2..] == fractional;
        var quality, place := 0, 100;
        for i := 0 to |fractional|
          invariant place == if i == 0 then 100 else if i == 1 then 10 else if i == 2 then 1 else 0
          invariant quality == Thousandths(fractional[..i])
        {
          quality := quality + Digit(fractional[i]) * place;
          place := place / 10;
        }
        assert fractional[..|fractional|] == fractional;
        return Some(quality);
      case "1" =>
        assert value == "1" || value[2..] == fractional;
        if forall i :: 0 <= i < |fractional| ==> fractional[i] == '0' {
          return Some(QUALITY_MAX);
        }
        assert !IsQvalue(value);
        return None;
      case _ =>
        return None;
    }
  }

  // ----- printing -----

  function DigitChar(n: nat): (c: char)
    requires n < 10
    ensures IsDigit(c) && Digit(c) == n
  {
    '0' + (n as char)
  }

  /** With three digits after the point. */
  function PrintQuality(q: nat): (s: string)
    requires q <= QUALITY_MAX
    ensures |s| == 5
  {
    [DigitChar(q / 1000), '.', DigitChar(q / 100 % 10), DigitChar(q / 10 % 10), DigitChar(q % 10)]
  }

  /** What is printed is a qvalue, and reads back. */
  lemma PrintedQualityReads(q: nat)
    requires q <= QUALITY_MAX
    ensures IsQvalue(PrintQuality(q)) && Quality(PrintQuality(q)) == Some(q)
  {
    var s := PrintQuality(q);
    var digits := s[2..];
    assert digits == [s[2], s[3], s[4]];
    assert AllDigits(digits) && Digit(s[0]) == q / 1000;
    assert Digit(digits[0]) == q / 100 % 10 && Digit(digits[1]) == q / 10 % 10 && Digit(digits[2]) == q % 10;
    hide DigitChar;
    DigitsOf(q);
  }

  lemma DigitsOf(q: nat)
    requires q <= QUALITY_MAX
    ensures q == 1000 * (q / 1000) + 100 * (q / 100 % 10) + 10 * (q / 10 % 10) + q % 10
    ensures q / 1000 == 0 || q == 1000
  {
    assert q == 10 * (q / 10) + q % 10;
    assert q / 10 == 10 * (q / 100) + q / 10 % 10;
    assert q / 100 == 10 * (q / 1000) + q / 100 % 10;
  }
}
