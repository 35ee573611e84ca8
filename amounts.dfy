/** Money amounts and the text the service prints for them. */
module Amounts {

  /** An amount of money in whole cents; the source keeps Kotlin `Double`s. */
  type Amount = int

  function DigitChar(d: nat): (c: char)
    requires d < 10
    ensures '0' <= c <= '9'
  {
    ('0' as int + d) as char
  }

  predicate IsDigits(s: string) {
    forall i :: 0 <= i < |s| ==> '0' <= s[i] <= '9'
  }

  /** The decimal digits of `n`, most significant first, without leading zeros. */
  function NatToDecimal(n: nat): (s: string)
    ensures 1 <= |s|
    ensures IsDigits(s)
    ensures n >= 10 ==> s[0] != '0'
    decreases n
  {
    if n < 10 then [DigitChar(n)] else NatToDecimal(n / 10) + [DigitChar(n % 10)]
  }

  /** The digits after the decimal point for `c` hundredths, trailing zeros dropped
      but at least one digit kept, as `Double.toString` prints them. */
  function FractionDigits(c: nat): (s: string)
    requires c < 100
    ensures 1 <= |s| <= 2 && IsDigits(s)
    ensures |s| == 2 ==> s[1] != '0'
  {
    if c % 10 == 0 then [DigitChar(c / 10)] else [DigitChar(c / 10), DigitChar(c % 10)]
  }

  /** The text of `"$amount"` for a Double holding `a` cents: an optional minus sign,
      the whole part, a point and the fraction (`4550` prints as `45.5`, `30000` as `300.0`). */
  function FormatAmount(a: Amount): (s: string)
  {
    var m := if a < 0 then -a else a;
    (if a < 0 then "-" else "") + NatToDecimal(m / 100) + "." + FractionDigits(m % 100)
  }

  /** The printed total never contains a colon, so it survives `split(":")`. */
  lemma FormatAmountHasNoColon(a: Amount)
    ensures ':' !in FormatAmount(a)
  {
    var m := if a < 0 then -a else a;
    var whole, frac := NatToDecimal(m / 100), FractionDigits(m % 100);
    var sign: string := if a < 0 then "-" else "";
    assert FormatAmount(a) == sign + whole + "." + frac;
    forall i | 0 <= i < |FormatAmount(a)| ensures FormatAmount(a)[i] != ':' {
      if i < |sign| {
      } else if i < |sign| + |whole| {
        assert FormatAmount(a)[i] == whole[i - |sign|];
      } else if i == |sign| + |whole| {
      } else {
        assert FormatAmount(a)[i] == frac[i - |sign| - |whole| - 1];
      }
    }
  }

  /** The value of a string of decimal digits. */
  function DecimalValue(s: string): (n: nat)
    requires IsDigits(s)
    decreases |s|
  {
    if s == [] then 0 else 10 * DecimalValue(s[..|s| - 1]) + (s[|s| - 1] as int - '0' as int)
  }

  lemma {:induction false} DecimalValueOfNatToDecimal(n: nat)
    ensures DecimalValue(NatToDecimal(n)) == n
    decreases n
  {
    if n >= 10 {
      var s := NatToDecimal(n);
      assert s[..|s| - 1] == NatToDecimal(n / 10);
      DecimalValueOfNatToDecimal(n / 10);
    }
  }

  /** A point after a run of digits is found at one place only. */
  lemma SplitAtPoint(w1: string, f1: string, w2: string, f2: string)
    requires IsDigits(w1) && IsDigits(w2)
    requires w1 + "." + f1 == w2 + "." + f2
    ensures w1 == w2 && f1 == f2
  {
    var r1, r2 := w1 + "." + f1, w2 + "." + f2;
    assert r1[|w1|] == '.' && r2[|w2|] == '.';
    assert forall i :: 0 <= i < |w1| ==> r1[i] == w1[i];
    assert forall i :: 0 <= i < |w2| ==> r2[i] == w2[i];
    assert |w1| == |w2|;
    assert w1 == r1[..|w1|] && w2 == r2[..|w2|];
    assert f1 == r1[|w1| + 1..] && f2 == r2[|w2| + 1..];
  }

  lemma FractionDigitsInjective(c: nat, d: nat)
    requires c < 100 && d < 100
    requires FractionDigits(c) == FractionDigits(d)
    ensures c == d
  {
    var fc, fd := FractionDigits(c), FractionDigits(d);
    assert fc[0] as int - '0' as int == c / 10;
    assert fd[0] as int - '0' as int == d / 10;
    if c % 10 != 0 || d % 10 != 0 {
      assert |fc| == 2 && |fd| == 2;
      assert fc[1] as int - '0' as int == c % 10;
      assert fd[1] as int - '0' as int == d % 10;
    }
  }

  /** Different totals print differently: the text after "success:" identifies the total. */
  lemma FormatAmountInjective(a: Amount, b: Amount)
    requires FormatAmount(a) == FormatAmount(b)
    ensures a == b
  {
    var ma, mb := if a < 0 then -a else a, if b < 0 then -b else b;
    var wa, wb := NatToDecimal(ma / 100), NatToDecimal(mb / 100);
    var fa, fb := FractionDigits(ma % 100), FractionDigits(mb % 100);
    var sa: string, sb: string := if a < 0 then "-" else "", if b < 0 then "-" else "";
    var ra, rb := wa + "." + fa, wb + "." + fb;
    assert FormatAmount(a) == sa + ra;
    assert FormatAmount(b) == sb + rb;
    assert (a < 0) == (b < 0) by {
      assert FormatAmount(a)[0] == (if a < 0 then '-' else wa[0]);
      assert FormatAmount(b)[0] == (if b < 0 then '-' else wb[0]);
    }
    assert ra == FormatAmount(a)[|sa|..] && rb == FormatAmount(b)[|sb|..];
    SplitAtPoint(wa, fa, wb, fb);
    DecimalValueOfNatToDecimal(ma / 100);
    DecimalValueOfNatToDecimal(mb / 100);
    FractionDigitsInjective(ma % 100, mb % 100);
  }
}
