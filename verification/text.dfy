/** Text helpers the protocol code relies on: Kotlin's `String.contains` and the
    decimal rendering of an `Int` inside a string template. */
module Text {

  /** needle sits in hay starting at offset i. */
  ghost predicate OccursAt(hay: string, needle: string, i: int)
  {
    0 <= i && i + |needle| <= |hay| && hay[i..i + |needle|] == needle
  }

  /** The specification of `hay.contains(needle)`: needle occurs at some offset. */
  ghost predicate Occurs(hay: string, needle: string)
  {
    exists i :: OccursAt(hay, needle, i)
  }

  /** `hay.contains(needle)`, computed by trying every offset from the left. */
  function Contains(hay: string, needle: string): (b: bool)
    ensures b <==> Occurs(hay, needle)
  {
    if |needle| <= |hay| && hay[..|needle|] == needle then
      assert OccursAt(hay, needle, 0);
      true
    else if |hay| == 0 then
      false
    else
      var b := Contains(hay[1..], needle);
      if b then
        assert Occurs(hay, needle) by {
          var i :| OccursAt(hay[1..], needle, i);
          assert hay[1..][i..i + |needle|] == hay[i + 1..i + 1 + |needle|];
          assert OccursAt(hay, needle, i + 1);
        }
        true
      else
        assert !Occurs(hay, needle) by {
          forall i | 0 < i
            ensures OccursAt(hay, needle, i) == OccursAt(hay[1..], needle, i - 1)
          {
            if i + |needle| <= |hay| {
              assert hay[1..][i - 1..i - 1 + |needle|] == hay[i..i + |needle|];
            }
          }
        }
        false
  }

  predicate IsDigitChar(c: char)
  {
    '0' <= c <= '9'
  }

  /** The number a decimal digit stands for. */
  function DigitOf(c: char): nat
    requires IsDigitChar(c)
  {
    c as int - '0' as int
  }

  /** Every character is a decimal digit. */
  predicate IsDecimalText(t: string)
  {
    forall i :: 0 <= i < |t| ==> IsDigitChar(t[i])
  }

  /** The number a run of decimal digits denotes. */
  function DigitsValue(t: string): nat
    requires IsDecimalText(t)
  {
    if |t| == 0 then 0 else 10 * DigitsValue(t[..|t| - 1]) + DigitOf(t[|t| - 1])
  }

  /** The decimal digits of a natural number, shortest form ("0" for zero):
      the leading digit is '0' only for zero itself. */
  function NatDecimal(n: nat): (r: string)
    ensures |r| > 0 && IsDecimalText(r)
    ensures DigitsValue(r) == n
    ensures r[0] == '0' <==> n == 0
    ensures n == 0 ==> r == "0"
    decreases n
  {
    var d := (('0' as int) + n % 10) as char;
    if n < 10 then
      assert [d][..0] == [];
      [d]
    else
      var t := NatDecimal(n / 10);
      assert (t + [d])[..|t|] == t;
      assert (t + [d])[0] == t[0];
      t + [d]
  }

  /** `"$n"` for an `Int`: a minus sign for negative numbers, then the shortest
      digits of the magnitude. */
  function Decimal(n: int): (r: string)
    ensures |r| > 0
    ensures r[0] == '-' <==> n < 0
    ensures n < 0 ==> |r| > 1 && IsDecimalText(r[1..]) && DigitsValue(r[1..]) == -n && r[1] != '0'
    ensures n >= 0 ==> IsDecimalText(r) && DigitsValue(r) == n && (r[0] == '0' <==> n == 0)
    ensures n == 0 ==> r == "0"
  {
    if n < 0 then "-" + NatDecimal(-n) else NatDecimal(n)
  }

  /** Distinct numbers print differently. */
  lemma DecimalInjective(m: int, n: int)
    ensures Decimal(m) == Decimal(n) ==> m == n
  {
  }
}
