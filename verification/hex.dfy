/** Lowercase hexadecimal text: the per-byte `"%02x"` rendering used by
    `mcHexDigest` (KYUtils.kt) and `createHash` (KYServer.kt), the removal of
    leading zeros done by `replace("^0+".toRegex(), "")`, and, as a reference,
    the canonical base-16 digits of a natural number as `BigInteger.toString(16)`
    prints them. */
module HexText {
  import opened Bytes
  import opened Optional

  type nibble = x: int | 0 <= x < 16

  /** The lowercase digit for 0..15. */
  function HexDigit(d: nibble): char
  {
    if d < 10 then ('0' as int + d) as char else ('a' as int + d - 10) as char
  }

  predicate IsHexChar(c: char)
  {
    '0' <= c <= '9' || 'a' <= c <= 'f'
  }

  predicate IsHexText(t: string)
  {
    forall i :: 0 <= i < |t| ==> IsHexChar(t[i])
  }

  /** The number a lowercase digit stands for. */
  function DigitValue(c: char): nibble
    requires IsHexChar(c)
  {
    if c <= '9' then c as int - '0' as int else c as int - 'a' as int + 10
  }

  /** Digits and their values are in one-to-one correspondence. */
  lemma DigitRoundTrip(d: nibble, c: char)
    ensures IsHexChar(HexDigit(d)) && DigitValue(HexDigit(d)) == d
    ensures IsHexChar(c) ==> HexDigit(DigitValue(c)) == c
  {
  }

  /** The number a run of hex digits denotes, most significant digit first. */
  function HexValue(t: string): (v: nat)
    requires IsHexText(t)
  {
    if |t| == 0 then 0 else 16 * HexValue(t[..|t| - 1]) + DigitValue(t[|t| - 1])
  }

  lemma HexValueSnoc(t: string, c: char)
    requires IsHexText(t) && IsHexChar(c)
    ensures IsHexText(t + [c])
    ensures HexValue(t + [c]) == 16 * HexValue(t) + DigitValue(c)
  {
    assert (t + [c])[..|t|] == t;
  }

  /** `"%02x".format(b)`: exactly two lowercase digits, high nibble first,
      denoting the unsigned byte. */
  function ByteHex(b: byte): (r: string)
    ensures |r| == 2 && IsHexText(r)
    ensures HexValue(r) == b
  {
    var hi, lo := HexDigit(b / 16), HexDigit(b % 16);
    DigitRoundTrip(b / 16, hi);
    DigitRoundTrip(b % 16, lo);
    HexValueSnoc([hi], lo);
    assert [hi] == [] + [hi];
    HexValueSnoc([], hi);
    [hi, lo]
  }

  /** `joinToString("") { "%02x".format(it) }`: two digits per byte, no sign,
      no zero stripping; the text denotes the buffer's big-endian value. */
  function Hex(s: seq<byte>): (r: string)
    ensures |r| == 2 * |s| && IsHexText(r)
    ensures HexValue(r) == Value(s)
  {
    if |s| == 0 then ""
    else
      var p, b := s[..|s| - 1], s[|s| - 1];
      var t, h := Hex(p), ByteHex(b);
      assert s == p + [b];
      ValueSnoc(p, b);
      HexValueSnoc(t, h[0]);
      HexValueSnoc(t + [h[0]], h[1]);
      assert t + h == t + [h[0]] + [h[1]];
      assert HexValue(h) == 16 * DigitValue(h[0]) + DigitValue(h[1]) by {
        assert h == [h[0]] + [h[1]];
        HexValueSnoc([h[0]], h[1]);
        assert [h[0]] == [] + [h[0]];
        HexValueSnoc([], h[0]);
      }
      t + h
  }

  /** Reads text two digits at a time back into bytes; refuses odd lengths and
      non-digits. */
  function UnHex(t: string): (r: Option<seq<byte>>)
  {
    if |t| == 0 then Some([])
    else if |t| < 2 || !IsHexChar(t[|t| - 2]) || !IsHexChar(t[|t| - 1]) then None
    else
      match UnHex(t[..|t| - 2])
      case None => None
      case Some(p) => Some(p + [16 * DigitValue(t[|t| - 2]) + DigitValue(t[|t| - 1])])
  }

  /** Reading back one more rendered byte appends that byte. */
  lemma UnHexSnoc(x: string, b: byte)
    ensures UnHex(x + ByteHex(b)) == if UnHex(x).None? then None else Some(UnHex(x).value + [b])
  {
    var hi, lo := HexDigit(b / 16), HexDigit(b % 16);
    var t := x + ByteHex(b);
    assert t[..|t| - 2] == x;
    DigitRoundTrip(b / 16, hi);
    DigitRoundTrip(b % 16, lo);
  }

  /** Hex rendering loses nothing: the bytes can be read back. */
  lemma {:induction false} HexRoundTrip(s: seq<byte>)
    ensures UnHex(Hex(s)) == Some(s)
  {
    if |s| > 0 {
      var p, b := s[..|s| - 1], s[|s| - 1];
      assert Hex(s) == Hex(p) + ByteHex(b);
      HexRoundTrip(p);
      UnHexSnoc(Hex(p), b);
      assert s == p + [b];
    }
  }

  /** `replace("^0+".toRegex(), "")`: drops the run of '0' characters at the
      front and nothing else. */
  function StripLeadingZeros(t: string): (r: string)
    ensures |r| <= |t| && r == t[|t| - |r|..]
    ensures forall i :: 0 <= i < |t| - |r| ==> t[i] == '0'
    ensures |r| > 0 ==> r[0] != '0'
  {
    if |t| > 0 && t[0] == '0' then StripLeadingZeros(t[1..]) else t
  }

  /** A leading '0' digit does not change the value. */
  lemma {:induction false} HexValueLeadingZero(u: string)
    requires IsHexText(u)
    ensures IsHexText("0" + u) && HexValue("0" + u) == HexValue(u)
  {
    if |u| > 0 {
      var p := u[..|u| - 1];
      HexValueLeadingZero(p);
      assert ("0" + u)[..|u|] == "0" + p;
    }
  }

  /** Stripping leading zeros keeps the text a run of digits with the same value. */
  lemma {:induction false} StripKeepsValue(t: string)
    requires IsHexText(t)
    ensures IsHexText(StripLeadingZeros(t))
    ensures HexValue(StripLeadingZeros(t)) == HexValue(t)
  {
    if |t| > 0 && t[0] == '0' {
      StripKeepsValue(t[1..]);
      HexValueLeadingZero(t[1..]);
      assert t == "0" + t[1..];
    }
  }

  /** `BigInteger.toString(16)` of a non-negative number: the shortest digit
      string, "0" for zero. */
  function NatHex(v: nat): (r: string)
    ensures |r| > 0 && IsHexText(r)
    ensures HexValue(r) == v
    ensures v == 0 ==> r == "0"
    ensures v > 0 ==> r[0] != '0'
    decreases v
  {
    if v < 16 then
      DigitRoundTrip(v, '0');
      HexValueSnoc([], HexDigit(v));
      assert [] + [HexDigit(v)] == [HexDigit(v)];
      [HexDigit(v)]
    else
      var t := NatHex(v / 16);
      DigitRoundTrip(v % 16, '0');
      HexValueSnoc(t, HexDigit(v % 16));
      t + [HexDigit(v % 16)]
  }

  /** A non-empty digit run starts at least as high as its leading digit. */
  lemma {:induction false} HexValueAtLeastLeading(t: string)
    requires IsHexText(t) && |t| > 0
    ensures HexValue(t) >= DigitValue(t[0])
  {
    if |t| > 1 {
      HexValueAtLeastLeading(t[..|t| - 1]);
    }
  }

  /** A digit run without a leading zero is the canonical rendering of its value. */
  lemma {:induction false} CanonicalHexUnique(t: string)
    requires IsHexText(t) && |t| > 0 && t[0] != '0'
    ensures NatHex(HexValue(t)) == t
  {
    DigitRoundTrip(0, t[|t| - 1]);
    if |t| == 1 {
      assert t == [t[0]];
    } else {
      var p, c := t[..|t| - 1], t[|t| - 1];
      HexValueAtLeastLeading(p);
      var v := HexValue(t);
      assert v == 16 * HexValue(p) + DigitValue(c);
      assert v / 16 == HexValue(p) && v % 16 == DigitValue(c);
      CanonicalHexUnique(p);
      assert t == p + [c];
    }
  }

  /** The stripped two-digits-per-byte rendering of a buffer is the canonical
      rendering of its value, except that a zero buffer strips to nothing. */
  lemma StrippedHexIsCanonical(s: seq<byte>)
    ensures Value(s) > 0 ==> StripLeadingZeros(Hex(s)) == NatHex(Value(s))
    ensures Value(s) == 0 ==> StripLeadingZeros(Hex(s)) == ""
  {
    var t := StripLeadingZeros(Hex(s));
    StripKeepsValue(Hex(s));
    if |t| > 0 {
      HexValueAtLeastLeading(t);
      DigitRoundTrip(0, t[0]);
      CanonicalHexUnique(t);
    }
  }
}
