/** `mcHexDigest` of KYUtils.kt: a digest rendered as a signed base-16 number,
    the way `BigInteger(digest).toString(16)` prints it on the JVM. The byte
    array is read as a big-endian two's-complement integer; a negative one is
    negated in place and printed with a minus sign. */
module Digest {
  import opened Bytes
  import opened HexText
  import opened TwosComplement

  /** `hash[0].toInt() < 0`: the sign bit of the first byte is set. */
  predicate IsNegative(hash: seq<byte>)
    requires |hash| > 0
  {
    hash[0] >= 128
  }

  /** The buffer as a big-endian two's-complement integer (`BigInteger(byte[])`). */
  function SignedValue(hash: seq<byte>): (v: int)
    requires |hash| > 0
  {
    if IsNegative(hash) then Value(hash) - Pow256(|hash|) else Value(hash)
  }

  /** `BigInteger.toString(16)`: a minus sign for negative numbers, then the
      shortest lowercase digits of the magnitude; "0" for zero. */
  function SignedHex(v: int): (t: string)
  {
    if v < 0 then "-" + NatHex(-v) else NatHex(v)
  }

  /** The text `mcHexDigest` returns and what it leaves in the caller's array. */
  datatype Rendering = Rendering(text: string, buffer: seq<byte>)

  /** `joinToString("") { "%02x".format(it) }.replace("^0+".toRegex(), "")`:
      the canonical hex of the buffer's value, or nothing for a zero buffer. */
  function Magnitude(buffer: seq<byte>): (m: string)
    ensures IsHexText(m) && (|m| > 0 ==> m[0] != '0')
    ensures Value(buffer) > 0 ==> m == NatHex(Value(buffer))
    ensures Value(buffer) == 0 ==> m == ""
  {
    StripKeepsValue(Hex(buffer));
    StrippedHexIsCanonical(buffer);
    StripLeadingZeros(Hex(buffer))
  }

  /** A negative digest: its negation holds the magnitude 256^n - value. */
  lemma {:induction false} NegativeMagnitude(hash: seq<byte>)
    requires |hash| > 0 && IsNegative(hash)
    ensures SignedValue(hash) < 0
    ensures Value(Negate(hash)) == -SignedValue(hash)
  {
    ValueBound(hash);
    ValuePositive(hash);
    NegateValueCases(hash);
  }

  /** `mcHexDigest`, as written. */
  function McHexDigest(hash: seq<byte>): (r: Rendering)
    requires |hash| > 0
    ensures (|r.text| > 0 && r.text[0] == '-') <==> IsNegative(hash)
    ensures var digits := if IsNegative(hash) then r.text[1..] else r.text;
      IsHexText(digits) && (|digits| > 0 ==> digits[0] != '0')
    ensures SignedValue(hash) != 0 ==> r.text == SignedHex(SignedValue(hash))
    ensures SignedValue(hash) == 0 ==> r.text == ""
    ensures IsNegative(hash) ==> r.buffer == Negate(hash)
    ensures IsNegative(hash) ==> Value(r.buffer) == Pow256(|hash|) - Value(hash)
    ensures !IsNegative(hash) ==> r.buffer == hash
  {
    if hash[0] >= 128 then
      var buffer := Negate(hash);
      var magnitude := Magnitude(buffer);
      NegativeMagnitude(hash);
      assert ("-" + magnitude)[1..] == magnitude;
      Rendering("-" + magnitude, buffer)
    else
      var magnitude := Magnitude(hash);
      assert |magnitude| > 0 ==> IsHexChar(magnitude[0]);
      Rendering(magnitude, hash)
  }

  /** The caller's array after the call: negated when the digest was negative,
      untouched otherwise; negating it again recovers the digest. */
  lemma McHexDigestBuffer(hash: seq<byte>)
    requires |hash| > 0
    ensures IsNegative(hash) ==> McHexDigest(hash).buffer == Negate(hash)
    ensures IsNegative(hash) ==> Negate(McHexDigest(hash).buffer) == hash
    ensures !IsNegative(hash) ==> McHexDigest(hash).buffer == hash
  {
    NegateInvolution(hash);
  }

  /** `mcHexDigest` on a JVM array: the negation happens in place. */
  method McHexDigestInPlace(hash: array<byte>) returns (text: string)
    requires hash.Length > 0
    modifies hash
    ensures text == McHexDigest(old(hash[..])).text
    ensures hash[..] == McHexDigest(old(hash[..])).buffer
  {
    if hash[0] >= 128 {
      PerformTwosComplement(hash);
      text := "-" + Magnitude(hash[..]);
    } else {
      text := Magnitude(hash[..]);
    }
  }

  /** An all-zero digest (such as 20 bytes 0x00) prints as the empty string,
      where `BigInteger.toString(16)` prints "0". */
  lemma ZeroDigestRendersEmpty(hash: seq<byte>)
    requires |hash| > 0 && AllZero(hash)
    ensures McHexDigest(hash).text == ""
    ensures SignedHex(SignedValue(hash)) == "0"
  {
    ValueZeroIffAllZero(hash);
  }

  /** `mcHexDigest` with the zero case printed as "0", as `BigInteger.toString(16)` does. */
  function McHexDigestCorrected(hash: seq<byte>): (r: Rendering)
    requires |hash| > 0
    ensures r.text == SignedHex(SignedValue(hash))
    ensures r.buffer == McHexDigest(hash).buffer
  {
    var rendered := McHexDigest(hash);
    if rendered.text == "" then Rendering("0", rendered.buffer) else rendered
  }
}
