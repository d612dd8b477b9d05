/** Unsigned bytes and the big-endian value of a byte buffer.

    A JVM `ByteArray` holds signed bytes; the model keeps the unsigned reading
    (0..255) and recovers the signed one where the source asks for it
    (`hash[0].toInt() < 0` is `hash[0] >= 128`). */
module Bytes {

  type byte = x: int | 0 <= x < 256

  /** 256^n, the number of distinct buffers of length n. */
  function Pow256(n: nat): (p: nat)
    ensures p >= 1
  {
    if n == 0 then 1 else 256 * Pow256(n - 1)
  }

  /** The big-endian unsigned value of a buffer: the first byte is the most significant. */
  function Value(s: seq<byte>): (v: nat)
  {
    if |s| == 0 then 0 else 256 * Value(s[..|s| - 1]) + s[|s| - 1]
  }

  /** Appending a byte shifts the value up by one byte position. */
  lemma ValueSnoc(x: seq<byte>, b: byte)
    ensures Value(x + [b]) == 256 * Value(x) + b
  {
    assert (x + [b])[..|x|] == x;
  }

  /** True when every byte of the buffer is 0x00. */
  predicate AllZero(s: seq<byte>)
  {
    forall i :: 0 <= i < |s| ==> s[i] == 0
  }

  /** n bytes of 0x00. */
  function Zeros(n: nat): (z: seq<byte>)
    ensures |z| == n && AllZero(z)
  {
    seq(n, _ => 0)
  }

  /** A buffer of n bytes holds a value below 256^n. */
  lemma {:induction false} ValueBound(s: seq<byte>)
    ensures Value(s) < Pow256(|s|)
  {
    if |s| > 0 {
      ValueBound(s[..|s| - 1]);
    }
  }

  /** The value is zero exactly for the all-zero buffers. */
  lemma {:induction false} ValueZeroIffAllZero(s: seq<byte>)
    ensures Value(s) == 0 <==> AllZero(s)
  {
    if |s| > 0 {
      var p := s[..|s| - 1];
      ValueZeroIffAllZero(p);
      if AllZero(s) {
        assert AllZero(p) by {
          forall i | 0 <= i < |p| ensures p[i] == 0 { assert p[i] == s[i]; }
        }
      } else if AllZero(p) {
        assert s == p + [s[|s| - 1]];
        assert s[|s| - 1] != 0;
      }
    }
  }

  /** A buffer with a non-zero leading byte has a non-zero value. */
  lemma {:induction false} ValuePositive(s: seq<byte>)
    requires |s| > 0 && s[0] > 0
    ensures Value(s) > 0
  {
    if |s| > 1 {
      var p := s[..|s| - 1];
      assert p[0] == s[0];
      ValuePositive(p);
    }
  }
}
