/** Two's-complement negation of a big-endian byte buffer, as done in place by
    `performTwosCompliment` in KYUtils.kt: every byte is inverted and a +1 carry
    walks from the least-significant (last) byte towards the first one. */
module TwosComplement {
  import opened Bytes

  /** Bitwise inversion of every byte (`value.inv() and 0xff`). */
  function Invert(s: seq<byte>): (r: seq<byte>)
    ensures |r| == |s|
  {
    seq(|s|, i requires 0 <= i < |s| => 255 - s[i])
  }

  /** The negation the loop computes, written as a recursion on the last byte:
      trailing 0x00 bytes stay 0x00 while the carry passes through them; the
      last non-zero byte b becomes 256 - b, which absorbs the carry, and every
      byte before it is merely inverted. */
  function Negate(s: seq<byte>): (r: seq<byte>)
    ensures |r| == |s|
  {
    if |s| == 0 then []
    else if s[|s| - 1] == 0 then Negate(s[..|s| - 1]) + [0]
    else Invert(s[..|s| - 1]) + [256 - s[|s| - 1]]
  }

  /** The value of the negation, per case: zero stays zero, and any other
      value v of an n-byte buffer becomes 256^n - v. */
  lemma {:induction false} NegateValueCases(s: seq<byte>)
    ensures Value(s) == 0 ==> Value(Negate(s)) == 0
    ensures Value(s) > 0 ==> Value(Negate(s)) == Pow256(|s|) - Value(s)
  {
    if |s| > 0 {
      var p, b := s[..|s| - 1], s[|s| - 1];
      assert s == p + [b];
      ValueSnoc(p, b);
      if b == 0 {
        NegateValueCases(p);
        ValueSnoc(Negate(p), 0);
      } else {
        InvertValue(p);
        ValueSnoc(Invert(p), 256 - b);
      }
    }
  }

  /** Inversion maps value v of an n-byte buffer to 256^n - 1 - v. */
  lemma {:induction false} InvertValue(s: seq<byte>)
    ensures |Invert(s)| == |s|
    ensures Value(Invert(s)) == Pow256(|s|) - 1 - Value(s)
  {
    if |s| > 0 {
      var p, b := s[..|s| - 1], s[|s| - 1];
      InvertValue(p);
      assert Invert(s) == Invert(p) + [255 - b];
      ValueSnoc(Invert(p), 255 - b);
    }
  }

  /** Inverting twice restores the buffer. */
  lemma InvertInvolution(s: seq<byte>)
    ensures Invert(Invert(s)) == s
  {
  }

  /** The value of the result is (256^n - value(input)) mod 256^n: the buffer
      read as an n-byte two's-complement integer is negated. */
  lemma {:induction false} NegateValue(s: seq<byte>)
    ensures |Negate(s)| == |s|
    ensures Value(Negate(s)) == (Pow256(|s|) - Value(s)) % Pow256(|s|)
  {
    NegateValueCases(s);
    ValueBound(s);
    ComplementMod(Pow256(|s|), Value(s));
  }

  /** (n - v) mod n for 0 <= v < n. */
  lemma ComplementMod(n: int, v: int)
    requires 0 <= v < n
    ensures (n - v) % n == if v == 0 then 0 else n - v
  {
  }

  /** Trailing 0x00 bytes remain 0x00: the carry stays set while it crosses them. */
  lemma {:induction false} NegateTrailingZeros(x: seq<byte>, m: nat)
    ensures Negate(x + Zeros(m)) == Negate(x) + Zeros(m)
  {
    if m == 0 {
      assert x + Zeros(0) == x;
      assert Negate(x) + Zeros(0) == Negate(x);
    } else {
      var y := x + Zeros(m);
      assert Zeros(m) == Zeros(m - 1) + [0];
      assert y == (x + Zeros(m - 1)) + [0];
      assert y[..|y| - 1] == x + Zeros(m - 1);
      assert Negate(y) == Negate(x + Zeros(m - 1)) + [0];
      NegateTrailingZeros(x, m - 1);
    }
  }

  /** An all-zero buffer is its own negation. */
  lemma {:induction false} NegateAllZero(s: seq<byte>)
    requires AllZero(s)
    ensures Negate(s) == s
  {
    assert s == [] + Zeros(|s|);
    NegateTrailingZeros([], |s|);
  }

  /** Negating twice restores the original buffer. */
  lemma {:induction false} NegateInvolution(s: seq<byte>)
    ensures Negate(Negate(s)) == s
  {
    if |s| > 0 {
      var p, b := s[..|s| - 1], s[|s| - 1];
      assert s == p + [b];
      if b == 0 {
        var q := Negate(p) + [0];
        assert q[..|q| - 1] == Negate(p);
        NegateInvolution(p);
      } else {
        var q := Invert(p) + [256 - b];
        assert q[..|q| - 1] == Invert(p);
        InvertInvolution(p);
      }
    }
  }

  /** Where the carry stops: the last non-zero byte b, followed only by
      0x00 bytes, becomes 256 - b and everything before it is inverted. */
  lemma {:induction false} CarryStops(s: seq<byte>, i: nat)
    requires 0 < i <= |s| && s[i - 1] != 0 && AllZero(s[i..])
    ensures Negate(s) == Invert(s[..i - 1]) + [256 - s[i - 1]] + s[i..]
  {
    var p, rest := s[..i], s[i..];
    assert rest == Zeros(|rest|);
    assert s == p + rest;
    NegateTrailingZeros(p, |rest|);
    assert p[..i - 1] == s[..i - 1] && p[i - 1] == s[i - 1];
    assert Negate(p) == Invert(s[..i - 1]) + [256 - s[i - 1]];
  }

  /** Inverting one more byte extends the inverted prefix. */
  lemma {:induction false} InvertSnoc(s: seq<byte>, i: nat)
    requires i < |s|
    ensures Invert(s[..i + 1]) == Invert(s[..i]) + [255 - s[i]]
  {
  }

  /** `performTwosCompliment`: negates the buffer in place, walking from the
      last byte to the first with a carry that starts set. */
  method PerformTwosComplement(buffer: array<byte>)
    modifies buffer
    ensures buffer[..] == Negate(old(buffer[..]))
  {
    ghost var s := buffer[..];
    var carry := true;
    var i := buffer.Length;
    while i > 0
      invariant 0 <= i <= buffer.Length
      invariant buffer[..i] == s[..i]
      invariant carry ==> AllZero(s[i..]) && buffer[i..] == s[i..]
      invariant !carry ==> Negate(s) == Invert(s[..i]) + buffer[i..]
    {
      i := i - 1;
      assert buffer[i] == s[i];
      ghost var rest := buffer[i + 1..];
      var newByte := 255 - buffer[i];
      if carry {
        carry := newByte == 255;
        buffer[i] := if carry then 0 else newByte + 1;
        if !carry {
          CarryStops(s, i + 1);
        }
      } else {
        buffer[i] := newByte;
        InvertSnoc(s, i);
      }
      assert buffer[i..] == [buffer[i]] + rest;
    }
    if carry {
      NegateAllZero(s);
    } else {
      assert Invert(s[..0]) == [];
    }
  }
}
