/** Byte strings and the fixed-width integer encodings built from them. */
module Bytes {
  import opened Bits

  type byte = x: nat | x < 256

  /** Big-endian bytes of the low `8n` bits of `v`. */
  function BigEndian(v: nat, n: nat): (b: seq<byte>)
    ensures |b| == n
  {
    if n == 0 then [] else BigEndian(v / 256, n - 1) + [v % 256]
  }

  function FromBigEndian(b: seq<byte>): nat {
    if b == [] then 0 else 256 * FromBigEndian(b[..|b| - 1]) + b[|b| - 1]
  }

  /** The integer whose little-endian base-256 digits are `b`. */
  function LittleEndian(b: seq<byte>): nat {
    if b == [] then 0 else b[0] + 256 * LittleEndian(b[1..])
  }

  function Ascii(s: string): (b: seq<byte>)
    ensures |b| == |s|
  {
    seq(|s|, i requires 0 <= i < |s| => s[i] as int % 256)
  }

  function Zeros(n: nat): (b: seq<byte>)
    ensures |b| == n
  {
    seq(n, _ => 0)
  }

  lemma {:induction false} BigEndianRoundTrip(v: nat, n: nat)
    requires v < Pow2(8 * n)
    ensures FromBigEndian(BigEndian(v, n)) == v
  {
    if n > 0 {
      Pow2Byte(n - 1);
      BigEndianRoundTrip(v / 256, n - 1);
      var b := BigEndian(v, n);
      assert b[..|b| - 1] == BigEndian(v / 256, n - 1);
    }
  }

  lemma {:induction false} Pow2Byte(n: nat)
    ensures Pow2(8 * n + 8) == 256 * Pow2(8 * n)
  {
    Pow2Values();
    Pow2Add(8 * n, 8);
  }

  lemma {:induction false} BigEndianInjective(v: nat, w: nat, n: nat)
    requires v < Pow2(8 * n) && w < Pow2(8 * n)
    requires BigEndian(v, n) == BigEndian(w, n)
    ensures v == w
  {
    BigEndianRoundTrip(v, n);
    BigEndianRoundTrip(w, n);
  }

  lemma {:induction false} LittleEndianBound(b: seq<byte>)
    ensures LittleEndian(b) < Pow2(8 * |b|)
  {
    if b != [] {
      LittleEndianBound(b[1..]);
      Pow2Byte(|b| - 1);
    }
  }

  lemma {:induction false} LittleEndianConcat(a: seq<byte>, b: seq<byte>)
    ensures LittleEndian(a + b) == LittleEndian(a) + Pow2(8 * |a|) * LittleEndian(b)
  {
    if a == [] {
      assert a + b == b;
    } else {
      LittleEndianConcat(a[1..], b);
      assert (a + b)[1..] == a[1..] + b;
      Pow2Byte(|a| - 1);
      MulByte(Pow2(8 * (|a| - 1)), LittleEndian(b));
    }
  }

  lemma {:induction false} MulByte(p: nat, v: nat)
    ensures (256 * p) * v == 256 * (p * v)
  {
  }

  // ---- Exclusive or of byte strings ----

  function XorByteOf(a: byte, b: byte): byte {
    XorByteBound(a, b);
    Xor(a, b)
  }

  lemma {:induction false} XorByteBound(a: nat, b: nat)
    requires a < 256 && b < 256
    ensures Xor(a, b) < 256
  {
    Pow2Values();
    XorBound(a, b, 8);
  }

  function XorBytes(a: seq<byte>, b: seq<byte>): (c: seq<byte>)
    requires |a| == |b|
    ensures |c| == |a| && forall i :: 0 <= i < |a| ==> c[i] == XorByteOf(a[i], b[i])
  {
    seq(|a|, i requires 0 <= i < |a| => XorByteOf(a[i], b[i]))
  }

  /** Byte-wise exclusive or is exclusive or of the little-endian integers. */
  lemma {:induction false} LittleEndianXor(a: seq<byte>, b: seq<byte>)
    requires |a| == |b|
    ensures LittleEndian(XorBytes(a, b)) == Xor(LittleEndian(a), LittleEndian(b))
  {
    if a != [] {
      LittleEndianXor(a[1..], b[1..]);
      assert XorBytes(a, b)[1..] == XorBytes(a[1..], b[1..]);
      XorByte(a[0], b[0], LittleEndian(a[1..]), LittleEndian(b[1..]));
    }
  }
}
