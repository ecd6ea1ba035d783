/** The gadget's padding loop, and what padding preserves. */
module Sha256Padding {
  import opened Bits
  import opened Bytes
  import opened Fips180

  const MOD64: nat := 0x1_0000_0000_0000_0000

  lemma {:induction false} Mod64IsPow2()
    ensures MOD64 == 0x1_0000_0000_0000_0000 && Pow2(64) == MOD64
  {
    Pow2Values();
    Pow2Add(32, 32);
  }

  method FillZeros(msg: seq<byte>) returns (padded: seq<byte>)
    ensures padded == msg + [0x80] + Zeros(PadZeros(|msg|))
  {
    padded := msg + [0x80];
    var n := 0;
    while |padded| % 64 != 56
      invariant n <= PadZeros(|msg|) && |padded| == |msg| + 1 + n
      invariant padded == msg + [0x80] + Zeros(n)
      decreases PadZeros(|msg|) - n
    {
      padded, n := padded + [0], n + 1;
    }
    FirstFit(|msg|, n);
  }

  lemma {:induction false} FirstFit(len: nat, n: nat)
    requires n <= PadZeros(len) && (len + 1 + n) % 64 == 56
    ensures n == PadZeros(len)
  {
  }

  method AppendLength(body: seq<byte>, bitLen: nat) returns (padded: seq<byte>)
    requires bitLen < MOD64
    ensures padded == body + BigEndian(bitLen, 8)
  {
    hide Shr;
    var i := 8;
    var tail := [];
    while i > 0
      invariant 0 <= i <= 8
      invariant tail == BigEndian(Shr(bitLen, 8 * i), 8 - i)
    {
      ShiftByte(bitLen, i - 1);
      tail := tail + [Shr(bitLen, 8 * (i - 1)) % 256];
      i := i - 1;
    }
    ShrZero(bitLen);
    padded := body + tail;
  }

  lemma {:induction false} ShrZero(v: nat)
    ensures Shr(v, 0) == v
  {
  }

  method Sha256Pad(msg: seq<byte>) returns (blocks: seq<seq<nat>>)
    requires 8 * |msg| < MOD64
    ensures blocks == Pad(msg)
  {
    hide WordsOf, BigEndian, PadZeros;
    var padded := FillZeros(msg);
    padded := AppendLength(padded, 8 * |msg|);
    assert padded == Padded(msg);
    blocks := [];
    for j := 0 to |padded| / 64
      invariant blocks == ParseBlocks(padded)[..j]
    {
      blocks := blocks + [WordsOf(padded[64 * j..64 * j + 64])];
    }
  }

  lemma {:induction false} ShiftByte(v: nat, k: nat)
    ensures Shr(v, 8 * k + 8) == Shr(v, 8 * k) / 256
  {
    Pow2Byte(k);
    QuotQuot(v, Pow2(8 * k));
  }

  lemma {:induction false} QuotQuot(v: nat, d: nat)
    requires d >= 1
    ensures Quot(v, 256 * d) == Quot(v, d) / 256
  {
    var q, r := Quot(v, d), Rem(v, d);
    assert v == d * q + r;
    var r' := d * (q % 256) + r;
    assert v == 256 * d * (q / 256) + r' by {
      assert q == 256 * (q / 256) + q % 256;
      assert d * q == d * (256 * (q / 256)) + d * (q % 256);
    }
    MulGap(d, q % 256, 256);
    QuotRem(256 * d, q / 256, r', v);
  }

  // ---- What padding preserves ----

  lemma {:induction false} PadBlockCount(msg: seq<byte>)
    ensures |Pad(msg)| == (|msg| + 9 + 63) / 64
  {
  }

  function Flatten(blocks: seq<seq<nat>>): seq<byte> {
    if blocks == [] then [] else Flatten(blocks[..|blocks| - 1]) + BytesOf(blocks[|blocks| - 1])
  }

  lemma {:induction false} ParsePrefix(p: seq<byte>, n: nat)
    requires |p| == 64 * n + 64
    ensures ParseBlocks(p)[..n] == ParseBlocks(p[..64 * n])
  {
    hide WordsOf;
    var q := p[..64 * n];
    forall i | 0 <= i < n ensures ParseBlocks(p)[i] == ParseBlocks(q)[i] {
      assert p[64 * i..64 * i + 64] == q[64 * i..64 * i + 64];
    }
  }

  lemma {:induction false} FlattenParse(p: seq<byte>, n: nat)
    requires |p| == 64 * n
    ensures Flatten(ParseBlocks(p)) == p
  {
    hide WordsOf, BytesOf;
    if n > 0 {
      var m := n - 1;
      var q, last := p[..64 * m], p[64 * m..64 * m + 64];
      FlattenParse(q, m);
      var blocks := ParseBlocks(p);
      assert blocks[..m] == ParseBlocks(q) by { ParsePrefix(p, m); }
      assert blocks[m] == WordsOf(last);
      assert Flatten(blocks) == Flatten(blocks[..m]) + BytesOf(blocks[m]);
      BytesOfWords(last);
      assert p == q + last;
    }
  }

  /** Reads the message back out of its padded blocks: the last eight bytes give its bit length. */
  function Unpad(blocks: seq<seq<nat>>): seq<byte> {
    var p := Flatten(blocks);
    if |p| < 8 then []
    else
      var n := FromBigEndian(p[|p| - 8..]) / 8;
      if n <= |p| then p[..n] else []
  }

  lemma {:induction false} UnpadPad(msg: seq<byte>)
    requires 8 * |msg| < MOD64
    ensures Unpad(Pad(msg)) == msg
  {
    hide ParseBlocks, Flatten, BigEndian, FromBigEndian, PadZeros, Pow2;
    var p := Padded(msg);
    FlattenParse(p, |p| / 64);
    Mod64IsPow2();
    BigEndianRoundTrip(8 * |msg|, 8);
    assert p[|p| - 8..] == BigEndian(8 * |msg|, 8);
  }

  /** The padded bytes: the message, one byte 0x80, zeros, and in the last eight bytes the bit length. */
  lemma {:induction false} PadLayout(msg: seq<byte>)
    requires 8 * |msg| < MOD64
    ensures var p := Flatten(Pad(msg));
            && |p| % 64 == 0 && |msg| + 9 <= |p| < |msg| + 73
            && p[..|msg|] == msg && p[|msg|] == 0x80 && (forall i :: |msg| < i < |p| - 8 ==> p[i] == 0)
            && FromBigEndian(p[|p| - 8..]) == 8 * |msg|
  {
    hide ParseBlocks, Flatten, BigEndian, FromBigEndian, PadZeros, Pow2;
    var p := Padded(msg);
    FlattenParse(p, |p| / 64);
    Mod64IsPow2();
    BigEndianRoundTrip(8 * |msg|, 8);
    assert p[|p| - 8..] == BigEndian(8 * |msg|, 8);
  }

  /** Distinct messages never pad to the same blocks. */
  lemma {:induction false} PadInjective(m: seq<byte>, n: seq<byte>)
    requires 8 * |m| < MOD64 && 8 * |n| < MOD64
    requires Pad(m) == Pad(n)
    ensures m == n
  {
    UnpadPad(m);
    UnpadPad(n);
  }
}
