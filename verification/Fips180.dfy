/** SHA-256 as sections 4.1.2, 5.1.1 and 6.2.2 of FIPS 180-4 state it, on 32-bit words as numbers. */
module Fips180 {
  import opened Bits
  import opened Bytes

  const MOD32: nat := 0x1_0000_0000

  const H0: seq<nat> := [
    0x6a09e667, 0xbb67ae85, 0x3c6ef372, 0xa54ff53a,
    0x510e527f, 0x9b05688c, 0x1f83d9ab, 0x5be0cd19
  ]

  type word = x: nat | x < 0x1_0000_0000

  const K: seq<word> := [
    0x428a2f98, 0x71374491, 0xb5c0fbcf, 0xe9b5dba5,
    0x3956c25b, 0x59f111f1, 0x923f82a4, 0xab1c5ed5,
    0xd807aa98, 0x12835b01, 0x243185be, 0x550c7dc3,
    0x72be5d74, 0x80deb1fe, 0x9bdc06a7, 0xc19bf174
  ] + [
    0xe49b69c1, 0xefbe4786, 0x0fc19dc6, 0x240ca1cc,
    0x2de92c6f, 0x4a7484aa, 0x5cb0a9dc, 0x76f988da,
    0x983e5152, 0xa831c66d, 0xb00327c8, 0xbf597fc7,
    0xc6e00bf3, 0xd5a79147, 0x06ca6351, 0x14292967
  ] + [
    0x27b70a85, 0x2e1b2138, 0x4d2c6dfc, 0x53380d13,
    0x650a7354, 0x766a0abb, 0x81c2c92e, 0x92722c85,
    0xa2bfe8a1, 0xa81a664b, 0xc24b8b70, 0xc76c51a3,
    0xd192e819, 0xd6990624, 0xf40e3585, 0x106aa070
  ] + [
    0x19a4c116, 0x1e376c08, 0x2748774c, 0x34b0bcb5,
    0x391c0cb3, 0x4ed8aa4a, 0x5b9cca4f, 0x682e6ff3,
    0x748f82ee, 0x78a5636f, 0x84c87814, 0x8cc70208,
    0x90befffa, 0xa4506ceb, 0xbef9a3f7, 0xc67178f2
  ]

  // ---- Functions on words ----

  function Shr(x: nat, n: nat): nat {
    Quot(x, Pow2(n))
  }

  function Rotr(x: nat, n: nat): nat
    requires n <= 32
  {
    Quot(x, Pow2(n)) + Times(Rem(x, Pow2(n)), Pow2(32 - n))
  }

  function Complement(x: nat): int {
    MOD32 - 1 - x
  }

  function Ch(x: nat, y: nat, z: nat): nat {
    if x < MOD32 then Xor(And(x, y), And(Complement(x), z)) else 0
  }

  function Maj(x: nat, y: nat, z: nat): nat {
    Xor(Xor(And(x, y), And(x, z)), And(y, z))
  }

  function BigSigma0(x: nat): nat {
    Xor(Xor(Rotr(x, 2), Rotr(x, 13)), Rotr(x, 22))
  }

  function BigSigma1(x: nat): nat {
    Xor(Xor(Rotr(x, 6), Rotr(x, 11)), Rotr(x, 25))
  }

  function SmallSigma0(x: nat): nat {
    Xor(Xor(Rotr(x, 7), Rotr(x, 18)), Shr(x, 3))
  }

  function SmallSigma1(x: nat): nat {
    Xor(Xor(Rotr(x, 17), Rotr(x, 19)), Shr(x, 10))
  }

  // ---- Compression of one block ----

  /** The message schedule word `W_t`. */
  function W(block: seq<nat>, t: nat): nat
    requires |block| == 16
  {
    if t < 16 then block[t]
    else (SmallSigma1(W(block, t - 2)) + W(block, t - 7) + SmallSigma0(W(block, t - 15)) + W(block, t - 16)) % MOD32
  }

  lemma {:induction false} WBase(block: seq<nat>)
    requires |block| == 16
    ensures forall t :: 0 <= t < 16 ==> W(block, t) == block[t]
  {
  }

  lemma {:induction false} WNext(block: seq<nat>, t: nat)
    requires |block| == 16 && t >= 16
    ensures W(block, t) == (SmallSigma1(W(block, t - 2)) + W(block, t - 7) + SmallSigma0(W(block, t - 15)) +
            W(block, t - 16)) % MOD32
  {
  }

  datatype Vars = Vars(a: nat, b: nat, c: nat, d: nat, e: nat, f: nat, g: nat, h: nat)

  function Round(v: Vars, k: nat, w: nat): Vars {
    var t1 := (v.h + BigSigma1(v.e) + Ch(v.e, v.f, v.g) + k + w) % MOD32;
    var t2 := (BigSigma0(v.a) + Maj(v.a, v.b, v.c)) % MOD32;
    Vars((t1 + t2) % MOD32, v.a, v.b, v.c, (v.d + t1) % MOD32, v.e, v.f, v.g)
  }

  function Rounds(v: Vars, block: seq<nat>, n: nat): Vars
    requires |block| == 16 && n <= 64
  {
    if n == 0 then v else Round(Rounds(v, block, n - 1), K[n - 1], W(block, n - 1))
  }

  function Load(state: seq<nat>): Vars
    requires |state| == 8
  {
    Vars(state[0], state[1], state[2], state[3], state[4], state[5], state[6], state[7])
  }

  function AddBack(v: Vars, state: seq<nat>): (r: seq<nat>)
    requires |state| == 8
    ensures |r| == 8 && forall i :: 0 <= i < 8 ==> r[i] < MOD32
  {
    [(v.a + state[0]) % MOD32, (v.b + state[1]) % MOD32, (v.c + state[2]) % MOD32, (v.d + state[3]) % MOD32,
     (v.e + state[4]) % MOD32, (v.f + state[5]) % MOD32, (v.g + state[6]) % MOD32, (v.h + state[7]) % MOD32]
  }

  function Compress(state: seq<nat>, block: seq<nat>): (r: seq<nat>)
    requires |state| == 8 && |block| == 16
    ensures |r| == 8 && forall i :: 0 <= i < 8 ==> r[i] < MOD32
  {
    AddBack(Rounds(Load(state), block, 64), state)
  }

  /** The hash state after absorbing all of `blocks`. */
  function HashBlocks(blocks: seq<seq<nat>>): (r: seq<nat>)
    requires forall i :: 0 <= i < |blocks| ==> |blocks[i]| == 16
    ensures |r| == 8 && forall i :: 0 <= i < 8 ==> r[i] < MOD32
  {
    if blocks == [] then H0
    else Compress(HashBlocks(blocks[..|blocks| - 1]), blocks[|blocks| - 1])
  }

  // ---- Bytes and words ----

  function Join(b0: nat, b1: nat, b2: nat, b3: nat): nat {
    b0 * 0x100_0000 + b1 * 0x1_0000 + b2 * 0x100 + b3
  }

  function WordOf(b: seq<byte>): nat
    requires |b| == 4
  {
    Join(b[0], b[1], b[2], b[3])
  }

  function BytesOfWord(w: nat): (b: seq<byte>)
    ensures |b| == 4
  {
    [w / 0x100_0000 % 256, w / 0x1_0000 % 256, w / 0x100 % 256, w % 256]
  }

  function WordsOf(b: seq<byte>): (w: seq<nat>)
    requires |b| % 4 == 0
    ensures |w| == |b| / 4
    ensures forall i :: 0 <= i < |w| ==> w[i] == WordOf(b[4 * i..4 * i + 4])
  {
    seq(|b| / 4, i requires 0 <= i < |b| / 4 => WordOf(b[4 * i..4 * i + 4]))
  }

  function BytesOf(w: seq<nat>): (b: seq<byte>)
    ensures |b| == 4 * |w|
  {
    if w == [] then [] else BytesOf(w[..|w| - 1]) + BytesOfWord(w[|w| - 1])
  }

  // ---- Padding ----

  function PadZeros(len: nat): (k: nat)
    ensures k < 64 && (len + 1 + k) % 64 == 56
  {
    (55 - len) % 64
  }

  lemma {:induction false} PadLength(len: nat)
    ensures (len + 1 + PadZeros(len) + 8) % 64 == 0
  {
  }

  function Padded(msg: seq<byte>): (p: seq<byte>)
    ensures |p| % 64 == 0
  {
    PadLength(|msg|);
    msg + [0x80] + Zeros(PadZeros(|msg|)) + BigEndian(8 * |msg|, 8)
  }

  function ParseBlocks(p: seq<byte>): (blocks: seq<seq<nat>>)
    requires |p| % 64 == 0
    ensures |blocks| == |p| / 64
    ensures forall i :: 0 <= i < |blocks| ==> |blocks[i]| == 16 && blocks[i] == WordsOf(p[64 * i..64 * i + 64])
  {
    seq(|p| / 64, i requires 0 <= i < |p| / 64 => WordsOf(p[64 * i..64 * i + 64]))
  }

  function Pad(msg: seq<byte>): (blocks: seq<seq<nat>>)
    ensures forall i :: 0 <= i < |blocks| ==> |blocks[i]| == 16
  {
    ParseBlocks(Padded(msg))
  }

  function Sha256(msg: seq<byte>): (d: seq<byte>)
    ensures |d| == 32
  {
    BytesOf(HashBlocks(Pad(msg)))
  }

  // ---- Words and bytes convert back and forth ----

  lemma {:induction false} WordBytes(w: nat)
    requires w < MOD32
    ensures WordOf(BytesOfWord(w)) == w
  {
    assert w / 0x1_0000 == w / 0x100_0000 * 256 + w / 0x1_0000 % 256;
    assert w / 0x100 == w / 0x1_0000 * 256 + w / 0x100 % 256;
  }

  lemma {:induction false} BytesWord(b: seq<byte>)
    requires |b| == 4
    ensures BytesOfWord(WordOf(b)) == b && WordOf(b) < MOD32
  {
    SplitJoin(b[0], b[1], b[2], b[3]);
  }

  lemma {:induction false} SplitJoin(b0: nat, b1: nat, b2: nat, b3: nat)
    requires b0 < 256 && b1 < 256 && b2 < 256 && b3 < 256
    ensures var w := Join(b0, b1, b2, b3);
            w < MOD32 && w / 0x100_0000 % 256 == b0 && w / 0x1_0000 % 256 == b1 && w / 0x100 % 256 == b2 &&
            w % 256 == b3
  {
    var w := Join(b0, b1, b2, b3);
    assert w / 0x100 == b0 * 0x1_0000 + b1 * 0x100 + b2;
    assert w / 0x1_0000 == b0 * 0x100 + b1;
    assert w / 0x100_0000 == b0;
  }

  lemma {:induction false} BytesOfAt(w: seq<nat>, i: nat)
    requires i < |w|
    ensures BytesOf(w)[4 * i..4 * i + 4] == BytesOfWord(w[i])
  {
    var n := |w| - 1;
    if i < n {
      BytesOfAt(w[..n], i);
      assert BytesOf(w)[4 * i..4 * i + 4] == BytesOf(w[..n])[4 * i..4 * i + 4];
    }
  }

  lemma {:induction false} WordsOfBytesAt(w: seq<nat>, i: nat)
    requires i < |w| && w[i] < MOD32
    ensures WordsOf(BytesOf(w))[i] == w[i]
  {
    var b := BytesOf(w)[4 * i..4 * i + 4];
    assert WordsOf(BytesOf(w))[i] == WordOf(b);
    assert WordOf(b) == w[i] by {
      BytesOfAt(w, i);
      WordBytes(w[i]);
    }
  }

  lemma {:induction false} WordsOfBytes(w: seq<nat>)
    requires forall i :: 0 <= i < |w| ==> w[i] < MOD32
    ensures WordsOf(BytesOf(w)) == w
  {
    forall i | 0 <= i < |w| ensures WordsOf(BytesOf(w))[i] == w[i] {
      WordsOfBytesAt(w, i);
    }
  }

  /** Parsing a block into words loses nothing. */
  lemma {:induction false} BytesOfWords(b: seq<byte>)
    requires |b| % 4 == 0
    ensures BytesOf(WordsOf(b)) == b
  {
    var r := BytesOf(WordsOf(b));
    forall k | 0 <= k < |b| ensures r[k] == b[k] {
      var i := k / 4;
      BytesOfAt(WordsOf(b), i);
      BytesWord(b[4 * i..4 * i + 4]);
      assert r[4 * i..4 * i + 4] == b[4 * i..4 * i + 4];
      assert r[4 * i..4 * i + 4][k - 4 * i] == r[k];
    }
  }
}
