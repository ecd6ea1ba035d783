/** HMAC-SHA256 in its native and circuit forms, and the TLS 1.2 pseudo-random function built on it. */
module HmacPrf {
  import opened Bits
  import opened Bytes
  import opened Fips180
  import opened Sha256Gadget
  import opened Sha256Padding

  /** The key, zero-extended to one 64-byte block and masked with `pad`. */
  function MaskedKey(key: seq<byte>, pad: byte): (b: seq<byte>)
    requires |key| == 32
    ensures |b| == 64 && forall i :: 0 <= i < 64 ==> b[i] == if i < 32 then XorByteOf(key[i], pad) else pad
  {
    XorZero(pad);
    XorBytes(key + Zeros(32), seq(64, _ => pad))
  }

  /** HMAC as section 2 of RFC 2104 defines it: two nested hashes. */
  function Hmac(key: seq<byte>, msg: seq<byte>): (d: seq<byte>)
    requires |key| == 32
    ensures |d| == 32
  {
    Sha256(MaskedKey(key, 0x5c) + Sha256(MaskedKey(key, 0x36) + msg))
  }

  /** HMAC from its two masked key blocks, whatever they are called: inner mask 0x36, outer mask 0x5c. */
  lemma {:induction false} HmacIs(key: seq<byte>, msg: seq<byte>, ikey: seq<byte>, okey: seq<byte>)
    requires |key| == 32 && |ikey| == 64 && |okey| == 64
    requires forall i :: 0 <= i < 64 ==> ikey[i] == if i < 32 then XorByteOf(key[i], 0x36) else 0x36
    requires forall i :: 0 <= i < 64 ==> okey[i] == if i < 32 then XorByteOf(key[i], 0x5c) else 0x5c
    ensures Hmac(key, msg) == Sha256(okey + Sha256(ikey + msg))
  {
    hide Sha256, XorByteOf;
    assert ikey == MaskedKey(key, 0x36) && okey == MaskedKey(key, 0x5c);
  }

  // ---- The circuit ----

  lemma {:induction false} H0Words()
    ensures |H0| == 8 && forall i :: 0 <= i < 8 ==> H0[i] < MOD32
  {
  }

  function InitialState(): (s: seq<UInt32>)
    ensures |s| == 8 && Values(s) == H0
  {
    H0Words();
    Constants(H0)
  }

  /** Block words parsed from bytes fit in 32 bits. */
  lemma {:induction false} WordsBounded(b: seq<byte>)
    requires |b| % 4 == 0
    ensures forall i :: 0 <= i < |b| / 4 ==> WordsOf(b)[i] < MOD32
  {
    hide WordOf;
    forall i | 0 <= i < |b| / 4 ensures WordsOf(b)[i] < MOD32 {
      BytesWord(b[4 * i..4 * i + 4]);
    }
  }

  function BlockOfBytes(b: seq<byte>): (w: seq<UInt32>)
    requires |b| == 64
    ensures |w| == 16 && Values(w) == WordsOf(b)
  {
    WordsBounded(b);
    Constants(WordsOf(b))
  }

  lemma {:induction false} HashNext(blocks: seq<seq<nat>>, n: nat)
    requires n < |blocks| && forall i :: 0 <= i < |blocks| ==> |blocks[i]| == 16
    ensures HashBlocks(blocks[..n + 1]) == Compress(HashBlocks(blocks[..n]), blocks[n])
  {
    assert blocks[..n + 1][..n] == blocks[..n];
  }

  lemma {:induction false} PadWordsBounded(msg: seq<byte>, i: nat)
    requires i < |Pad(msg)|
    ensures forall j :: 0 <= j < 16 ==> Pad(msg)[i][j] < MOD32
  {
    hide *;
    var p := Padded(msg);
    assert Pad(msg) == ParseBlocks(p) by { PadIsParse(msg); }
    WordsBounded(p[64 * i..64 * i + 64]);
  }

  lemma {:induction false} PadIsParse(msg: seq<byte>)
    ensures Pad(msg) == ParseBlocks(Padded(msg))
  {
  }

  method Sha256FromBytes(msg: seq<byte>) returns (state: seq<UInt32>)
    requires 8 * |msg| < MOD64
    ensures |state| == 8 && Values(state) == HashBlocks(Pad(msg))
  {
    hide *;
    var blocks := Sha256Pad(msg);
    state := InitialState();
    assert HashBlocks(blocks[..0]) == H0 by { HashNone(blocks); }
    for i := 0 to |blocks|
      invariant |state| == 8 && Values(state) == HashBlocks(blocks[..i])
    {
      PadWordsBounded(msg, i);
      var block := Constants(blocks[i]);
      state := Sha256Compress(state, block);
      HashNext(blocks, i);
    }
    assert blocks[..|blocks|] == blocks;
  }

  lemma {:induction false} HashNone(blocks: seq<seq<nat>>)
    ensures HashBlocks(blocks[..0]) == H0
  {
  }

  /** The hand-built final block: the inner digest, the end marker, zeros to byte 56, and the length 768. */
  method OuterBlock(inner: seq<UInt32>) returns (block: seq<UInt32>)
    requires |inner| == 8 && forall i :: 0 <= i < 8 ==> Val(inner[i]) < MOD32
    ensures |block| == 16 && Values(block) == WordsOf(FinalBytes(BytesOf(Values(inner))))
  {
    hide BytesOf, WordsOf, Val, Values, BlockOfBytes, FinalBytes, BigEndian;
    var bytes := BytesOf(Values(inner)) + [0x80];
    while |bytes| < 56
      invariant 33 <= |bytes| <= 56
      invariant bytes == BytesOf(Values(inner)) + [0x80] + Zeros(|bytes| - 33)
    {
      bytes := bytes + [0];
    }
    bytes := AppendLength(bytes, 768);
    assert bytes == FinalBytes(BytesOf(Values(inner))) by { FinalBytesShape(BytesOf(Values(inner))); }
    block := BlockOfBytes(bytes);
    FirstEightWords(Values(inner));
    for i := 0 to 8
      invariant |block| == 16 && Values(block) == WordsOf(bytes)
    {
      var next := block[i := inner[i]];
      assert Val(next[i]) == WordsOf(bytes)[i];
      assert Values(next) == Values(block);
      block := next;
    }
  }

  function FinalBytes(inner: seq<byte>): (b: seq<byte>)
    requires |inner| == 32
    ensures |b| == 64
  {
    inner + [0x80] + Zeros(23) + BigEndian(768, 8)
  }

  lemma {:induction false} FinalBytesShape(inner: seq<byte>)
    requires |inner| == 32
    ensures FinalBytes(inner) == inner + [0x80] + Zeros(23) + BigEndian(768, 8)
  {
  }

  lemma {:induction false} FirstEightWords(st: seq<nat>)
    requires |st| == 8 && forall i :: 0 <= i < 8 ==> st[i] < MOD32
    ensures |BytesOf(st)| == 32 && WordsOf(FinalBytes(BytesOf(st)))[..8] == st
  {
    hide BytesOf, WordOf, BytesOfWord;
    var b := BytesOf(st);
    WordsOfBytes(st);
    forall i | 0 <= i < 8 ensures WordsOf(FinalBytes(b))[i] == st[i] {
      assert FinalBytes(b)[4 * i..4 * i + 4] == b[4 * i..4 * i + 4];
    }
  }

  /** Padding `okey || inner` gives exactly the two blocks the circuit compresses. */
  lemma {:induction false} OuterPadding(okey: seq<byte>, inner: seq<byte>)
    requires |okey| == 64 && |inner| == 32
    ensures Pad(okey + inner) == [WordsOf(okey), WordsOf(FinalBytes(inner))]
  {
    hide WordsOf, BigEndian;
    var p := Padded(okey + inner);
    assert PadZeros(96) == 23;
    assert p == okey + FinalBytes(inner);
    assert p[0..64] == okey && p[64..128] == FinalBytes(inner);
    var blocks := ParseBlocks(p);
    assert |blocks| == 2;
    assert blocks[0] == WordsOf(p[64 * 0..64 * 0 + 64]) && blocks[1] == WordsOf(p[64 * 1..64 * 1 + 64]);
  }

  lemma {:induction false} HashTwo(b0: seq<nat>, b1: seq<nat>)
    requires |b0| == 16 && |b1| == 16
    ensures HashBlocks([b0, b1]) == Compress(Compress(H0, b0), b1)
  {
    HashNone([b0, b1]);
    HashNext([b0, b1], 0);
    HashNext([b0, b1], 1);
    assert [b0, b1][..2] == [b0, b1];
  }

  method HmacCircuit(key: seq<byte>, msg: seq<byte>) returns (out: seq<UInt32>)
    requires |key| == 32 && 8 * (64 + |msg|) < MOD64
    ensures |out| == 8 && BytesOf(Values(out)) == Hmac(key, msg)
  {
    hide *;
    var ikey, okey := MaskedKey(key, 0x36), MaskedKey(key, 0x5c);
    var inner := Sha256FromBytes(ikey + msg);
    var outer := InitialState();
    outer := Sha256Compress(outer, BlockOfBytes(okey));
    var block := OuterBlock(inner);
    out := Sha256Compress(outer, block);
    HmacUnfold(key, msg);
  }

  lemma {:induction false} HmacUnfold(key: seq<byte>, msg: seq<byte>)
    requires |key| == 32
    ensures var inner := BytesOf(HashBlocks(Pad(MaskedKey(key, 0x36) + msg)));
            |inner| == 32 &&
            Hmac(key, msg) == BytesOf(Compress(Compress(H0, WordsOf(MaskedKey(key, 0x5c))), WordsOf(FinalBytes(inner))))
  {
    hide Pad, HashBlocks, Compress, WordsOf, FinalBytes, MaskedKey, BytesOf;
    var okey, inner := MaskedKey(key, 0x5c), Sha256(MaskedKey(key, 0x36) + msg);
    OuterPadding(okey, inner);
    HashTwo(WordsOf(okey), WordsOf(FinalBytes(inner)));
  }

  // ---- The TLS 1.2 pseudo-random function ----

  /** `A(i)` of section 5 of RFC 5246. */
  function A(secret: seq<byte>, seed: seq<byte>, i: nat): seq<byte>
    requires |secret| == 32
  {
    if i == 0 then seed else Hmac(secret, A(secret, seed, i - 1))
  }

  /** Block `i` (from 1) of `P_hash`. */
  function PBlock(secret: seq<byte>, seed: seq<byte>, i: nat): (b: seq<byte>)
    requires |secret| == 32
    ensures |b| == 32
  {
    Hmac(secret, A(secret, seed, i) + seed)
  }

  /** The first `k` blocks of `P_hash`. */
  function PHash(secret: seq<byte>, seed: seq<byte>, k: nat): (b: seq<byte>)
    requires |secret| == 32
    ensures |b| == 32 * k
  {
    if k == 0 then [] else PHash(secret, seed, k - 1) + PBlock(secret, seed, k)
  }

  function Prf(secret: seq<byte>, tag: seq<byte>, seed: seq<byte>, n: nat): (b: seq<byte>)
    requires |secret| == 32
    ensures |b| == n
  {
    PHash(secret, tag + seed, (n + 31) / 32)[..n]
  }

  /** The chain from its other end: hashing the seed once first shortens it by one. */
  lemma {:induction false} AFromSeed(secret: seq<byte>, seed: seq<byte>, i: nat)
    requires |secret| == 32
    ensures A(secret, seed, i + 1) == A(secret, Hmac(secret, seed), i)
  {
    hide Hmac;
    if i == 0 {
      assert A(secret, seed, 0) == seed;
    } else {
      AFromSeed(secret, seed, i - 1);
    }
  }

  /** Every byte of the output: byte `j` comes from the HMAC of `A(j / 32 + 1)` followed by label and seed. */
  lemma {:induction false} PrfByte(secret: seq<byte>, tag: seq<byte>, seed: seq<byte>, n: nat, j: nat)
    requires |secret| == 32 && j < n
    ensures var s := tag + seed;
            Prf(secret, tag, seed, n)[j] == Hmac(secret, A(secret, s, j / 32 + 1) + s)[j % 32]
  {
    hide Hmac, A;
    PHashByte(secret, tag + seed, (n + 31) / 32, j);
  }

  lemma {:induction false} PHashByte(secret: seq<byte>, seed: seq<byte>, k: nat, j: nat)
    requires |secret| == 32 && j < 32 * k
    ensures PHash(secret, seed, k)[j] == Hmac(secret, A(secret, seed, j / 32 + 1) + seed)[j % 32]
  {
    hide Hmac, A;
    if j < 32 * (k - 1) { PHashByte(secret, seed, k - 1, j); }
  }

  method TlsPrfNative(secret: seq<byte>, tag: seq<byte>, seed: seq<byte>, n: nat) returns (out: seq<byte>)
    requires |secret| == 32
    ensures out == Prf(secret, tag, seed, n)
  {
    hide Hmac;
    var fullSeed := tag + seed;
    var a := fullSeed;
    out := [];
    ghost var k := 0;
    while |out| < n
      invariant |out| == 32 * k && 32 * k < n + 32
      invariant a == A(secret, fullSeed, k)
      invariant out == PHash(secret, fullSeed, k)
      decreases n + 32 - |out|
    {
      a := Hmac(secret, a);
      out := out + Hmac(secret, a + fullSeed);
      k := k + 1;
    }
    out := out[..n];
  }

  /** Block 1 of `P_hash` is a prefix of every longer output. */
  lemma {:induction false} PHashFirst(secret: seq<byte>, seed: seq<byte>, k: nat)
    requires |secret| == 32 && k >= 1
    ensures PHash(secret, seed, k)[..32] == PBlock(secret, seed, 1)
  {
    hide PBlock;
    if k == 1 {
      assert PHash(secret, seed, 0) == [];
    } else {
      PHashFirst(secret, seed, k - 1);
    }
  }

  /** Asking for more bytes only extends the output. */
  lemma {:induction false} PrfPrefix(secret: seq<byte>, tag: seq<byte>, seed: seq<byte>, m: nat, n: nat)
    requires |secret| == 32 && m <= n
    ensures Prf(secret, tag, seed, n)[..m] == Prf(secret, tag, seed, m)
  {
    hide PHash;
    var s, i, k := tag + seed, (m + 31) / 32, (n + 31) / 32;
    PHashPrefix(secret, s, i, k);
    var long := PHash(secret, s, k);
    assert long[..n][..m] == long[..m] == long[..32 * i][..m];
  }

  lemma {:induction false} PHashPrefix(secret: seq<byte>, seed: seq<byte>, i: nat, k: nat)
    requires |secret| == 32 && i <= k
    ensures PHash(secret, seed, k)[..32 * i] == PHash(secret, seed, i)
  {
    hide PBlock;
    if i < k {
      PHashPrefix(secret, seed, i, k - 1);
      assert PHash(secret, seed, k)[..32 * i] == PHash(secret, seed, k - 1)[..32 * i];
    }
  }
}
