/** The full TLS 1.2 key-derivation circuit: two PRF phases, 248-bit packing, and the share-sum constraints. */
module TlsPrfCircuit {
  import opened Bits
  import opened Bytes
  import opened Ids
  import opened Fips180
  import opened Sha256Gadget
  import opened Sha256Padding
  import opened HmacPrf
  import opened PrimeField

  const LABEL_MASTER_SECRET: seq<byte> := Ascii("master secret")
  const LABEL_KEY_EXPANSION: seq<byte> := Ascii("key expansion")


  /** The integer of the first 31 bytes, read little-endian. */
  function LE248(b: Bytes32): nat {
    LittleEndian(b[..31])
  }

  datatype Circuit = Circuit(
    pShare: Bytes32, vShare: Bytes32, pms: Bytes32, clientRandom: Bytes32, serverRandom: Bytes32,
    commitment: nat, randBinding: nat)

  function New(p: Bytes32, v: Bytes32, pms: Bytes32, cr: Bytes32, sr: Bytes32, rand: Bytes32): Circuit {
    var commitment := FieldAdd(FieldAdd(FieldOf(p[..31]), FieldOf(v[..31])), FieldOf(rand));
    Circuit(p, v, pms, cr, sr, commitment, FieldOf(rand))
  }

  function MasterSecret(pms: Bytes32, cr: Bytes32, sr: Bytes32): Bytes32 {
    Prf(pms, LABEL_MASTER_SECRET, cr + sr, 32)
  }

  // ---- Phases 1 and 2: the PRF inside the circuit ----

  /** Phase 1 derives, gate by gate, the master secret the native code derives. */
  method MasterSecretPhase(pms: Bytes32, cr: Bytes32, sr: Bytes32) returns (p1: seq<UInt32>)
    ensures |p1| == 8 && BytesOf(Values(p1)) == MasterSecret(pms, cr, sr)
  {
    hide *;
    LabelLengths();
    Mod64IsPow2();
    var seed := LABEL_MASTER_SECRET + cr + sr;
    var a1 := HmacCircuit(pms, seed);
    p1 := HmacCircuit(pms, BytesOf(Values(a1)) + seed);
    assert seed == LABEL_MASTER_SECRET + (cr + sr);
    FirstBlock(pms, LABEL_MASTER_SECRET, cr + sr);
    MasterSecretIs(pms, cr, sr);
  }

  lemma {:induction false} FirstBlock(secret: Bytes32, tag: seq<byte>, seed: seq<byte>)
    ensures Prf(secret, tag, seed, 32) == Hmac(secret, Hmac(secret, tag + seed) + (tag + seed))
  {
    hide Hmac;
    var s := tag + seed;
    assert A(secret, s, 0) == s;
    assert A(secret, s, 1) == Hmac(secret, s);
    assert PHash(secret, s, 0) == [];
    assert PHash(secret, s, 1) == PBlock(secret, s, 1);
  }

  lemma {:induction false} LabelsAre()
    ensures LABEL_MASTER_SECRET == Ascii("master secret") && LABEL_KEY_EXPANSION == Ascii("key expansion")
  {
  }

  lemma {:induction false} LabelLengths()
    ensures |LABEL_MASTER_SECRET| == 13 && |LABEL_KEY_EXPANSION| == 13
  {
  }

  /** Phase 2 unrolls five blocks of `P_hash`. */
  method KeyExpansionPhase(ms: Bytes32, seed: seq<byte>) returns (blocks: seq<seq<UInt32>>)
    requires |seed| == 77
    ensures |blocks| == 5
    ensures forall j :: 0 <= j < 5 ==> |blocks[j]| == 8 && BytesOf(Values(blocks[j])) == PBlock(ms, seed, j + 1)
  {
    hide *;
    Mod64IsPow2();
    var a := seed;
    blocks := [];
    assert A(ms, seed, 0) == seed by { AZero(ms, seed); }
    for i := 0 to 5
      invariant |a| <= 77 && a == A(ms, seed, i)
      invariant |blocks| == i
      invariant forall j :: 0 <= j < i ==> |blocks[j]| == 8 && BytesOf(Values(blocks[j])) == PBlock(ms, seed, j + 1)
    {
      var aState := HmacCircuit(ms, a);
      var aBytes := BytesOf(Values(aState));
      ANext(ms, seed, i);
      var pState := HmacCircuit(ms, aBytes + seed);
      blocks := blocks + [pState];
      a := aBytes;
    }
  }

  lemma {:induction false} AZero(ms: Bytes32, seed: seq<byte>)
    ensures A(ms, seed, 0) == seed
  {
  }

  lemma {:induction false} ANext(ms: Bytes32, seed: seq<byte>, i: nat)
    ensures A(ms, seed, i + 1) == Hmac(ms, A(ms, seed, i))
    ensures PBlock(ms, seed, i + 1) == Hmac(ms, A(ms, seed, i + 1) + seed)
  {
    hide Hmac;
  }

  /** The five unrolled blocks are the native 160-byte key block. */
  lemma {:induction false} UnrolledBlocksAreNative(ms: Bytes32, sr: Bytes32, cr: Bytes32, j: nat)
    requires j < 5
    ensures PBlock(ms, LABEL_KEY_EXPANSION + (sr + cr), j + 1) ==
            Prf(ms, LABEL_KEY_EXPANSION, sr + cr, 160)[32 * j..32 * j + 32]
  {
    hide PBlock;
    var s := LABEL_KEY_EXPANSION + (sr + cr);
    PHashPrefix(ms, s, j + 1, 5);
    assert PHash(ms, s, 5)[..32 * (j + 1)][32 * j..] == PBlock(ms, s, j + 1);
  }

  // ---- Phase 3: packing ----

  lemma {:induction false} AppendByte(bits: seq<bool>, chunk: seq<bool>, bytes: seq<byte>, b: byte)
    requires |bits| == 8 * |bytes| && |chunk| == 8
    requires Val(bits) == LittleEndian(bytes) && Val(chunk) == b
    ensures Val(bits + chunk) == LittleEndian(bytes + [b])
  {
    hide Val;
    ValConcat(bits, chunk);
    LittleEndianConcat(bytes, [b]);
    assert LittleEndian([b]) == b by { assert [b][1..] == []; }
  }

  lemma {:induction false} WordChunk(w: UInt32, k: nat)
    requires k < 4
    ensures Val(w[8 * k..8 * k + 8]) == BytesOfWord(Val(w))[3 - k]
  {
    hide Val;
    Pow2Values();
    ValSplit(w, 8 * k);
    ValSplit(w[8 * k..], 8);
    assert w[8 * k..][..8] == w[8 * k..8 * k + 8];
    PackedByte(Val(w), k);
  }

  lemma {:induction false} PackedByte(v: nat, k: nat)
    requires k < 4
    ensures Rem(Quot(v, Pow2(8 * k)), 256) == BytesOfWord(v)[3 - k]
  {
    Pow2Values();
    assert Pow2(0) == 1;
  }

  /** Emits each word's bytes most significant first, the last word's low byte dropped. */
  method PackBits(block: seq<UInt32>) returns (bits: seq<bool>)
    requires |block| == 8
    ensures |bits| == 248 && Val(bits) == LittleEndian(BytesOf(Values(block))[..31])
  {
    hide *;
    bits := [];
    var bytes := BytesOf(Values(block));
    assert Val(bits) == LittleEndian(bytes[..0]) by { EmptyValues(bytes); }
    for i := 0 to 8
      invariant |bits| == (if i == 8 then 248 else 32 * i)
      invariant Val(bits) == LittleEndian(bytes[..|bits| / 8])
    {
      var start := if i == 7 then 1 else 0;
      var k := 4;
      while k > start
        invariant start <= k <= 4 && |bits| == 32 * i + 8 * (4 - k)
        invariant Val(bits) == LittleEndian(bytes[..|bits| / 8])
      {
        k := k - 1;
        var chunk := block[i][8 * k..8 * k + 8];
        NextByte(block, i, k);
        AppendByte(bits, chunk, bytes[..4 * i + 3 - k], bytes[4 * i + 3 - k]);
        assert bytes[..4 * i + 3 - k] + [bytes[4 * i + 3 - k]] == bytes[..4 * i + 4 - k];
        bits := bits + chunk;
      }
    }
  }

  lemma {:induction false} EmptyValues(bytes: seq<byte>)
    ensures Val([]) == LittleEndian(bytes[..0])
  {
  }

  lemma {:induction false} NextByte(block: seq<UInt32>, i: nat, k: nat)
    requires |block| == 8 && i < 8 && k < 4
    ensures Val(block[i][8 * k..8 * k + 8]) == BytesOf(Values(block))[4 * i + 3 - k]
  {
    hide Val, BytesOf;
    var bytes := BytesOf(Values(block));
    WordChunk(block[i], k);
    BytesOfAt(Values(block), i);
    assert bytes[4 * i..4 * i + 4][3 - k] == bytes[4 * i + 3 - k];
  }

  // ---- The constraint system ----

  /** The integer of the first 31 key bytes that the native PRF derives. */
  function KeyOf(c: Circuit): nat {
    var ms := MasterSecret(c.pms, c.clientRandom, c.serverRandom);
    LittleEndian(Prf(ms, LABEL_KEY_EXPANSION, c.serverRandom + c.clientRandom, 31))
  }

  /**
   * What a proof of this circuit shows: share witnesses that satisfy the recorded equations exist exactly when
   * the public commitment is the derived key plus the binding, in the field.
   */
  lemma {:induction false} ProvableExactly(c: Circuit)
    ensures (exists p: nat, v: nat ::
               p < R && v < R && Satisfied(KeySystem(KeyOf(c), p, v, c.commitment, c.randBinding)))
            <==> Congruent(c.commitment, KeyOf(c) + c.randBinding)
  {
    hide *;
    WitnessesExist(KeyOf(c), c.commitment, c.randBinding);
  }

  /**
   * Runs the synthesis and returns the recorded equations with their assigned values.
   * The system is satisfied exactly when the PRF output equals the share sum as integers
   * and the public commitment opens to that sum.
   */
  method GenerateConstraints(c: Circuit) returns (cs: seq<Equation>)
    ensures cs == KeySystem(KeyOf(c), FieldOf(c.pShare[..31]), FieldOf(c.vShare[..31]), c.commitment, c.randBinding)
    ensures
      Satisfied(cs) <==>
        && KeyOf(c) == LE248(c.pShare) + LE248(c.vShare)
        && Congruent(c.commitment, LE248(c.pShare) + LE248(c.vShare) + c.randBinding)
  {
    hide *;
    cs := [];
    var _ := MasterSecretPhase(c.pms, c.clientRandom, c.serverRandom);
    var msBytes := TlsPrfNative(c.pms, LABEL_MASTER_SECRET, c.clientRandom + c.serverRandom, 32);
    var ms: Bytes32 := msBytes;
    var seed := LABEL_KEY_EXPANSION + c.serverRandom + c.clientRandom;
    LabelLengths();
    var blocks := KeyExpansionPhase(ms, seed);
    var bits := PackBits(blocks[0]);
    var kMacFe := FieldReduce(Val(bits));
    var shareFe := FieldAdd(FieldOf(c.pShare[..31]), FieldOf(c.vShare[..31]));
    cs := cs + [Equal(kMacFe, shareFe)];
    cs := cs + [Equal(c.commitment, FieldAdd(shareFe, c.randBinding))];
    assert cs == [Equal(kMacFe, shareFe), Equal(c.commitment, FieldAdd(shareFe, c.randBinding))];
    assert seed == LABEL_KEY_EXPANSION + (c.serverRandom + c.clientRandom);
    MasterSecretIs(c.pms, c.clientRandom, c.serverRandom);
    FirstBytes(ms, c.serverRandom, c.clientRandom);
    ValBound(bits);
    LittleEndianBound(c.pShare[..31]);
    LittleEndianBound(c.vShare[..31]);
    LE248Is(c.pShare);
    LE248Is(c.vShare);
    ShareSumSystem(Val(bits), c.pShare[..31], c.vShare[..31], c.commitment, c.randBinding);
    KeySystemIs(Val(bits), FieldOf(c.pShare[..31]), FieldOf(c.vShare[..31]), c.commitment, c.randBinding);
    KeyOfIs(c);
  }

  lemma {:induction false} KeyOfIs(c: Circuit)
    ensures KeyOf(c) == LittleEndian(Prf(MasterSecret(c.pms, c.clientRandom, c.serverRandom), LABEL_KEY_EXPANSION,
                                         c.serverRandom + c.clientRandom, 31))
  {
  }

  lemma {:induction false} LE248Is(b: Bytes32)
    ensures LE248(b) == LittleEndian(b[..31])
  {
  }

  lemma {:induction false} MasterSecretIs(pms: Bytes32, cr: Bytes32, sr: Bytes32)
    ensures MasterSecret(pms, cr, sr) == Prf(pms, LABEL_MASTER_SECRET, cr + sr, 32)
  {
  }

  lemma {:induction false} FirstBytes(ms: Bytes32, sr: Bytes32, cr: Bytes32)
    ensures PBlock(ms, LABEL_KEY_EXPANSION + (sr + cr), 1)[..31] == Prf(ms, LABEL_KEY_EXPANSION, sr + cr, 31)
  {
    hide PBlock;
    var s := LABEL_KEY_EXPANSION + (sr + cr);
    PHashFirst(ms, s, 1);
  }

  /** A circuit built by the constructor satisfies the commitment equation by construction. */
  lemma {:induction false} CommitmentOpens(p: Bytes32, v: Bytes32, pms: Bytes32, cr: Bytes32, sr: Bytes32,
                                           rand: Bytes32)
    ensures var c := New(p, v, pms, cr, sr, rand);
            Congruent(c.commitment, LE248(p) + LE248(v) + c.randBinding)
  {
    AddReduced(LE248(p), LE248(v));
    AddReducedLeft(LE248(p) + LE248(v), FieldOf(rand));
  }

  /** Synthesising a constructed circuit: satisfied exactly when the PRF key equals the sum of the shares. */
  method ProveSystem(p: Bytes32, v: Bytes32, pms: Bytes32, cr: Bytes32, sr: Bytes32, rand: Bytes32)
    returns (cs: seq<Equation>)
    ensures var masterSecret := Prf(pms, Ascii("master secret"), cr + sr, 32);
            var key := Prf(masterSecret, Ascii("key expansion"), sr + cr, 31);
            Satisfied(cs) <==> LittleEndian(key) == LittleEndian(p[..31]) + LittleEndian(v[..31])
  {
    hide *;
    var c := New(p, v, pms, cr, sr, rand);
    CommitmentOpens(p, v, pms, cr, sr, rand);
    cs := GenerateConstraints(c);
    NewFields(p, v, pms, cr, sr, rand);
    KeyOfIs(c);
    MasterSecretIs(pms, cr, sr);
    LE248Is(p);
    LE248Is(v);
    LabelsAre();
  }

  lemma {:induction false} NewFields(p: Bytes32, v: Bytes32, pms: Bytes32, cr: Bytes32, sr: Bytes32, rand: Bytes32)
    ensures var c := New(p, v, pms, cr, sr, rand);
            c.pShare == p && c.vShare == v && c.pms == pms && c.clientRandom == cr && c.serverRandom == sr
  {
  }
}
