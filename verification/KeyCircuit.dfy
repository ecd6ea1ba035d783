/** The small key-commitment circuit, in its central and its two-party form. */
module KeyCircuit {
  import opened Bits
  import opened Bytes
  import opened Ids
  import opened PrimeField
  import T = TlsPrfCircuit

  method XorShares(a: Bytes32, b: Bytes32) returns (c: Bytes32)
    ensures c == XorBytes(a, b) && LittleEndian(c) == Xor(LittleEndian(a), LittleEndian(b))
  {
    hide LittleEndian;
    var out := Zeros(32);
    for i := 0 to 32
      invariant |out| == 32 && out[..i] == XorBytes(a, b)[..i]
    {
      out := out[i := XorByteOf(a[i], b[i])];
    }
    assert out == XorBytes(a, b);
    LittleEndianXor(a, b);
    c := out;
  }

  /** The one equation the circuit records, for the given witness and public values. */
  function Constraints(pFe: nat, vFe: nat, commitment: nat, rand: nat): seq<Equation> {
    [Equal(commitment, FieldAdd(FieldAdd(pFe, vFe), rand))]
  }

  /** The central system: the commitment packs the exclusive or of the shares. */
  function CentralConstraints(p: Bytes32, v: Bytes32, rand: Bytes32): seq<Equation> {
    Constraints(FieldOf(p), FieldOf(v), FieldAdd(FieldOf(XorBytes(p, v)), FieldOf(rand)), FieldOf(rand))
  }

  /** Central mode: the commitment packs the exclusive or, the constraint adds the packed shares. */
  method CentralSystem(p: Bytes32, v: Bytes32, rand: Bytes32) returns (cs: seq<Equation>)
    ensures cs == CentralConstraints(p, v, rand)
    ensures Satisfied(cs) <==> And(LittleEndian(p), LittleEndian(v)) % R == 0
  {
    hide LittleEndian, And, Xor;
    var kMac := XorShares(p, v);
    var commitment := FieldAdd(FieldOf(kMac), FieldOf(rand));
    cs := Constraints(FieldOf(p), FieldOf(v), commitment, FieldOf(rand));
    CentralSatisfied(p, v, rand);
  }

  /** The central system is satisfied exactly when the modulus divides the bitwise and of the shares. */
  lemma {:induction false} CentralSatisfied(p: Bytes32, v: Bytes32, rand: Bytes32)
    ensures Satisfied(CentralConstraints(p, v, rand)) <==> And(LittleEndian(p), LittleEndian(v)) % R == 0
  {
    hide LittleEndian, And, Xor;
    var x, y := LittleEndian(p), LittleEndian(v);
    LittleEndianXor(p, v);
    SumIsXorPlusCarries(x, y);
    CentralMeaning(Xor(x, y), x, y, And(x, y), LittleEndian(rand));
  }

  lemma {:induction false} CentralMeaning(xor: nat, x: nat, y: nat, carries: nat, rand: nat)
    requires x + y == xor + 2 * carries
    ensures Satisfied(Constraints(x % R, y % R, FieldAdd(xor % R, rand % R), rand % R)) <==> carries % R == 0
  {
    var cs := Constraints(x % R, y % R, FieldAdd(xor % R, rand % R), rand % R);
    AddReduced(x, y);
    AddReduced(xor, rand);
    AddReduced(x + y, rand);
    ReduceTwice(xor + rand);
    ReduceTwice(x + y + rand);
    assert Satisfied(cs) <==> Congruent(cs[0].lhs, cs[0].rhs);
    assert Satisfied(cs) <==> (xor + rand) % R == (x + y + rand) % R;
    CongruentShift(xor + rand, 2 * carries);
    HalfDivisible(carries);
  }

  /** Shares that are both the integer one leave the central system unsatisfied, whatever the binding. */
  lemma {:induction false} SharedBitUnsatisfied(p: Bytes32, v: Bytes32, rand: Bytes32)
    requires p == v == [1] + Zeros(31)
    ensures !Satisfied(CentralConstraints(p, v, rand))
  {
    CentralSatisfied(p, v, rand);
    hide Satisfied, CentralConstraints;
    assert p[1..] == Zeros(31);
    LittleEndianZeros(31);
    assert LittleEndian(p) == 1;
    assert And(0, 0) == 0;
    assert And(1, 1) == 1;
  }

  lemma {:induction false} LittleEndianZeros(n: nat)
    ensures LittleEndian(Zeros(n)) == 0
  {
    if n > 0 {
      assert Zeros(n)[1..] == Zeros(n - 1);
      LittleEndianZeros(n - 1);
    }
  }

  lemma {:induction false} CongruentShift(a: nat, d: nat)
    ensures a % R == (a + d) % R <==> d % R == 0
  {
  }

  /** The modulus is odd, so it divides a doubled number only if it divides the number. */
  lemma {:induction false} HalfDivisible(m: nat)
    ensures 2 * m % R == 0 <==> m % R == 0
  {
    var r := m % R;
    assert 2 * m % R == 2 * r % R;
  }

  /** One party's additive shares of both witnesses and both public inputs. */
  datatype PartyShares = PartyShares(p: nat, v: nat, commitment: nat, rand: nat)

  function SplitShares(partyId: nat, myShare: Bytes32, commitment: nat, rand: Bytes32): PartyShares {
    if partyId == 0 then PartyShares(FieldOf(myShare), 0, commitment, FieldOf(rand))
    else PartyShares(0, FieldOf(myShare), 0, 0)
  }

  function ComputeCommitment(p: Bytes32, v: Bytes32, rand: Bytes32): nat {
    FieldAdd(FieldAdd(FieldOf(p), FieldOf(v)), FieldOf(rand))
  }

  function Opened(a: PartyShares, b: PartyShares): seq<Equation> {
    Constraints(FieldAdd(a.p, b.p), FieldAdd(a.v, b.v), FieldAdd(a.commitment, b.commitment), FieldAdd(a.rand, b.rand))
  }

  /** Opened together, the parties' shares are the two packed key shares, the commitment and the binding. */
  lemma {:induction false} OpenedWitnesses(p: Bytes32, v: Bytes32, rand: Bytes32, c: nat)
    requires c < R
    ensures Opened(SplitShares(0, p, c, rand), SplitShares(1, v, c, rand)) ==
            [Equal(c, (LittleEndian(p) + LittleEndian(v) + LittleEndian(rand)) % R)]
  {
    hide LittleEndian;
    var x, y, z := LittleEndian(p), LittleEndian(v), LittleEndian(rand);
    ReduceTwice(x);
    ReduceTwice(y);
    ReduceTwice(z);
    ThreeTerms(x, y, z);
  }

  /** Each party holds its own share in its own witness and nothing of the other's. */
  lemma {:induction false} SharesApart(p: Bytes32, v: Bytes32, rand: Bytes32, c: nat)
    ensures var a, b := SplitShares(0, p, c, rand), SplitShares(1, v, c, rand);
            a.p == FieldOf(p) && a.v == 0 && b.p == 0 && b.v == FieldOf(v)
  {
  }

  /** The two parties' shares always add up to a satisfying assignment. */
  lemma {:induction false} DistributedSatisfied(p: Bytes32, v: Bytes32, rand: Bytes32)
    ensures var c := ComputeCommitment(p, v, rand);
            Satisfied(Opened(SplitShares(0, p, c, rand), SplitShares(1, v, c, rand)))
  {
    hide LittleEndian;
    var x, y, z := LittleEndian(p), LittleEndian(v), LittleEndian(rand);
    ReduceTwice(x);
    ReduceTwice(y);
    ReduceTwice(z);
    ReduceTwice(FieldAdd(FieldOf(p), FieldOf(v)) + FieldOf(rand));
  }

  /**
   * The prover packs whole shares, the PRF circuit only their first 31 bytes: the two
   * commitments agree exactly when both shares end in a zero byte.
   */
  lemma {:induction false} CommitmentsAgree(p: Bytes32, v: Bytes32, pms: Bytes32, cr: Bytes32, sr: Bytes32,
                                            rand: Bytes32)
    ensures ComputeCommitment(p, v, rand) == T.New(p, v, pms, cr, sr, rand).commitment <==> p[31] == 0 && v[31] == 0
  {
    hide LittleEndian, Pow2;
    var x, y, z := LittleEndian(p[..31]), LittleEndian(v[..31]), LittleEndian(rand);
    var hp: nat, hv: nat := p[31], v[31];
    TopByte(p);
    TopByte(v);
    ThreeTerms(LittleEndian(p), LittleEndian(v), z);
    ThreeTerms(x, y, z);
    TopBytesVanish(x + y + z, hp, hv);
  }

  /** A share whose last byte is not zero makes the commitments differ. */
  lemma {:induction false} CommitmentsDiffer(p: Bytes32, v: Bytes32, pms: Bytes32, cr: Bytes32, sr: Bytes32,
                                             rand: Bytes32)
    requires p == Zeros(31) + [1] && v == Zeros(32)
    ensures ComputeCommitment(p, v, rand) != T.New(p, v, pms, cr, sr, rand).commitment
  {
    hide ComputeCommitment, T.New;
    CommitmentsAgree(p, v, pms, cr, sr, rand);
  }

  lemma {:induction false} ThreeTerms(a: nat, b: nat, c: nat)
    ensures FieldAdd(FieldAdd(a % R, b % R), c % R) == (a + b + c) % R
  {
    AddReduced(a, b);
    AddReduced(a + b, c);
  }

  lemma {:induction false} TopBytesVanish(s: nat, hp: nat, hv: nat)
    requires hp < 256 && hv < 256
    ensures (s + Pow2(248) * hp + Pow2(248) * hv) % R == s % R <==> hp == 0 && hv == 0
  {
    hide Pow2;
    assert Pow2(248) * hp + Pow2(248) * hv == Pow2(248) * (hp + hv);
    CongruentShift(s, Pow2(248) * (hp + hv));
    PowerDivisible(248, hp + hv);
  }

  lemma {:induction false} TopByte(b: Bytes32)
    ensures LittleEndian(b) == LittleEndian(b[..31]) + Pow2(248) * b[31]
  {
    assert b == b[..31] + [b[31]];
    LittleEndianConcat(b[..31], [b[31]]);
    assert LittleEndian([b[31]]) == b[31] by { assert [b[31]][1..] == []; }
  }

  lemma {:induction false} PowerDivisible(n: nat, m: nat)
    ensures Pow2(n) * m % R == 0 <==> m % R == 0
  {
    if n > 0 {
      PowerDivisible(n - 1, m);
      HalfDivisible(Pow2(n - 1) * m);
      assert Pow2(n) * m == 2 * (Pow2(n - 1) * m);
    }
  }
}
