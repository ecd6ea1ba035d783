/** The scalar field of BLS12-377 and equations over it. */
module PrimeField {
  import opened Bits
  import opened Bytes

  /** The 253-bit BLS12-377 scalar modulus. */
  const R: nat := 8444461749428370424248824938781546531375899335154063827935233455917409239041

  function FieldReduce(v: nat): nat {
    v % R
  }

  /** Little-endian bytes reduced into the field. */
  function FieldOf(b: seq<byte>): nat {
    LittleEndian(b) % R
  }

  function FieldAdd(x: nat, y: nat): nat {
    (x + y) % R
  }

  predicate Congruent(x: nat, y: nat) {
    x % R == y % R
  }

  /** One recorded equality constraint with the values assigned to its sides. */
  datatype Equation = Equal(lhs: nat, rhs: nat)

  predicate Satisfied(cs: seq<Equation>) {
    forall i :: 0 <= i < |cs| ==> Congruent(cs[i].lhs, cs[i].rhs)
  }

  /** The modulus is the group order of the BLS12 family, `x^4 - x^2 + 1`, at the parameter of BLS12-377. */
  lemma {:induction false} ModulusIs()
    ensures var x := 0x8508_c000_0000_0001; var square := x * x; R == square * square - square + 1
  {
  }

  lemma {:induction false} SatisfiedTwo(e: Equation, f: Equation)
    ensures Satisfied([e, f]) <==> Congruent(e.lhs, e.rhs) && Congruent(f.lhs, f.rhs)
  {
    var cs := [e, f];
    assert cs[0] == e && cs[1] == f;
  }

  lemma {:induction false} FieldBounds()
    ensures R % 2 == 1 && 2 * Pow2(248) < R
    ensures Pow2(252) < R < Pow2(253)
  {
    hide Pow2;
    Pow2Values();
    SmallPowers();
    Pow2Add(32, 32);
    Pow2Add(64, 64);
    Pow2Add(128, 64);
    Pow2Add(192, 32);
    Pow2Add(224, 24);
    Pow2Add(248, 4);
    Pow2Add(252, 1);
  }

  lemma {:induction false} SmallPowers()
    ensures Pow2(1) == 2 && Pow2(4) == 16
  {
  }

  lemma {:induction false} AddReduced(x: nat, y: nat)
    ensures FieldAdd(x % R, y % R) == (x + y) % R
  {
  }

  lemma {:induction false} AddReducedLeft(x: nat, y: nat)
    ensures FieldAdd(x % R, y) % R == (x + y) % R
  {
  }

  /** Residues of integers below the modulus are the integers themselves. */
  lemma {:induction false} SmallResidue(x: nat, y: nat)
    requires x < R && y < R
    ensures Congruent(x, y) <==> x == y
  {
  }

  /** The two equations the key circuit records, for share witnesses `p` and `v` and the packed key `k`. */
  function KeySystem(k: nat, p: nat, v: nat, commitment: nat, rand: nat): seq<Equation> {
    var shares := FieldAdd(p, v);
    [Equal(FieldReduce(k), shares), Equal(commitment, FieldAdd(shares, rand))]
  }

  /** Field witnesses for the two shares exist exactly when the commitment opens to the key plus the binding. */
  lemma {:induction false} WitnessesExist(k: nat, commitment: nat, rand: nat)
    ensures (exists p: nat, v: nat :: p < R && v < R && Satisfied(KeySystem(k, p, v, commitment, rand))) <==>
            Congruent(commitment, k + rand)
  {
    forall p: nat, v: nat | Satisfied(KeySystem(k, p, v, commitment, rand)) ensures Congruent(commitment, k + rand) {
      var cs := KeySystem(k, p, v, commitment, rand);
      SatisfiedTwo(cs[0], cs[1]);
      OpeningOf(k, FieldAdd(p, v), commitment, rand);
    }
    if Congruent(commitment, k + rand) {
      var cs := KeySystem(k, k % R, 0, commitment, rand);
      ReduceTwice(k);
      assert FieldAdd(k % R, 0) == k % R;
      OpeningOf(k, k % R, commitment, rand);
      SatisfiedTwo(cs[0], cs[1]);
    }
  }

  lemma {:induction false} OpeningOf(k: nat, shares: nat, commitment: nat, rand: nat)
    requires Congruent(FieldReduce(k), shares)
    ensures Congruent(commitment, FieldAdd(shares, rand)) <==> Congruent(commitment, k + rand)
  {
    AddReducedLeft(k, rand);
    AddReducedLeft(shares, rand);
    assert k % R == shares % R by { ReduceTwice(k); }
  }

  /** Below `2^248` the two recorded equations hold exactly when the integer equation and the opening do. */
  lemma {:induction false} ShareSumSystem(k: nat, p: seq<byte>, v: seq<byte>, commitment: nat, rand: nat)
    requires k < Pow2(248) && LittleEndian(p) < Pow2(248) && LittleEndian(v) < Pow2(248)
    ensures Satisfied(KeySystem(k, FieldOf(p), FieldOf(v), commitment, rand)) <==>
            k == LittleEndian(p) + LittleEndian(v) && Congruent(commitment, LittleEndian(p) + LittleEndian(v) + rand)
  {
    hide *;
    var x, y := LittleEndian(p), LittleEndian(v);
    FieldBounds();
    SharesAre(p, v, k);
    var shares := FieldAdd(FieldOf(p), FieldOf(v));
    OpeningReduced(commitment, x + y, rand);
    SmallResidue(k, x + y);
    SatisfiedTwo(Equal(FieldReduce(k), shares), Equal(commitment, FieldAdd(shares, rand)));
    KeySystemIs(k, FieldOf(p), FieldOf(v), commitment, rand);
  }

  lemma {:induction false} KeySystemIs(k: nat, p: nat, v: nat, commitment: nat, rand: nat)
    ensures KeySystem(k, p, v, commitment, rand) ==
            [Equal(FieldReduce(k), FieldAdd(p, v)), Equal(commitment, FieldAdd(FieldAdd(p, v), rand))]
  {
  }

  lemma {:induction false} SharesAre(p: seq<byte>, v: seq<byte>, k: nat)
    ensures FieldAdd(FieldOf(p), FieldOf(v)) == FieldReduce(LittleEndian(p) + LittleEndian(v))
    ensures Congruent(FieldReduce(k), FieldReduce(LittleEndian(p) + LittleEndian(v))) <==>
            Congruent(k, LittleEndian(p) + LittleEndian(v))
  {
    AddReduced(LittleEndian(p), LittleEndian(v));
    hide FieldAdd, LittleEndian;
    CongruentReduced(k, LittleEndian(p) + LittleEndian(v));
  }

  lemma {:induction false} CongruentReduced(x: nat, y: nat)
    ensures Congruent(FieldReduce(x), FieldReduce(y)) <==> Congruent(x, y)
  {
    ReduceTwice(x);
    ReduceTwice(y);
  }

  lemma {:induction false} ReduceTwice(x: nat)
    ensures x % R % R == x % R
  {
  }

  lemma {:induction false} OpeningReduced(commitment: nat, x: nat, rand: nat)
    ensures Congruent(commitment, FieldAdd(FieldReduce(x), rand)) <==> Congruent(commitment, x + rand)
  {
    AddReducedLeft(x, rand);
  }
}
