/** The SHA-256 gadget of the co-SNARK prover: 32-element Boolean lists, one list operation per circuit gate. */
module Sha256Gadget {
  import opened Bits
  import opened Fips180

  /** A circuit word: 32 Booleans, least significant first. */
  type UInt32 = b: seq<bool> | |b| == 32 witness seq(32, _ => false)

  function Constant(v: nat): (r: UInt32)
    ensures v < MOD32 ==> Val(r) == v
  {
    ConstantVal(v);
    BitsOf(v, 32)
  }

  lemma {:induction false} ConstantVal(v: nat)
    ensures Val(BitsOf(v, 32)) == v % MOD32
  {
    Pow2Values();
    ValBitsOf(v, 32);
  }

  function Values(ws: seq<UInt32>): (vs: seq<nat>)
    ensures |vs| == |ws| && forall i :: 0 <= i < |ws| ==> vs[i] == Val(ws[i])
  {
    seq(|ws|, i requires 0 <= i < |ws| => Val(ws[i]))
  }

  function Constants(vs: seq<nat>): (ws: seq<UInt32>)
    requires forall i :: 0 <= i < |vs| ==> vs[i] < MOD32
    ensures |ws| == |vs| && Values(ws) == vs
  {
    var ws := seq(|vs|, i requires 0 <= i < |vs| => Constant(vs[i]));
    assert Values(ws) == vs;
    ws
  }

  function Sum(ws: seq<UInt32>): nat {
    if ws == [] then 0 else Sum(ws[..|ws| - 1]) + Val(ws[|ws| - 1])
  }

  /** The library's modular adder: the sum of the operands, reduced to 32 bits. */
  function AddMany(ws: seq<UInt32>): (r: UInt32)
    ensures Val(r) == Sum(ws) % MOD32
  {
    ConstantVal(Sum(ws));
    BitsOf(Sum(ws), 32)
  }

  // ---- Gates on words ----

  function RotrBits(x: UInt32, n: nat): UInt32
    requires n <= 32
  {
    x[n..] + x[..n]
  }

  lemma {:induction false} RotrVal(x: UInt32, n: nat)
    requires n <= 32
    ensures Val(RotrBits(x, n)) == Rotr(Val(x), n)
  {
    var hi, lo := Val(x[n..]), Val(x[..n]);
    assert Val(RotrBits(x, n)) == hi + Pow2(32 - n) * lo by { ValConcat(x[n..], x[..n]); }
    ValSplit(x, n);
    TimesComm(lo, Pow2(32 - n));
  }

  lemma {:induction false} TimesComm(x: nat, y: nat)
    ensures Times(x, y) == y * x
  {
  }

  method Shr32(x: UInt32, n: nat) returns (r: UInt32)
    requires n < 32
    ensures Val(r) == Shr(Val(x), n)
  {
    var bits: seq<bool> := seq(32, _ => false);
    for i := 0 to 32 - n
      invariant |bits| == 32
      invariant forall k :: 0 <= k < i ==> bits[k] == x[k + n]
      invariant forall k :: i <= k < 32 ==> !bits[k]
    {
      bits := bits[i := x[i + n]];
    }
    assert bits[..32 - n] == x[n..];
    assert bits == bits[..32 - n] + bits[32 - n..];
    ValConcat(bits[..32 - n], bits[32 - n..]);
    ValZeros(bits[32 - n..]);
    ValSplit(x, n);
    r := bits;
  }

  function XorBits(a: UInt32, b: UInt32): (r: UInt32)
    ensures Val(r) == Xor(Val(a), Val(b))
  {
    var r := seq(32, i requires 0 <= i < 32 => a[i] != b[i]);
    ValXor(a, b, r);
    r
  }

  function Ch32(a: UInt32, b: UInt32, c: UInt32): (r: UInt32)
    ensures Val(r) == Ch(Val(a), Val(b), Val(c))
  {
    var r := seq(32, i requires 0 <= i < 32 => (a[i] && b[i]) != (!a[i] && c[i]));
    Ch32Val(a, b, c, r);
    r
  }

  lemma {:induction false} Ch32Val(a: UInt32, b: UInt32, c: UInt32, r: UInt32)
    requires forall i :: 0 <= i < 32 ==> r[i] == ((a[i] && b[i]) != (!a[i] && c[i]))
    ensures Val(r) == Ch(Val(a), Val(b), Val(c))
  {
    var na := seq(32, i requires 0 <= i < 32 => !a[i]);
    var ab := seq(32, i requires 0 <= i < 32 => a[i] && b[i]);
    var nac := seq(32, i requires 0 <= i < 32 => na[i] && c[i]);
    Pow2Values();
    ValBound(a);
    ValNot(a, na);
    ValAnd(a, b, ab);
    ValAnd(na, c, nac);
    ValXor(ab, nac, r);
  }

  function Maj32(a: UInt32, b: UInt32, c: UInt32): (r: UInt32)
    ensures Val(r) == Maj(Val(a), Val(b), Val(c))
  {
    var r := seq(32, i requires 0 <= i < 32 => ((a[i] && b[i]) != (a[i] && c[i])) != (b[i] && c[i]));
    Maj32Val(a, b, c, r);
    r
  }

  lemma {:induction false} Maj32Val(a: UInt32, b: UInt32, c: UInt32, r: UInt32)
    requires forall i :: 0 <= i < 32 ==> r[i] == (((a[i] && b[i]) != (a[i] && c[i])) != (b[i] && c[i]))
    ensures Val(r) == Maj(Val(a), Val(b), Val(c))
  {
    var ab := seq(32, i requires 0 <= i < 32 => a[i] && b[i]);
    var ac := seq(32, i requires 0 <= i < 32 => a[i] && c[i]);
    var bc := seq(32, i requires 0 <= i < 32 => b[i] && c[i]);
    var x := seq(32, i requires 0 <= i < 32 => ab[i] != ac[i]);
    ValAnd(a, b, ab);
    ValAnd(a, c, ac);
    ValAnd(b, c, bc);
    ValXor(ab, ac, x);
    ValXor(x, bc, r);
  }

  function Sigma0Big(a: UInt32): (r: UInt32)
    ensures Val(r) == BigSigma0(Val(a))
  {
    RotrVal(a, 2);
    RotrVal(a, 13);
    RotrVal(a, 22);
    XorBits(XorBits(RotrBits(a, 2), RotrBits(a, 13)), RotrBits(a, 22))
  }

  function Sigma1Big(e: UInt32): (r: UInt32)
    ensures Val(r) == BigSigma1(Val(e))
  {
    RotrVal(e, 6);
    RotrVal(e, 11);
    RotrVal(e, 25);
    XorBits(XorBits(RotrBits(e, 6), RotrBits(e, 11)), RotrBits(e, 25))
  }

  method Sigma0Small(x: UInt32) returns (r: UInt32)
    ensures Val(r) == SmallSigma0(Val(x))
  {
    RotrVal(x, 7);
    RotrVal(x, 18);
    var s := Shr32(x, 3);
    r := XorBits(XorBits(RotrBits(x, 7), RotrBits(x, 18)), s);
  }

  method Sigma1Small(x: UInt32) returns (r: UInt32)
    ensures Val(r) == SmallSigma1(Val(x))
  {
    RotrVal(x, 17);
    RotrVal(x, 19);
    var s := Shr32(x, 10);
    r := XorBits(XorBits(RotrBits(x, 17), RotrBits(x, 19)), s);
  }

  // ---- Compression ----

  method ExpandSchedule(block: seq<UInt32>) returns (w: seq<UInt32>)
    requires |block| == 16
    ensures |w| == 64 && forall t :: 0 <= t < 64 ==> Val(w[t]) == W(Values(block), t)
  {
    hide *;
    w := block;
    WBase(Values(block));
    for i := 16 to 64
      invariant |w| == i
      invariant forall t :: 0 <= t < i ==> Val(w[t]) == W(Values(block), t)
    {
      var s1 := Sigma1Small(w[i - 2]);
      var s0 := Sigma0Small(w[i - 15]);
      SumOfFour(s1, w[i - 7], s0, w[i - 16]);
      WNext(Values(block), i);
      w := w + [AddMany([s1, w[i - 7], s0, w[i - 16]])];
    }
  }

  lemma {:induction false} SumOfTwo(a: UInt32, b: UInt32)
    ensures Sum([a, b]) == Val(a) + Val(b)
  {
    assert [a, b][..1] == [a] && [a][..0] == [];
    assert Sum([a]) == Sum([]) + Val(a);
    assert Sum([a, b]) == Sum([a]) + Val(b);
  }

  lemma {:induction false} SumOfFour(a: UInt32, b: UInt32, c: UInt32, d: UInt32)
    ensures Sum([a, b, c, d]) == Val(a) + Val(b) + Val(c) + Val(d)
  {
    assert [a, b, c, d][..3] == [a, b, c] && [a, b, c][..2] == [a, b];
    SumOfTwo(a, b);
  }

  lemma {:induction false} SumOfFive(a: UInt32, b: UInt32, c: UInt32, d: UInt32, e: UInt32)
    ensures Sum([a, b, c, d, e]) == Val(a) + Val(b) + Val(c) + Val(d) + Val(e)
  {
    assert [a, b, c, d, e][..4] == [a, b, c, d];
    SumOfFour(a, b, c, d);
  }

  /** The eight working variables of the compression loop, in circuit form. */
  datatype Regs = Regs(a: UInt32, b: UInt32, c: UInt32, d: UInt32, e: UInt32, f: UInt32, g: UInt32, h: UInt32)

  function VarsOf(r: Regs): Vars {
    Vars(Val(r.a), Val(r.b), Val(r.c), Val(r.d), Val(r.e), Val(r.f), Val(r.g), Val(r.h))
  }

  function AddWord(x: UInt32, y: UInt32): (r: UInt32)
    ensures Val(r) == (Val(x) + Val(y)) % MOD32
  {
    SumOfTwo(x, y);
    AddMany([x, y])
  }

  method Temp1(r: Regs, k: nat, w: UInt32) returns (t1: UInt32)
    requires k < MOD32
    ensures Val(t1) == (Val(r.h) + BigSigma1(Val(r.e)) + Ch(Val(r.e), Val(r.f), Val(r.g)) + k + Val(w)) % MOD32
  {
    hide *;
    var s1, ch, ki := Sigma1Big(r.e), Ch32(r.e, r.f, r.g), Constant(k);
    t1 := AddMany([r.h, s1, ch, ki, w]);
    SumOfFive(r.h, s1, ch, ki, w);
  }

  method Temp2(r: Regs) returns (t2: UInt32)
    ensures Val(t2) == (BigSigma0(Val(r.a)) + Maj(Val(r.a), Val(r.b), Val(r.c))) % MOD32
  {
    var s0, maj := Sigma0Big(r.a), Maj32(r.a, r.b, r.c);
    t2 := AddWord(s0, maj);
  }

  method CircuitRound(r: Regs, k: nat, w: UInt32) returns (r': Regs)
    requires k < MOD32
    ensures VarsOf(r') == Round(VarsOf(r), k, Val(w))
  {
    hide BigSigma0, BigSigma1, Ch, Maj, Val, AddWord;
    var t1 := Temp1(r, k, w);
    var t2 := Temp2(r);
    var e, a := AddWord(r.d, t1), AddWord(t1, t2);
    r' := Regs(a, r.a, r.b, r.c, e, r.e, r.f, r.g);
  }

  method FinalAdd(r: Regs, state: seq<UInt32>) returns (out: seq<UInt32>)
    requires |state| == 8
    ensures |out| == 8 && Values(out) == AddBack(VarsOf(r), Values(state))
  {
    out := [AddWord(r.a, state[0]), AddWord(r.b, state[1]), AddWord(r.c, state[2]), AddWord(r.d, state[3]),
            AddWord(r.e, state[4]), AddWord(r.f, state[5]), AddWord(r.g, state[6]), AddWord(r.h, state[7])];
  }

  method Sha256Compress(state: seq<UInt32>, block: seq<UInt32>) returns (out: seq<UInt32>)
    requires |state| == 8 && |block| == 16
    ensures |out| == 8 && Values(out) == Compress(Values(state), Values(block))
  {
    hide Round, W, Val;
    var w := ExpandSchedule(block);
    var r := Regs(state[0], state[1], state[2], state[3], state[4], state[5], state[6], state[7]);
    for i := 0 to 64
      invariant VarsOf(r) == Rounds(Load(Values(state)), Values(block), i)
    {
      r := CircuitRound(r, K[i], w[i]);
    }
    out := FinalAdd(r, state);
  }
}
