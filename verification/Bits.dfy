/** Natural numbers as little-endian bit lists: values, slices and the bitwise operators. */
module Bits {

  function Pow2(n: nat): (p: nat)
    ensures p >= 1
  {
    if n == 0 then 1 else 2 * Pow2(n - 1)
  }

  function Times(x: nat, y: nat): nat {
    x * y
  }

  function Quot(x: nat, d: nat): nat
    requires d >= 1
  {
    x / d
  }

  function Rem(x: nat, d: nat): nat
    requires d >= 1
  {
    x % d
  }

  function Bit(b: bool): nat {
    if b then 1 else 0
  }

  /** The number a little-endian bit list stands for. */
  function Val(bits: seq<bool>): nat {
    if bits == [] then 0 else Bit(bits[0]) + 2 * Val(bits[1..])
  }

  /** The low `n` bits of `v`, least significant first. */
  function BitsOf(v: nat, n: nat): (bits: seq<bool>)
    ensures |bits| == n
  {
    if n == 0 then [] else [v % 2 == 1] + BitsOf(v / 2, n - 1)
  }

  /** Bitwise conjunction of two numbers, by their binary digits. */
  function And(a: nat, b: nat): nat {
    if a == 0 then 0 else Bit(a % 2 == 1 && b % 2 == 1) + 2 * And(a / 2, b / 2)
  }

  /** Bitwise exclusive or of two numbers, by their binary digits. */
  function Xor(a: nat, b: nat): nat
    decreases a + b
  {
    if a == 0 && b == 0 then 0 else Bit(a % 2 != b % 2) + 2 * Xor(a / 2, b / 2)
  }

  // ---- Powers of two ----

  lemma {:induction false} Pow2Add(m: nat, n: nat)
    ensures Pow2(m + n) == Pow2(m) * Pow2(n)
  {
    if m > 0 {
      Pow2Add(m - 1, n);
      assert Pow2(m + n) == 2 * (Pow2(m - 1) * Pow2(n));
    }
  }

  lemma {:induction false} Pow2Values()
    ensures Pow2(8) == 256 && Pow2(16) == 65536 && Pow2(24) == 0x100_0000 && Pow2(32) == 0x1_0000_0000
  {
    assert Pow2(8) == 256;
    Pow2Add(8, 8);
    Pow2Add(16, 8);
    Pow2Add(16, 16);
  }

  // ---- Values of bit lists ----

  lemma {:induction false} ValBound(bits: seq<bool>)
    ensures Val(bits) < Pow2(|bits|)
  {
    if bits != [] { ValBound(bits[1..]); }
  }

  lemma {:induction false} ValConcat(a: seq<bool>, b: seq<bool>)
    ensures Val(a + b) == Val(a) + Pow2(|a|) * Val(b)
  {
    if a == [] {
      assert a + b == b;
    } else {
      ValConcat(a[1..], b);
      assert (a + b)[1..] == a[1..] + b;
      assert Pow2(|a|) * Val(b) == 2 * (Pow2(|a| - 1) * Val(b));
    }
  }

  /** Cutting a bit list at `n` divides its value by `2^n`. */
  lemma {:induction false} ValSplit(bits: seq<bool>, n: nat)
    requires n <= |bits|
    ensures Val(bits[n..]) == Quot(Val(bits), Pow2(n))
    ensures Val(bits[..n]) == Rem(Val(bits), Pow2(n))
  {
    assert bits == bits[..n] + bits[n..];
    ValConcat(bits[..n], bits[n..]);
    ValBound(bits[..n]);
    QuotRem(Pow2(n), Val(bits[n..]), Val(bits[..n]), Val(bits));
  }

  lemma {:induction false} MulGap(d: nat, x: nat, y: nat)
    requires x < y
    ensures d * x + d <= d * y
  {
    var k := y - x - 1;
    assert d * y == d * (x + 1 + k) == d * x + d + d * k;
  }

  lemma {:induction false} QuotRem(d: nat, q: nat, r: nat, v: nat)
    requires r < d && v == r + d * q
    ensures Quot(v, d) == q && Rem(v, d) == r
  {
    DivIsQuotient(d, q, r, v, v / d, v % d);
  }

  lemma {:induction false} DivIsQuotient(d: nat, q: nat, r: nat, v: nat, q': nat, r': nat)
    requires r < d && r' < d && v == r + d * q && v == r' + d * q'
    ensures q' == q && r' == r
  {
    if q' < q { MulGap(d, q', q); }
    if q < q' { MulGap(d, q, q'); }
  }

  lemma {:induction false} ValZeros(bits: seq<bool>)
    requires forall i :: 0 <= i < |bits| ==> !bits[i]
    ensures Val(bits) == 0
  {
    if bits != [] { ValZeros(bits[1..]); }
  }

  /** Writing a number out in `n` bits keeps it modulo `2^n`. */
  lemma {:induction false} ValBitsOf(v: nat, n: nat)
    ensures Val(BitsOf(v, n)) == Rem(v, Pow2(n))
  {
    var q := BitsOfQuotient(v, n);
    ValBound(BitsOf(v, n));
    QuotRem(Pow2(n), q, Val(BitsOf(v, n)), v);
  }

  lemma {:induction false} BitsOfQuotient(v: nat, n: nat) returns (q: nat)
    ensures v == Val(BitsOf(v, n)) + Pow2(n) * q
  {
    if n == 0 {
      q := v;
    } else {
      q := BitsOfQuotient(v / 2, n - 1);
      assert BitsOf(v, n)[1..] == BitsOf(v / 2, n - 1);
      assert Pow2(n) * q == 2 * (Pow2(n - 1) * q);
    }
  }

  // ---- Bitwise operators on bit lists ----

  lemma {:induction false} ValAnd(a: seq<bool>, b: seq<bool>, c: seq<bool>)
    requires |a| == |b| == |c|
    requires forall i :: 0 <= i < |a| ==> c[i] == (a[i] && b[i])
    ensures Val(c) == And(Val(a), Val(b))
  {
    if a != [] {
      ValAnd(a[1..], b[1..], c[1..]);
      if Val(a) == 0 { AndZero(Val(b[1..])); }
    }
  }

  lemma {:induction false} AndZero(b: nat)
    ensures And(0, b) == 0
  {
  }

  lemma {:induction false} ValXor(a: seq<bool>, b: seq<bool>, c: seq<bool>)
    requires |a| == |b| == |c|
    requires forall i :: 0 <= i < |a| ==> c[i] == (a[i] != b[i])
    ensures Val(c) == Xor(Val(a), Val(b))
  {
    if a != [] {
      ValXor(a[1..], b[1..], c[1..]);
    }
  }

  lemma {:induction false} ValNot(a: seq<bool>, c: seq<bool>)
    requires |a| == |c|
    requires forall i :: 0 <= i < |a| ==> c[i] == !a[i]
    ensures Val(c) == Pow2(|a|) - 1 - Val(a)
  {
    if a != [] { ValNot(a[1..], c[1..]); }
  }

  // ---- Algebra of the bitwise operators ----

  /** Addition is exclusive or plus twice the carries. */
  lemma {:induction false} SumIsXorPlusCarries(a: nat, b: nat)
    ensures a + b == Xor(a, b) + 2 * And(a, b)
    decreases a + b
  {
    if a != 0 || b != 0 {
      SumIsXorPlusCarries(a / 2, b / 2);
    }
  }

  lemma {:induction false} XorComm(a: nat, b: nat)
    ensures Xor(a, b) == Xor(b, a)
    decreases a + b
  {
    if a != 0 || b != 0 { XorComm(a / 2, b / 2); }
  }

  lemma {:induction false} XorZero(a: nat)
    ensures Xor(a, 0) == a && Xor(0, a) == a
  {
    if a != 0 { XorZero(a / 2); }
  }

  lemma {:induction false} XorHalf(a: nat, b: nat)
    ensures Xor(a, b) / 2 == Xor(a / 2, b / 2)
    ensures Xor(a, b) % 2 == Bit(a % 2 != b % 2)
  {
  }

  lemma {:induction false} XorAssoc(a: nat, b: nat, c: nat)
    ensures Xor(Xor(a, b), c) == Xor(a, Xor(b, c))
    decreases a + b + c
  {
    if a != 0 || b != 0 || c != 0 {
      XorAssoc(a / 2, b / 2, c / 2);
      XorHalf(a, b);
      XorHalf(b, c);
      XorHalf(Xor(a, b), c);
      XorHalf(a, Xor(b, c));
    }
  }

  lemma {:induction false} XorBound(a: nat, b: nat, n: nat)
    requires a < Pow2(n) && b < Pow2(n)
    ensures Xor(a, b) < Pow2(n)
    decreases n
  {
    if n > 0 { XorBound(a / 2, b / 2, n - 1); }
  }

  function Shl(c: nat, n: nat): nat {
    if n == 0 then c else 2 * Shl(c, n - 1)
  }

  /** Exclusive or acts on the high and the low parts separately. */
  lemma {:induction false} XorSplit(a: nat, b: nat, c: nat, d: nat, n: nat)
    requires a < Pow2(n) && b < Pow2(n)
    ensures Xor(a + Shl(c, n), b + Shl(d, n)) == Xor(a, b) + Shl(Xor(c, d), n)
  {
    if n > 0 {
      XorSplit(a / 2, b / 2, c, d, n - 1);
      XorDouble(a, b, Shl(c, n - 1), Shl(d, n - 1), Shl(Xor(c, d), n - 1));
    }
  }

  lemma {:induction false} XorDouble(a: nat, b: nat, x: nat, y: nat, z: nat)
    requires Xor(a / 2 + x, b / 2 + y) == Xor(a / 2, b / 2) + z
    ensures Xor(a + 2 * x, b + 2 * y) == Xor(a, b) + 2 * z
  {
    XorHalf(a + 2 * x, b + 2 * y);
    XorHalf(a, b);
    hide Xor;
    assert (a + 2 * x) / 2 == a / 2 + x && (b + 2 * y) / 2 == b / 2 + y;
  }

  lemma {:induction false} XorByte(a: nat, b: nat, c: nat, d: nat)
    requires a < 256 && b < 256
    ensures Xor(a + 256 * c, b + 256 * d) == Xor(a, b) + 256 * Xor(c, d)
  {
    Pow2Values();
    XorSplit(a, b, c, d, 8);
    ShlByte(c);
    ShlByte(d);
    ShlByte(Xor(c, d));
  }

  lemma {:induction false} ShlByte(c: nat)
    ensures Shl(c, 8) == 256 * c
  {
    assert Shl(c, 1) == 2 * Shl(c, 0);
    assert Shl(c, 3) == 4 * Shl(c, 1);
    assert Shl(c, 5) == 4 * Shl(c, 3);
    assert Shl(c, 7) == 4 * Shl(c, 5);
  }
}
