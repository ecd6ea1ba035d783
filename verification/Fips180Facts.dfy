/** What the constants and word functions of FIPS 180-4 are, independently of the tables and formulas that give them. */
module Fips180Facts {
  import opened Bits
  import opened Fips180
  import opened Sha256Gadget

  // ---- The first 64 primes ----

  ghost predicate Prime(n: nat) {
    n >= 2 && forall a: nat, b: nat :: a >= 2 && b >= 2 ==> Times(a, b) != n
  }

  /** How many primes are below `n`. */
  ghost function PrimesBelow(n: nat): nat {
    if n == 0 then 0 else PrimesBelow(n - 1) + (if Prime(n - 1) then 1 else 0)
  }

  const PRIMES: seq<nat> := [
    2, 3, 5, 7, 11, 13, 17, 19, 23, 29, 31, 37, 41, 43, 47, 53
  ] + [
    59, 61, 67, 71, 73, 79, 83, 89, 97, 101, 103, 107, 109, 113, 127, 131
  ] + [
    137, 139, 149, 151, 157, 163, 167, 173, 179, 181, 191, 193, 197, 199, 211, 223
  ] + [
    227, 229, 233, 239, 241, 251, 257, 263, 269, 271, 277, 281, 283, 293, 307, 311
  ]

  predicate Multiple(n: nat, p: nat)
    requires p >= 1
  {
    Rem(n, p) == 0 && n > p
  }

  /** Divisible by a smaller prime below 19. */
  predicate Sieved(n: nat) {
    || Multiple(n, 2) || Multiple(n, 3) || Multiple(n, 5) || Multiple(n, 7)
    || Multiple(n, 11) || Multiple(n, 13) || Multiple(n, 17)
  }

  lemma {:induction false} MultipleOf(p: nat, m: nat)
    requires p >= 1 && m >= 2
    ensures Multiple(Times(p, m), p)
  {
    QuotRem(p, m, 0, p * m);
    MulGap(p, 1, m);
  }

  lemma {:induction false} Divides(p: nat, m: nat)
    requires (p == 2 || p == 3 || p == 5 || p == 7 || p == 11 || p == 13 || p == 17) && m >= 2
    ensures Sieved(Times(p, m))
  {
    hide Times, Multiple;
    MultipleOf(p, m);
  }

  lemma {:induction false} Regroup(p: nat, k: nat, b: nat)
    ensures Times(p * k, b) == Times(p, k * b)
  {
  }

  lemma {:induction false} SmallFactor(a: nat, b: nat)
    requires 2 <= a <= 18 && b >= 2
    ensures Sieved(Times(a, b))
  {
    var p := if a % 2 == 0 then 2 else if a % 3 == 0 then 3 else a;
    var k := a / p;
    assert a == p * k;
    hide Sieved, Times;
    Regroup(p, k, b);
    AtLeastTwo(k, b);
    Divides(p, k * b);
  }

  lemma {:induction false} AtLeastTwo(k: nat, b: nat)
    requires k >= 1 && b >= 2
    ensures k * b >= 2
  {
  }

  lemma {:induction false} LargeFactors(a: nat, b: nat)
    requires a >= 19 && b >= 19
    ensures Times(a, b) >= 361
  {
  }

  lemma {:induction false} Commute(a: nat, b: nat)
    ensures Times(a, b) == Times(b, a)
  {
  }

  /** Below `19 * 19` sieving by the primes up to 17 decides primality. */
  lemma {:induction false} SieveDecides(n: nat)
    requires 2 <= n < 361
    ensures Prime(n) <==> !Sieved(n)
  {
    if Sieved(n) {
      var p := if Multiple(n, 2) then 2 else if Multiple(n, 3) then 3 else if Multiple(n, 5) then 5
               else if Multiple(n, 7) then 7 else if Multiple(n, 11) then 11 else if Multiple(n, 13) then 13 else 17;
      assert Times(p, n / p) == n;
    } else {
      forall a: nat, b: nat | a >= 2 && b >= 2 ensures Times(a, b) != n {
        hide Times, Sieved;
        if a <= 18 {
          SmallFactor(a, b);
        } else if b <= 18 {
          SmallFactor(b, a);
          Commute(a, b);
        } else {
          LargeFactors(a, b);
        }
      }
    }
  }

  /** `p` is prime and there are `t` smaller primes. */
  ghost predicate IsPrimeNumber(p: nat, t: nat) {
    Prime(p) && PrimesBelow(p) == t
  }

  /** All of `lo .. hi` are sieved. */
  predicate AllSieved(lo: nat, hi: nat)
    decreases hi - lo
  {
    lo >= hi || (Sieved(lo) && AllSieved(lo + 1, hi))
  }

  lemma {:induction false} SkipComposites(lo: nat, hi: nat)
    requires 2 <= lo <= hi <= 360 && AllSieved(lo, hi)
    ensures PrimesBelow(hi) == PrimesBelow(lo)
    decreases hi - lo
  {
    hide Sieved, Prime;
    if lo < hi {
      SieveDecides(lo);
      SkipComposites(lo + 1, hi);
    }
  }

  /** From one prime over composites to the next. */
  lemma {:induction false} NextPrime(p: nat, first: nat, q: nat, t: nat)
    requires IsPrimeNumber(p, t) && 2 <= p < q <= 360 && first == p + 1
    requires !Sieved(q) && AllSieved(first, q)
    ensures IsPrimeNumber(q, t + 1)
  {
    hide Sieved;
    SkipComposites(p + 1, q);
    SieveDecides(q);
  }

  lemma {:induction false} FirstPrime()
    ensures IsPrimeNumber(2, 0)
  {
    SieveDecides(2);
  }

  lemma {:induction false} Primes0()
    ensures forall t :: 0 <= t < 8 ==> IsPrimeNumber(PRIMES[t], t)
  {
    hide IsPrimeNumber;
    FirstPrime(); NextPrime(2, 3, 3, 0);
    NextPrime(3, 4, 5, 1); NextPrime(5, 6, 7, 2);
    NextPrime(7, 8, 11, 3); NextPrime(11, 12, 13, 4);
    NextPrime(13, 14, 17, 5); NextPrime(17, 18, 19, 6);
  }

  lemma {:induction false} Primes1()
    requires IsPrimeNumber(19, 7)
    ensures forall t :: 8 <= t < 16 ==> IsPrimeNumber(PRIMES[t], t)
  {
    hide IsPrimeNumber;
    NextPrime(19, 20, 23, 7); NextPrime(23, 24, 29, 8);
    NextPrime(29, 30, 31, 9); NextPrime(31, 32, 37, 10);
    NextPrime(37, 38, 41, 11); NextPrime(41, 42, 43, 12);
    NextPrime(43, 44, 47, 13); NextPrime(47, 48, 53, 14);
  }

  lemma {:induction false} Primes2()
    requires IsPrimeNumber(53, 15)
    ensures forall t :: 16 <= t < 24 ==> IsPrimeNumber(PRIMES[t], t)
  {
    hide IsPrimeNumber;
    NextPrime(53, 54, 59, 15); NextPrime(59, 60, 61, 16);
    NextPrime(61, 62, 67, 17); NextPrime(67, 68, 71, 18);
    NextPrime(71, 72, 73, 19); NextPrime(73, 74, 79, 20);
    NextPrime(79, 80, 83, 21); NextPrime(83, 84, 89, 22);
  }

  lemma {:induction false} Primes3()
    requires IsPrimeNumber(89, 23)
    ensures forall t :: 24 <= t < 32 ==> IsPrimeNumber(PRIMES[t], t)
  {
    hide IsPrimeNumber;
    NextPrime(89, 90, 97, 23); NextPrime(97, 98, 101, 24);
    NextPrime(101, 102, 103, 25); NextPrime(103, 104, 107, 26);
    NextPrime(107, 108, 109, 27); NextPrime(109, 110, 113, 28);
    NextPrime(113, 114, 127, 29); NextPrime(127, 128, 131, 30);
  }

  lemma {:induction false} Primes4()
    requires IsPrimeNumber(131, 31)
    ensures forall t :: 32 <= t < 40 ==> IsPrimeNumber(PRIMES[t], t)
  {
    hide IsPrimeNumber;
    NextPrime(131, 132, 137, 31); NextPrime(137, 138, 139, 32);
    NextPrime(139, 140, 149, 33); NextPrime(149, 150, 151, 34);
    NextPrime(151, 152, 157, 35); NextPrime(157, 158, 163, 36);
    NextPrime(163, 164, 167, 37); NextPrime(167, 168, 173, 38);
  }

  lemma {:induction false} Primes5()
    requires IsPrimeNumber(173, 39)
    ensures forall t :: 40 <= t < 48 ==> IsPrimeNumber(PRIMES[t], t)
  {
    hide IsPrimeNumber;
    NextPrime(173, 174, 179, 39); NextPrime(179, 180, 181, 40);
    NextPrime(181, 182, 191, 41); NextPrime(191, 192, 193, 42);
    NextPrime(193, 194, 197, 43); NextPrime(197, 198, 199, 44);
    NextPrime(199, 200, 211, 45); NextPrime(211, 212, 223, 46);
  }

  lemma {:induction false} Primes6()
    requires IsPrimeNumber(223, 47)
    ensures forall t :: 48 <= t < 56 ==> IsPrimeNumber(PRIMES[t], t)
  {
    hide IsPrimeNumber;
    NextPrime(223, 224, 227, 47); NextPrime(227, 228, 229, 48);
    NextPrime(229, 230, 233, 49); NextPrime(233, 234, 239, 50);
    NextPrime(239, 240, 241, 51); NextPrime(241, 242, 251, 52);
    NextPrime(251, 252, 257, 53); NextPrime(257, 258, 263, 54);
  }

  lemma {:induction false} Primes7()
    requires IsPrimeNumber(263, 55)
    ensures forall t :: 56 <= t < 64 ==> IsPrimeNumber(PRIMES[t], t)
  {
    hide IsPrimeNumber;
    NextPrime(263, 264, 269, 55); NextPrime(269, 270, 271, 56);
    NextPrime(271, 272, 277, 57); NextPrime(277, 278, 281, 58);
    NextPrime(281, 282, 283, 59); NextPrime(283, 284, 293, 60);
    NextPrime(293, 294, 307, 61); NextPrime(307, 308, 311, 62);
  }

  /** `PRIMES[t]` is the prime with exactly `t` primes before it. */
  lemma {:induction false} PrimesAre()
    ensures forall t :: 0 <= t < 64 ==> IsPrimeNumber(PRIMES[t], t)
  {
    hide IsPrimeNumber;
    Primes0();
    assert PRIMES[7] == 19;
    Primes1();
    assert PRIMES[15] == 53;
    Primes2();
    assert PRIMES[23] == 89;
    Primes3();
    assert PRIMES[31] == 131;
    Primes4();
    assert PRIMES[39] == 173;
    Primes5();
    assert PRIMES[47] == 223;
    Primes6();
    assert PRIMES[55] == 263;
    Primes7();
  }

  // ---- The round constants and the initial state ----

  /** The largest number whose square is at most `n`. */
  function SquareRoot(n: nat): (r: nat)
    ensures r * r <= n < (r + 1) * (r + 1)
  {
    if n == 0 then 0
    else
      var r := SquareRoot(n - 1);
      if (r + 1) * (r + 1) <= n then r + 1 else r
  }

  function Cube(x: nat): nat {
    x * x * x
  }

  /** The largest number whose cube is at most `n`. */
  function CubeRoot(n: nat): (r: nat)
    ensures Cube(r) <= n < Cube(r + 1)
  {
    if n == 0 then 0
    else
      var r := CubeRoot(n - 1);
      if Cube(r + 1) <= n then r + 1 else r
  }

  /** `k` is the first 32 bits of the fraction of the cube root of `p`. */
  ghost predicate CubeFraction(p: nat, k: nat) {
    var c := CubeRoot(p);
    k < MOD32 && Cube(c * MOD32 + k) <= p * Cube(MOD32) < Cube(c * MOD32 + k + 1)
  }

  /** `k` is the first 32 bits of the fraction of the square root of `p`. */
  ghost predicate SquareFraction(p: nat, k: nat) {
    var c := SquareRoot(p);
    k < MOD32 && (c * MOD32 + k) * (c * MOD32 + k) <= p * (MOD32 * MOD32) < (c * MOD32 + k + 1) * (c * MOD32 + k + 1)
  }

  lemma {:induction false} CubeGrows(a: nat, b: nat)
    requires a <= b
    ensures Cube(a) <= Cube(b)
  {
    SquareGrows(a, b);
    Grow(a * a, b * b, a, b);
  }

  lemma {:induction false} SquareGrows(a: nat, b: nat)
    requires a <= b
    ensures a * a <= b * b
  {
    Grow(a, b, a, b);
  }

  lemma {:induction false} Grow(a: nat, b: nat, c: nat, d: nat)
    requires a <= b && c <= d
    ensures a * c <= b * d
  {
    assert a * c <= b * c;
    assert b * c <= b * d;
  }

  lemma {:induction false} CubeOf(p: nat, c: nat, k: nat)
    requires Cube(c) <= p < Cube(c + 1)
    requires k < MOD32 && Cube(c * MOD32 + k) <= p * Cube(MOD32) < Cube(c * MOD32 + k + 1)
    ensures CubeFraction(p, k)
  {
    hide Cube;
    var r := CubeRoot(p);
    if r < c { CubeGrows(r + 1, c); }
    if c < r { CubeGrows(c + 1, r); }
    assert r == c;
  }

  lemma {:induction false} SquareOf(p: nat, c: nat, k: nat)
    requires c * c <= p < (c + 1) * (c + 1) && k < MOD32
    requires (c * MOD32 + k) * (c * MOD32 + k) <= p * (MOD32 * MOD32) < (c * MOD32 + k + 1) * (c * MOD32 + k + 1)
    ensures SquareFraction(p, k)
  {
    var r := SquareRoot(p);
    if r < c { SquareGrows(r + 1, c); }
    if c < r { SquareGrows(c + 1, r); }
    assert r == c;
  }

  lemma {:induction false} Roots0()
    ensures forall t :: 0 <= t < 4 ==> CubeFraction(PRIMES[t], K[t])
  {
    hide CubeFraction;
    CubeOf(2, 1, 0x428a2f98); CubeOf(3, 1, 0x71374491);
    CubeOf(5, 1, 0xb5c0fbcf); CubeOf(7, 1, 0xe9b5dba5);
  }

  lemma {:induction false} Roots1()
    ensures forall t :: 4 <= t < 8 ==> CubeFraction(PRIMES[t], K[t])
  {
    hide CubeFraction;
    CubeOf(11, 2, 0x3956c25b); CubeOf(13, 2, 0x59f111f1);
    CubeOf(17, 2, 0x923f82a4); CubeOf(19, 2, 0xab1c5ed5);
  }

  lemma {:induction false} Roots2()
    ensures forall t :: 8 <= t < 12 ==> CubeFraction(PRIMES[t], K[t])
  {
    hide CubeFraction;
    CubeOf(23, 2, 0xd807aa98); CubeOf(29, 3, 0x12835b01);
    CubeOf(31, 3, 0x243185be); CubeOf(37, 3, 0x550c7dc3);
  }

  lemma {:induction false} Roots3()
    ensures forall t :: 12 <= t < 16 ==> CubeFraction(PRIMES[t], K[t])
  {
    hide CubeFraction;
    CubeOf(41, 3, 0x72be5d74); CubeOf(43, 3, 0x80deb1fe);
    CubeOf(47, 3, 0x9bdc06a7); CubeOf(53, 3, 0xc19bf174);
  }

  lemma {:induction false} Roots4()
    ensures forall t :: 16 <= t < 20 ==> CubeFraction(PRIMES[t], K[t])
  {
    hide CubeFraction;
    CubeOf(59, 3, 0xe49b69c1); CubeOf(61, 3, 0xefbe4786);
    CubeOf(67, 4, 0x0fc19dc6); CubeOf(71, 4, 0x240ca1cc);
  }

  lemma {:induction false} Roots5()
    ensures forall t :: 20 <= t < 24 ==> CubeFraction(PRIMES[t], K[t])
  {
    hide CubeFraction;
    CubeOf(73, 4, 0x2de92c6f); CubeOf(79, 4, 0x4a7484aa);
    CubeOf(83, 4, 0x5cb0a9dc); CubeOf(89, 4, 0x76f988da);
  }

  lemma {:induction false} Roots6()
    ensures forall t :: 24 <= t < 28 ==> CubeFraction(PRIMES[t], K[t])
  {
    hide CubeFraction;
    CubeOf(97, 4, 0x983e5152); CubeOf(101, 4, 0xa831c66d);
    CubeOf(103, 4, 0xb00327c8); CubeOf(107, 4, 0xbf597fc7);
  }

  lemma {:induction false} Roots7()
    ensures forall t :: 28 <= t < 32 ==> CubeFraction(PRIMES[t], K[t])
  {
    hide CubeFraction;
    CubeOf(109, 4, 0xc6e00bf3); CubeOf(113, 4, 0xd5a79147);
    CubeOf(127, 5, 0x06ca6351); CubeOf(131, 5, 0x14292967);
  }

  lemma {:induction false} Roots8()
    ensures forall t :: 32 <= t < 36 ==> CubeFraction(PRIMES[t], K[t])
  {
    hide CubeFraction;
    CubeOf(137, 5, 0x27b70a85); CubeOf(139, 5, 0x2e1b2138);
    CubeOf(149, 5, 0x4d2c6dfc); CubeOf(151, 5, 0x53380d13);
  }

  lemma {:induction false} Roots9()
    ensures forall t :: 36 <= t < 40 ==> CubeFraction(PRIMES[t], K[t])
  {
    hide CubeFraction;
    CubeOf(157, 5, 0x650a7354); CubeOf(163, 5, 0x766a0abb);
    CubeOf(167, 5, 0x81c2c92e); CubeOf(173, 5, 0x92722c85);
  }

  lemma {:induction false} Roots10()
    ensures forall t :: 40 <= t < 44 ==> CubeFraction(PRIMES[t], K[t])
  {
    hide CubeFraction;
    CubeOf(179, 5, 0xa2bfe8a1); CubeOf(181, 5, 0xa81a664b);
    CubeOf(191, 5, 0xc24b8b70); CubeOf(193, 5, 0xc76c51a3);
  }

  lemma {:induction false} Roots11()
    ensures forall t :: 44 <= t < 48 ==> CubeFraction(PRIMES[t], K[t])
  {
    hide CubeFraction;
    CubeOf(197, 5, 0xd192e819); CubeOf(199, 5, 0xd6990624);
    CubeOf(211, 5, 0xf40e3585); CubeOf(223, 6, 0x106aa070);
  }

  lemma {:induction false} Roots12()
    ensures forall t :: 48 <= t < 52 ==> CubeFraction(PRIMES[t], K[t])
  {
    hide CubeFraction;
    CubeOf(227, 6, 0x19a4c116); CubeOf(229, 6, 0x1e376c08);
    CubeOf(233, 6, 0x2748774c); CubeOf(239, 6, 0x34b0bcb5);
  }

  lemma {:induction false} Roots13()
    ensures forall t :: 52 <= t < 56 ==> CubeFraction(PRIMES[t], K[t])
  {
    hide CubeFraction;
    CubeOf(241, 6, 0x391c0cb3); CubeOf(251, 6, 0x4ed8aa4a);
    CubeOf(257, 6, 0x5b9cca4f); CubeOf(263, 6, 0x682e6ff3);
  }

  lemma {:induction false} Roots14()
    ensures forall t :: 56 <= t < 60 ==> CubeFraction(PRIMES[t], K[t])
  {
    hide CubeFraction;
    CubeOf(269, 6, 0x748f82ee); CubeOf(271, 6, 0x78a5636f);
    CubeOf(277, 6, 0x84c87814); CubeOf(281, 6, 0x8cc70208);
  }

  lemma {:induction false} Roots15()
    ensures forall t :: 60 <= t < 64 ==> CubeFraction(PRIMES[t], K[t])
  {
    hide CubeFraction;
    CubeOf(283, 6, 0x90befffa); CubeOf(293, 6, 0xa4506ceb);
    CubeOf(307, 6, 0xbef9a3f7); CubeOf(311, 6, 0xc67178f2);
  }

  /** The round constants are the first 32 bits of the fractions of the cube roots of the first 64 primes. */
  lemma {:induction false} RoundConstantsAre()
    ensures |K| == 64 && forall t :: 0 <= t < 64 ==> IsPrimeNumber(PRIMES[t], t) && CubeFraction(PRIMES[t], K[t])
  {
    hide IsPrimeNumber, CubeFraction;
    PrimesAre();
    Roots0(); Roots1(); Roots2(); Roots3(); Roots4(); Roots5(); Roots6(); Roots7();
    Roots8(); Roots9(); Roots10(); Roots11(); Roots12(); Roots13(); Roots14(); Roots15();
  }

  /** The initial state is the first 32 bits of the fractions of the square roots of the first 8 primes. */
  lemma {:induction false} InitialStateIs()
    ensures |H0| == 8 && forall t :: 0 <= t < 8 ==> IsPrimeNumber(PRIMES[t], t) && SquareFraction(PRIMES[t], H0[t])
  {
    hide IsPrimeNumber, SquareFraction;
    Primes0();
    SquareRoots0();
    SquareRoots1();
  }

  lemma {:induction false} SquareRoots0()
    ensures forall t :: 0 <= t < 4 ==> SquareFraction(PRIMES[t], H0[t])
  {
    hide SquareFraction;
    SquareOf(2, 1, 0x6a09e667); SquareOf(3, 1, 0xbb67ae85);
    SquareOf(5, 2, 0x3c6ef372); SquareOf(7, 2, 0xa54ff53a);
  }

  lemma {:induction false} SquareRoots1()
    ensures forall t :: 4 <= t < 8 ==> SquareFraction(PRIMES[t], H0[t])
  {
    hide SquareFraction;
    SquareOf(11, 3, 0x510e527f); SquareOf(13, 3, 0x9b05688c);
    SquareOf(17, 4, 0x1f83d9ab); SquareOf(19, 4, 0x5be0cd19);
  }

  // ---- The word functions, bit by bit ----

  /** Bit `i` of `x`. */
  predicate BitAt(x: nat, i: nat) {
    Rem(Quot(x, Pow2(i)), 2) == 1
  }

  lemma {:induction false} BitOfVal(bits: seq<bool>, i: nat)
    requires i < |bits|
    ensures BitAt(Val(bits), i) == bits[i]
  {
    hide Pow2;
    ValSplit(bits, i);
    var rest := bits[i..];
    assert Val(rest) == Bit(rest[0]) + 2 * Val(rest[1..]);
    QuotRem(2, Val(rest[1..]), Bit(rest[0]), Val(rest));
  }

  /** A 32-bit number as a circuit word. */
  function Word(x: nat): (w: UInt32)
    ensures x < MOD32 ==> Val(w) == x
  {
    Constant(x)
  }

  lemma {:induction false} WordBit(x: nat, i: nat)
    requires x < MOD32 && i < 32
    ensures BitAt(x, i) == Word(x)[i]
  {
    hide BitAt, Val;
    BitOfVal(Word(x), i);
  }

  lemma {:induction false} ValueBit(w: UInt32, x: nat, i: nat)
    requires Val(w) == x && i < 32
    ensures BitAt(x, i) == w[i]
  {
    hide BitAt, Val;
    BitOfVal(w, i);
  }

  lemma {:induction false} RotrBit(x: nat, n: nat, i: nat)
    requires x < MOD32 && n < 32 && i < 32
    ensures BitAt(Rotr(x, n), i) == BitAt(x, (i + n) % 32)
  {
    hide BitAt, Val, Rotr, Constant;
    RotrVal(Word(x), n);
    ValueBit(RotrBits(Word(x), n), Rotr(x, n), i);
    WordBit(x, (i + n) % 32);
  }

  lemma {:induction false} ShrBit(x: nat, n: nat, i: nat)
    requires x < MOD32 && n < 32 && i < 32
    ensures BitAt(Shr(x, n), i) == (i + n < 32 && BitAt(x, i + n))
  {
    hide BitAt, Val, Shr, Constant;
    var bits := Word(x)[n..] + seq(n, _ => false);
    ShrVal(Word(x), n);
    ValueBit(bits, Shr(x, n), i);
    if i + n < 32 { WordBit(x, i + n); }
  }

  lemma {:induction false} ShrVal(w: UInt32, n: nat)
    requires n < 32
    ensures Val(w[n..] + seq(n, _ => false)) == Shr(Val(w), n)
  {
    var zeros := seq(n, _ => false);
    ValConcat(w[n..], zeros);
    ValZeros(zeros);
    ValSplit(w, n);
  }

  lemma {:induction false} XorBit(x: nat, y: nat, i: nat)
    requires x < MOD32 && y < MOD32 && i < 32
    ensures Xor(x, y) < MOD32 && BitAt(Xor(x, y), i) == (BitAt(x, i) != BitAt(y, i))
  {
    hide BitAt, Val, Xor, Constant;
    Pow2Values();
    XorBound(x, y, 32);
    ValueBit(XorBits(Word(x), Word(y)), Xor(x, y), i);
    WordBit(x, i);
    WordBit(y, i);
  }

  lemma {:induction false} RotrBound(x: nat, n: nat)
    requires x < MOD32 && n < 32
    ensures Rotr(x, n) < MOD32 && Shr(x, n) < MOD32
  {
    hide Val, Rotr, Shr, Constant;
    Pow2Values();
    RotrVal(Word(x), n);
    ValBound(RotrBits(Word(x), n));
    ShrVal(Word(x), n);
    ValBound(Word(x)[n..] + seq(n, _ => false));
  }

  /** An exclusive or of three words, bit by bit. */
  lemma {:induction false} Xor3Bit(x: nat, y: nat, z: nat, i: nat)
    requires x < MOD32 && y < MOD32 && z < MOD32 && i < 32
    ensures BitAt(Xor(Xor(x, y), z), i) == ((BitAt(x, i) != BitAt(y, i)) != BitAt(z, i))
  {
    hide BitAt, Xor;
    XorBit(x, y, i);
    XorBit(Xor(x, y), z, i);
  }

  lemma {:induction false} RotationBits(x: nat, a: nat, b: nat, c: nat, i: nat)
    requires x < MOD32 && a < 32 && b < 32 && c < 32 && i < 32
    ensures BitAt(Xor(Xor(Rotr(x, a), Rotr(x, b)), Rotr(x, c)), i) ==
            ((BitAt(x, (i + a) % 32) != BitAt(x, (i + b) % 32)) != BitAt(x, (i + c) % 32))
    ensures BitAt(Xor(Xor(Rotr(x, a), Rotr(x, b)), Shr(x, c)), i) ==
            ((BitAt(x, (i + a) % 32) != BitAt(x, (i + b) % 32)) != (i + c < 32 && BitAt(x, i + c)))
  {
    hide BitAt, Xor, Rotr, Shr;
    RotrBit(x, a, i); RotrBit(x, b, i); RotrBit(x, c, i); ShrBit(x, c, i);
    RotrBound(x, a); RotrBound(x, b); RotrBound(x, c);
    Xor3Bit(Rotr(x, a), Rotr(x, b), Rotr(x, c), i);
    Xor3Bit(Rotr(x, a), Rotr(x, b), Shr(x, c), i);
  }

  /** Every bit of the four sigma functions, from the bits of their argument. */
  lemma {:induction false} SigmaBits(x: nat, i: nat)
    requires x < MOD32 && i < 32
    ensures BitAt(BigSigma0(x), i) ==
            ((BitAt(x, (i + 2) % 32) != BitAt(x, (i + 13) % 32)) != BitAt(x, (i + 22) % 32))
    ensures BitAt(BigSigma1(x), i) ==
            ((BitAt(x, (i + 6) % 32) != BitAt(x, (i + 11) % 32)) != BitAt(x, (i + 25) % 32))
    ensures BitAt(SmallSigma0(x), i) ==
            ((BitAt(x, (i + 7) % 32) != BitAt(x, (i + 18) % 32)) != (i + 3 < 32 && BitAt(x, i + 3)))
    ensures BitAt(SmallSigma1(x), i) ==
            ((BitAt(x, (i + 17) % 32) != BitAt(x, (i + 19) % 32)) != (i + 10 < 32 && BitAt(x, i + 10)))
  {
    hide BitAt, Xor, Rotr, Shr;
    RotationBits(x, 2, 13, 22, i);
    RotationBits(x, 6, 11, 25, i);
    RotationBits(x, 7, 18, 3, i);
    RotationBits(x, 17, 19, 10, i);
  }

  /** `Ch` chooses between the second and third word by the bits of the first; `Maj` takes the majority. */
  lemma {:induction false} ChoiceBits(x: nat, y: nat, z: nat, i: nat)
    requires x < MOD32 && y < MOD32 && z < MOD32 && i < 32
    ensures BitAt(Ch(x, y, z), i) == if BitAt(x, i) then BitAt(y, i) else BitAt(z, i)
    ensures BitAt(Maj(x, y, z), i) ==
            ((BitAt(x, i) && BitAt(y, i)) || (BitAt(x, i) && BitAt(z, i)) || (BitAt(y, i) && BitAt(z, i)))
  {
    hide BitAt, Val, Ch, Maj, Constant;
    var a, b, c := Word(x), Word(y), Word(z);
    ValueBit(Ch32(a, b, c), Ch(x, y, z), i);
    ValueBit(Maj32(a, b, c), Maj(x, y, z), i);
    WordBit(x, i); WordBit(y, i); WordBit(z, i);
  }

  // ---- Rounds and schedule run backwards ----

  ghost predicate Words(v: Vars) {
    && v.a < MOD32 && v.b < MOD32 && v.c < MOD32 && v.d < MOD32
    && v.e < MOD32 && v.f < MOD32 && v.g < MOD32 && v.h < MOD32
  }

  /** The state before a round, from the state after it. */
  function UnRound(v: Vars, k: nat, w: nat): Vars {
    var t2 := BigSigma0(v.b) + Maj(v.b, v.c, v.d);
    var t1 := (v.a - t2) % MOD32;
    var h := (t1 - BigSigma1(v.f) - Ch(v.f, v.g, v.h) - k - w) % MOD32;
    Vars(v.b, v.c, v.d, (v.e - t1) % MOD32, v.f, v.g, v.h, h)
  }

  /** Undoing the additions of one round. */
  lemma {:induction false} UnAdd(d: nat, h: nat, s: nat, t2: nat)
    requires d < MOD32 && h < MOD32
    ensures var t1 := (h + s) % MOD32;
            var a := (t1 + t2 % MOD32) % MOD32;
            var e := (d + t1) % MOD32;
            (a - t2) % MOD32 == t1 && (e - t1) % MOD32 == d && (t1 - s) % MOD32 == h
  {
  }

  /** A round is invertible: it loses nothing of its state. */
  lemma {:induction false} RoundInverts(v: Vars, k: nat, w: nat)
    requires Words(v)
    ensures UnRound(Round(v, k, w), k, w) == v && Words(Round(v, k, w))
  {
    hide BigSigma0, BigSigma1, Ch, Maj;
    UnAdd(v.d, v.h, BigSigma1(v.e) + Ch(v.e, v.f, v.g) + k + w, BigSigma0(v.a) + Maj(v.a, v.b, v.c));
  }

  function UnRounds(v: Vars, block: seq<nat>, n: nat): Vars
    requires |block| == 16 && n <= 64
    decreases n
  {
    if n == 0 then v else UnRounds(UnRound(v, K[n - 1], W(block, n - 1)), block, n - 1)
  }

  /** The rounds of a block can be run backwards to the state they started from. */
  lemma {:induction false} RoundsInvert(v: Vars, block: seq<nat>, n: nat)
    requires Words(v) && |block| == 16 && n <= 64
    ensures UnRounds(Rounds(v, block, n), block, n) == v && Words(Rounds(v, block, n))
  {
    hide Round, UnRound, W;
    if n > 0 {
      RoundsInvert(v, block, n - 1);
      RoundInverts(Rounds(v, block, n - 1), K[n - 1], W(block, n - 1));
    }
  }

  /** The schedule runs backwards: sixteen consecutive words give the one before them. */
  lemma {:induction false} ScheduleInverts(block: seq<nat>, t: nat)
    requires |block| == 16 && forall i :: 0 <= i < 16 ==> block[i] < MOD32
    ensures W(block, t) < MOD32
    ensures W(block, t) ==
            (W(block, t + 16) - SmallSigma1(W(block, t + 14)) - W(block, t + 9) - SmallSigma0(W(block, t + 1))) % MOD32
  {
    hide SmallSigma0, SmallSigma1;
    WNext(block, t + 16);
    WordRange(block, t);
    UnSum(W(block, t), SmallSigma1(W(block, t + 14)) + W(block, t + 9) + SmallSigma0(W(block, t + 1)));
  }

  lemma {:induction false} WordRange(block: seq<nat>, t: nat)
    requires |block| == 16 && forall i :: 0 <= i < 16 ==> block[i] < MOD32
    ensures W(block, t) < MOD32
  {
    if t >= 16 { WNext(block, t); }
  }

  lemma {:induction false} UnSum(x: nat, s: nat)
    requires x < MOD32
    ensures ((s + x) % MOD32 - s) % MOD32 == x
  {
  }

  /** The result of compressing adds the starting state back, word by word. */
  lemma {:induction false} CompressAdds(state: seq<nat>, block: seq<nat>, i: nat)
    requires |state| == 8 && |block| == 16 && i < 8 && forall j :: 0 <= j < 8 ==> state[j] < MOD32
    ensures var v := Rounds(Load(state), block, 64);
            (Compress(state, block)[i] - state[i]) % MOD32 == [v.a, v.b, v.c, v.d, v.e, v.f, v.g, v.h][i]
  {
    hide Rounds;
    AllWords(state, block);
    var v := Rounds(Load(state), block, 64);
    var regs := [v.a, v.b, v.c, v.d, v.e, v.f, v.g, v.h];
    assert Compress(state, block)[i] == (regs[i] + state[i]) % MOD32;
    UnSum(regs[i], state[i]);
  }

  lemma {:induction false} AllWords(state: seq<nat>, block: seq<nat>)
    requires |state| == 8 && |block| == 16 && forall j :: 0 <= j < 8 ==> state[j] < MOD32
    ensures Words(Rounds(Load(state), block, 64))
  {
    hide Rounds;
    RoundsInvert(Load(state), block, 64);
  }
}
