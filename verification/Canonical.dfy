/** Canonical multi-field hashing: the byte encoding, its unambiguity, and the builder that produces it. */
module Canonical {
  import opened Bits
  import opened Bytes
  import Ids

  type u64 = x: nat | x < 0x1_0000_0000_0000_0000
  type Digest = Ids.Bytes32
  type HashFn = seq<byte> -> Digest

  /** One `update_*` call. */
  datatype Field =
    | Domain(tag: seq<byte>)
    | Fixed(data: seq<byte>)
    | Num(v: u64)
    | Num32(w: nat)
    | Var(data: seq<byte>)

  function EncodeField(f: Field): seq<byte> {
    match f
    case Domain(tag) => BigEndian(|tag|, 4) + tag
    case Fixed(data) => data
    case Num(v) => BigEndian(v, 8)
    case Num32(w) => BigEndian(w, 4)
    case Var(data) => BigEndian(|data|, 8) + data
  }

  function Encode(fields: seq<Field>): seq<byte> {
    if fields == [] then [] else EncodeField(fields[0]) + Encode(fields[1..])
  }

  /** What a reader of the bytes sees: prefixes of four and eight bytes hold lengths and numbers, data follows as is. */
  lemma {:induction false} FieldLayout(f: Field)
    requires Bounded(f)
    ensures var e := EncodeField(f);
            match f
            case Domain(tag) => |e| == 4 + |tag| && FromBigEndian(e[..4]) == |tag| && e[4..] == tag
            case Fixed(data) => e == data
            case Num(v) => |e| == 8 && FromBigEndian(e) == v
            case Num32(w) => |e| == 4 && FromBigEndian(e) == w
            case Var(data) => |e| == 8 + |data| && FromBigEndian(e[..8]) == |data| && e[8..] == data
  {
    hide Pow2, BigEndian, FromBigEndian;
    Pow2Values();
    Pow2Add(32, 32);
    var e := EncodeField(f);
    match f
    case Domain(tag) =>
      BigEndianRoundTrip(|tag|, 4);
      assert e[..4] == BigEndian(|tag|, 4);
    case Fixed(data) =>
    case Num(v) => BigEndianRoundTrip(v, 8);
    case Num32(w) => BigEndianRoundTrip(w, 4);
    case Var(data) =>
      BigEndianRoundTrip(|data|, 8);
      assert e[..8] == BigEndian(|data|, 8);
  }

  // ---- The encoding is unambiguous ----

  /** The lengths the casts to 32 and 64 bits keep. */
  ghost predicate Bounded(f: Field) {
    match f
    case Domain(tag) => |tag| < 0x1_0000_0000
    case Var(data) => |data| < 0x1_0000_0000_0000_0000
    case Num32(w) => w < 0x1_0000_0000
    case _ => true
  }

  /** Two fields written by the same call: same kind, and the same statically known size. */
  ghost predicate SameKind(f: Field, g: Field) {
    match (f, g)
    case (Domain(_), Domain(_)) => true
    case (Fixed(a), Fixed(b)) => |a| == |b|
    case (Num(_), Num(_)) => true
    case (Num32(_), Num32(_)) => true
    case (Var(_), Var(_)) => true
    case _ => false
  }

  ghost predicate SameShape(a: seq<Field>, b: seq<Field>) {
    && |a| == |b|
    && (forall i :: 0 <= i < |a| ==> SameKind(a[i], b[i]))
    && (forall i :: 0 <= i < |a| ==> Bounded(a[i]) && Bounded(b[i]))
  }

  lemma {:induction false} NumInjective(v: nat, w: nat, n: nat)
    requires n == 4 || n == 8
    requires if n == 4 then v < 0x1_0000_0000 && w < 0x1_0000_0000
             else v < 0x1_0000_0000_0000_0000 && w < 0x1_0000_0000_0000_0000
    requires BigEndian(v, n) == BigEndian(w, n)
    ensures v == w
  {
    hide Pow2, BigEndian;
    Pow2Values();
    Pow2Add(32, 32);
    BigEndianInjective(v, w, n);
  }

  /** A length prefix of `n` bytes fixes where the data ends. */
  lemma {:induction false} PrefixedInjective(a: seq<byte>, b: seq<byte>, x: seq<byte>, y: seq<byte>, n: nat)
    requires n == 4 || n == 8
    requires if n == 4 then |a| < 0x1_0000_0000 && |b| < 0x1_0000_0000
             else |a| < 0x1_0000_0000_0000_0000 && |b| < 0x1_0000_0000_0000_0000
    requires BigEndian(|a|, n) + a + x == BigEndian(|b|, n) + b + y
    ensures a == b && x == y
  {
    hide BigEndian;
    var s, t := BigEndian(|a|, n) + a + x, BigEndian(|b|, n) + b + y;
    assert s[..n] == BigEndian(|a|, n) && t[..n] == BigEndian(|b|, n);
    NumInjective(|a|, |b|, n);
    assert s[n..n + |a|] == a && t[n..n + |b|] == b;
    assert s[n + |a|..] == x && t[n + |b|..] == y;
  }

  lemma {:induction false} SplitInjective(a: seq<byte>, b: seq<byte>, x: seq<byte>, y: seq<byte>)
    requires |a| == |b| && a + x == b + y
    ensures a == b && x == y
  {
    assert a == (a + x)[..|a|] && b == (b + y)[..|b|];
    assert x == (a + x)[|a|..] && y == (b + y)[|b|..];
  }

  lemma {:induction false} FieldInjective(f: Field, g: Field, x: seq<byte>, y: seq<byte>)
    requires SameKind(f, g) && Bounded(f) && Bounded(g)
    requires EncodeField(f) + x == EncodeField(g) + y
    ensures f == g && x == y
  {
    hide BigEndian;
    match f
    case Domain(tag) => PrefixedInjective(tag, g.tag, x, y, 4);
    case Var(data) => PrefixedInjective(data, g.data, x, y, 8);
    case Fixed(data) => SplitInjective(data, g.data, x, y);
    case Num(v) =>
      SplitInjective(BigEndian(v, 8), BigEndian(g.v, 8), x, y);
      NumInjective(v, g.v, 8);
    case Num32(w) =>
      SplitInjective(BigEndian(w, 4), BigEndian(g.w, 4), x, y);
      NumInjective(w, g.w, 4);
  }

  /** Equal encodings of equally shaped field lists, whatever follows them, come from equal fields. */
  lemma {:induction false} EncodeInjective(a: seq<Field>, b: seq<Field>, x: seq<byte>, y: seq<byte>)
    requires SameShape(a, b) && Encode(a) + x == Encode(b) + y
    ensures a == b && x == y
  {
    hide EncodeField, Bounded, SameKind;
    if a == [] {
      assert Encode(a) + x == x && Encode(b) + y == y;
    } else {
      var f, g, s, t := a[0], b[0], Encode(a[1..]) + x, Encode(b[1..]) + y;
      assert Encode(a) + x == EncodeField(f) + s && Encode(b) + y == EncodeField(g) + t;
      FieldInjective(f, g, s, t);
      EncodeInjective(a[1..], b[1..], x, y);
      assert a == [f] + a[1..] && b == [g] + b[1..];
    }
  }

  lemma {:induction false} EncodeConcat(a: seq<Field>, b: seq<Field>)
    ensures Encode(a + b) == Encode(a) + Encode(b)
  {
    hide EncodeField;
    if a == [] {
      assert a + b == b;
    } else {
      EncodeConcat(a[1..], b);
      assert (a + b)[1..] == a[1..] + b;
      var f, s, t := EncodeField(a[0]), Encode(a[1..]), Encode(b);
      assert Encode(a + b) == f + (s + t) == (f + s) + t;
    }
  }

  /** Encodings under distinct domain tags never coincide, whatever is hashed after the tag. */
  lemma {:induction false} DomainsSeparate(d: seq<byte>, e: seq<byte>, a: seq<Field>, b: seq<Field>)
    requires |d| < 0x1_0000_0000 && |e| < 0x1_0000_0000
    requires d != e
    ensures Encode([Domain(d)] + a) != Encode([Domain(e)] + b)
  {
    hide EncodeField;
    if Encode([Domain(d)] + a) == Encode([Domain(e)] + b) {
      assert ([Domain(d)] + a)[1..] == a && ([Domain(e)] + b)[1..] == b;
      FieldInjective(Domain(d), Domain(e), Encode(a), Encode(b));
    }
  }

  // ---- Digests ----

  function Hash(h: HashFn, fields: seq<Field>): Digest {
    h(Encode(fields))
  }

  /** These two field lists have different encodings with the same hash. */
  ghost predicate Collides(h: HashFn, a: seq<Field>, b: seq<Field>) {
    Encode(a) != Encode(b) && h(Encode(a)) == h(Encode(b))
  }

  /** Equal digests come from equal fields, or from this very pair colliding. */
  lemma {:induction false} SameDigest(h: HashFn, a: seq<Field>, b: seq<Field>)
    requires SameShape(a, b) && Hash(h, a) == Hash(h, b)
    ensures a == b || Collides(h, a, b)
  {
    if Encode(a) == Encode(b) {
      assert Encode(a) + [] == Encode(b) + [];
      EncodeInjective(a, b, [], []);
    }
  }

  /** The builder: `inner` is what the hash state has absorbed so far. */
  class CanonicalHasher {
    var inner: seq<byte>
    ghost var fields: seq<Field>

    ghost predicate Valid()
      reads this
    {
      inner == Encode(fields)
    }

    constructor (domain: seq<byte>)
      ensures Valid() && fields == [Domain(domain)]
    {
      inner := BigEndian(|domain|, 4) + domain;
      fields := [Domain(domain)];
    }

    method Absorb(bytes: seq<byte>, ghost f: Field)
      requires Valid() && bytes == EncodeField(f)
      modifies this
      ensures Valid() && fields == old(fields) + [f]
    {
      EncodeConcat(fields, [f]);
      assert [f][1..] == [];
      inner := inner + bytes;
      fields := fields + [f];
    }

    method UpdateBytes(data: seq<byte>)
      requires Valid()
      modifies this
      ensures Valid() && fields == old(fields) + [Var(data)]
    {
      Absorb(BigEndian(|data|, 8) + data, Var(data));
    }

    method UpdateFixed(data: seq<byte>)
      requires Valid()
      modifies this
      ensures Valid() && fields == old(fields) + [Fixed(data)]
    {
      Absorb(data, Fixed(data));
    }

    method UpdateU64(v: u64)
      requires Valid()
      modifies this
      ensures Valid() && fields == old(fields) + [Num(v)]
    {
      Absorb(BigEndian(v, 8), Num(v));
    }

    method UpdateU32(w: nat)
      requires Valid()
      modifies this
      ensures Valid() && fields == old(fields) + [Num32(w)]
    {
      Absorb(BigEndian(w, 4), Num32(w));
    }

    method Finalize(h: HashFn) returns (d: Digest)
      requires Valid()
      ensures d == Hash(h, fields)
    {
      d := h(inner);
    }
  }
}
