/** The hash-based distributed randomness engine: contributions, their combination, and verification. */
module Randomness {
  import opened Bits
  import opened Bytes
  import opened Wrappers
  import opened Ids
  import opened Canonical

  datatype Contribution = Contribution(vid: VerifierId, value: Digest)

  datatype Output = Output(
    id: RandomnessId, sessionId: SessionId, epoch: u64, value: Digest, partials: seq<Contribution>, binding: Digest)

  datatype RandomnessError =
    | InsufficientContributions(need: nat, got: nat)
    | UnknownVerifier(id: VerifierId)
    | BindingMismatch
    | WrongContribution(id: VerifierId)
    | WrongValue

  type Secrets = map<VerifierId, Bytes32>

  const ZERO: Digest := Zeros(32)

  // ---- Exclusive or of digests ----

  /** Byte by byte exclusive or. */
  method XorWith(a: Digest, b: Digest) returns (c: Digest)
    ensures c == XorBytes(a, b)
  {
    var out: seq<byte> := [];
    for i := 0 to 32
      invariant |out| == i && forall j :: 0 <= j < i ==> out[j] == XorByteOf(a[j], b[j])
    {
      out := out + [XorByteOf(a[i], b[i])];
    }
    c := out;
  }

  lemma {:induction false} XorDigestLaws(a: Digest, b: Digest, c: Digest)
    ensures XorBytes(a, b) == XorBytes(b, a)
    ensures XorBytes(XorBytes(a, b), c) == XorBytes(a, XorBytes(b, c))
    ensures XorBytes(ZERO, a) == a
  {
    forall i | 0 <= i < 32
      ensures XorByteOf(a[i], b[i]) == XorByteOf(b[i], a[i])
      ensures XorByteOf(XorByteOf(a[i], b[i]), c[i]) == XorByteOf(a[i], XorByteOf(b[i], c[i]))
      ensures XorByteOf(0, a[i]) == a[i]
    {
      XorComm(a[i], b[i]);
      XorAssoc(a[i], b[i], c[i]);
      XorZero(a[i]);
    }
  }

  /** The exclusive or of all contributions. */
  function XorAll(s: seq<Contribution>): Digest {
    if s == [] then ZERO else XorBytes(s[0].value, XorAll(s[1..]))
  }

  lemma {:induction false} XorAllConcat(a: seq<Contribution>, b: seq<Contribution>)
    ensures XorAll(a + b) == XorBytes(XorAll(a), XorAll(b))
  {
    hide XorBytes;
    if a == [] {
      assert a + b == b;
      XorDigestLaws(XorAll(b), ZERO, ZERO);
    } else {
      assert (a + b)[1..] == a[1..] + b;
      XorAllConcat(a[1..], b);
      XorDigestLaws(a[0].value, XorAll(a[1..]), XorAll(b));
    }
  }

  lemma {:induction false} XorAllNone()
    ensures XorAll([]) == ZERO
  {
  }

  lemma {:induction false} XorAllOne(c: Contribution)
    ensures XorAll([c]) == c.value
  {
    hide XorBytes;
    assert [c][1..] == [];
    XorDigestLaws(c.value, ZERO, ZERO);
  }

  /** The same contributions in any order combine alike. */
  lemma {:induction false} XorAllOrderFree(a: seq<Contribution>, b: seq<Contribution>)
    requires multiset(a) == multiset(b)
    ensures XorAll(a) == XorAll(b)
    decreases |a|
  {
    hide XorBytes;
    if a == [] {
      assert |b| == |multiset(b)| == 0;
    } else {
      var x, y := TakeOut(a, b);
      XorAllOrderFree(a[1..], x + y);
      MoveToFront(x, a[0], y);
    }
  }

  /** The head of a list taken out of a permutation of it. */
  lemma {:induction false} TakeOut<T>(a: seq<T>, b: seq<T>) returns (x: seq<T>, y: seq<T>)
    requires a != [] && multiset(a) == multiset(b)
    ensures b == x + ([a[0]] + y) && multiset(a[1..]) == multiset(x + y)
  {
    assert a == [a[0]] + a[1..];
    assert a[0] in multiset(b);
    var i :| 0 <= i < |b| && b[i] == a[0];
    x, y := b[..i], b[i + 1..];
    assert b == x + ([a[0]] + y);
    assert multiset(b) == multiset(x) + multiset{a[0]} + multiset(y);
    assert multiset(a) == multiset{a[0]} + multiset(a[1..]);
    assert multiset(x + y) == multiset(b) - multiset{a[0]} == multiset(a[1..]);
  }

  lemma {:induction false} MoveToFront(x: seq<Contribution>, c: Contribution, y: seq<Contribution>)
    ensures XorAll(x + ([c] + y)) == XorBytes(c.value, XorAll(x + y))
  {
    hide XorBytes, XorAll;
    XorAllConcat(x, [c] + y);
    XorAllConcat([c], y);
    XorAllConcat(x, y);
    XorAllOne(c);
    XorDigestLaws(XorAll(x), c.value, XorAll(y));
    XorDigestLaws(c.value, XorAll(x), XorAll(y));
  }

  // ---- Combination ----

  /** Byte-wise lexicographic order. */
  predicate AtMost(a: seq<byte>, b: seq<byte>) {
    a == [] || (b != [] && (a[0] < b[0] || (a[0] == b[0] && AtMost(a[1..], b[1..]))))
  }

  function Insert(c: Contribution, s: seq<Contribution>): (r: seq<Contribution>)
    ensures multiset(r) == multiset([c]) + multiset(s)
  {
    if s == [] || AtMost(c.vid, s[0].vid) then [c] + s
    else
      assert s == [s[0]] + s[1..];
      [s[0]] + Insert(c, s[1..])
  }

  /** Contributions sorted by verifier identity. */
  function SortById(s: seq<Contribution>): (r: seq<Contribution>)
    ensures multiset(r) == multiset(s)
  {
    if s == [] then []
    else
      assert s == [s[0]] + s[1..];
      Insert(s[0], SortById(s[1..]))
  }

  ghost predicate Sorted(s: seq<Contribution>) {
    forall i :: 0 <= i < |s| - 1 ==> AtMost(s[i].vid, s[i + 1].vid)
  }

  lemma {:induction false} OrderTotal(a: seq<byte>, b: seq<byte>)
    ensures AtMost(a, b) || AtMost(b, a)
  {
    if a != [] && b != [] { OrderTotal(a[1..], b[1..]); }
  }

  lemma {:induction false} InsertKeepsSorted(c: Contribution, s: seq<Contribution>)
    requires Sorted(s)
    ensures Sorted(Insert(c, s)) && Insert(c, s)[0] in [c] + s[..if s == [] then 0 else 1]
  {
    hide AtMost;
    if s != [] && !AtMost(c.vid, s[0].vid) {
      OrderTotal(c.vid, s[0].vid);
      var rest := s[1..];
      assert Sorted(rest) by {
        forall i | 0 <= i < |rest| - 1 ensures AtMost(rest[i].vid, rest[i + 1].vid) {
          assert AtMost(s[i + 1].vid, s[i + 2].vid);
        }
      }
      InsertKeepsSorted(c, rest);
      var t := Insert(c, rest);
      assert AtMost(s[0].vid, t[0].vid) by {
        if rest != [] { assert AtMost(s[0].vid, s[1].vid); }
      }
    }
  }

  /** The sort puts identities in byte order. */
  lemma {:induction false} SortByIdSorts(s: seq<Contribution>)
    ensures Sorted(SortById(s))
  {
    if s != [] {
      SortByIdSorts(s[1..]);
      InsertKeepsSorted(s[0], SortById(s[1..]));
    }
  }

  function CombineFields(x: Digest): seq<Field> {
    [Domain(Ascii("tls-attestation/dvrf-combine/v1")), Fixed(x)]
  }

  /** The combined value of a collection of contributions. */
  function Combined(h: HashFn, s: seq<Contribution>): Digest {
    Hash(h, CombineFields(XorAll(s)))
  }

  /** Sorts, folds from zero, then hashes. */
  method Combine(h: HashFn, partials: seq<Contribution>) returns (r: Digest)
    ensures r == Combined(h, partials)
    ensures forall s :: multiset(s) == multiset(partials) ==> r == Combined(h, s)
  {
    hide XorBytes, XorAll, Hash, CombineFields;
    var sorted := SortById(partials);
    var acc := ZERO;
    XorAllNone();
    for i := 0 to |sorted|
      invariant acc == XorAll(sorted[..i])
    {
      assert sorted[..i + 1] == sorted[..i] + [sorted[i]];
      XorAllConcat(sorted[..i], [sorted[i]]);
      XorAllOne(sorted[i]);
      acc := XorWith(acc, sorted[i].value);
    }
    assert sorted[..|sorted|] == sorted;
    r := Hash(h, CombineFields(acc));
    forall s: seq<Contribution> | multiset(s) == multiset(partials) ensures r == Combined(h, s) {
      XorAllOrderFree(sorted, s);
    }
  }

  function ContributionFields(session: SessionId, nonce: Nonce, v: VerifierId, secret: Bytes32): seq<Field> {
    [Domain(Ascii("tls-attestation/dvrf-contribution/v1")), Fixed(session), Fixed(nonce), Fixed(v), Fixed(secret)]
  }

  function ComputeContribution(h: HashFn, session: SessionId, nonce: Nonce, v: VerifierId, secret: Bytes32): Digest {
    Hash(h, ContributionFields(session, nonce, v, secret))
  }

  function SessionFields(session: SessionId, nonce: Nonce): seq<Field> {
    [Domain(Ascii("tls-attestation/session-binding/v1")), Fixed(session), Fixed(nonce)]
  }

  function SessionBinding(h: HashFn, session: SessionId, nonce: Nonce): Digest {
    Hash(h, SessionFields(session, nonce))
  }

  /** A contribution determines its session, nonce, verifier and secret, or this pair of encodings collides. */
  lemma {:induction false} ContributionBinds(h: HashFn, session: SessionId, nonce: Nonce, v: VerifierId,
                                             secret: Bytes32, session': SessionId, nonce': Nonce, v': VerifierId,
                                             secret': Bytes32)
    requires ComputeContribution(h, session, nonce, v, secret) == ComputeContribution(h, session', nonce', v', secret')
    ensures (session, nonce, v, secret) == (session', nonce', v', secret') ||
            Collides(h, ContributionFields(session, nonce, v, secret),
                     ContributionFields(session', nonce', v', secret'))
  {
    hide Collides, Encode, Ascii;
    var a, b := ContributionFields(session, nonce, v, secret), ContributionFields(session', nonce', v', secret');
    SameDigest(h, a, b);
    if a == b { assert a[1] == b[1] && a[2] == b[2] && a[3] == b[3] && a[4] == b[4]; }
  }

  /** A session binding determines session and nonce, or this pair of encodings collides. */
  lemma {:induction false} SessionBindingBinds(h: HashFn, session: SessionId, nonce: Nonce, session': SessionId,
                                               nonce': Nonce)
    requires SessionBinding(h, session, nonce) == SessionBinding(h, session', nonce')
    ensures (session, nonce) == (session', nonce') ||
            Collides(h, SessionFields(session, nonce), SessionFields(session', nonce'))
  {
    hide Collides, Encode, Ascii;
    var a, b := SessionFields(session, nonce), SessionFields(session', nonce');
    SameDigest(h, a, b);
    if a == b { assert a[1] == b[1] && a[2] == b[2]; }
  }

  /** Equal combined values come from contributions with the same exclusive or, or their encodings collide. */
  lemma {:induction false} CombinedBinds(h: HashFn, s: seq<Contribution>, t: seq<Contribution>)
    requires Combined(h, s) == Combined(h, t)
    ensures XorAll(s) == XorAll(t) || Collides(h, CombineFields(XorAll(s)), CombineFields(XorAll(t)))
  {
    hide Collides, Encode, Ascii, XorAll;
    var a, b := CombineFields(XorAll(s)), CombineFields(XorAll(t));
    SameDigest(h, a, b);
    if a == b { assert a[1] == b[1]; }
  }

  // ---- Generation and verification ----

  /** `c` is its verifier's contribution to this session. */
  ghost predicate Correct(h: HashFn, secrets: Secrets, session: SessionId, nonce: Nonce, c: Contribution) {
    c.vid in secrets && c.value == ComputeContribution(h, session, nonce, c.vid, secrets[c.vid])
  }

  function Contributors(s: seq<Contribution>): (ids: seq<VerifierId>)
    ensures |ids| == |s| && forall i :: 0 <= i < |s| ==> ids[i] == s[i].vid
  {
    seq(|s|, i requires 0 <= i < |s| => s[i].vid)
  }

  /** What a well-formed output for this session and nonce is. */
  ghost predicate WellDerived(h: HashFn, secrets: Secrets, nonce: Nonce, o: Output) {
    && o.binding == SessionBinding(h, o.sessionId, nonce)
    && (forall i :: 0 <= i < |o.partials| ==> Correct(h, secrets, o.sessionId, nonce, o.partials[i]))
    && o.value == Combined(h, o.partials)
  }

  method Generate(h: HashFn, secrets: Secrets, session: SessionId, nonce: Nonce, epoch: u64,
                  participants: seq<VerifierId>, id: RandomnessId)
    returns (r: Result<Output, RandomnessError>)
    ensures r.Ok? <==> participants != [] && forall i :: 0 <= i < |participants| ==> participants[i] in secrets
    ensures participants == [] ==> r == Err(InsufficientContributions(1, 0))
    ensures r.Ok? ==>
              && (r.value.id, r.value.sessionId, r.value.epoch) == (id, session, epoch)
              && Contributors(r.value.partials) == participants && WellDerived(h, secrets, nonce, r.value)
  {
    hide Hash, Combined;
    if participants == [] { return Err(InsufficientContributions(1, 0)); }
    var partials: seq<Contribution> := [];
    for i := 0 to |participants|
      invariant |partials| == i && forall j :: 0 <= j < i ==> participants[j] in secrets
      invariant forall j :: 0 <= j < i ==>
                  partials[j].vid == participants[j] && Correct(h, secrets, session, nonce, partials[j])
    {
      var v := participants[i];
      if v !in secrets { return Err(UnknownVerifier(v)); }
      partials := partials + [Contribution(v, ComputeContribution(h, session, nonce, v, secrets[v]))];
    }
    var value := Combine(h, partials);
    assert Contributors(partials) == participants;
    return Ok(Output(id, session, epoch, value, partials, SessionBinding(h, session, nonce)));
  }

  method Verify(h: HashFn, secrets: Secrets, o: Output, nonce: Nonce) returns (r: Result<(), RandomnessError>)
    ensures r.Ok? <==> WellDerived(h, secrets, nonce, o)
  {
    hide Hash, Combined;
    if o.binding != SessionBinding(h, o.sessionId, nonce) { return Err(BindingMismatch); }
    var recomputed: seq<Contribution> := [];
    for i := 0 to |o.partials|
      invariant forall j :: 0 <= j < i ==> Correct(h, secrets, o.sessionId, nonce, o.partials[j])
      invariant recomputed == o.partials[..i]
    {
      var c := o.partials[i];
      if c.vid !in secrets { return Err(UnknownVerifier(c.vid)); }
      var expected := ComputeContribution(h, o.sessionId, nonce, c.vid, secrets[c.vid]);
      if c.value != expected { return Err(WrongContribution(c.vid)); }
      recomputed := recomputed + [Contribution(c.vid, expected)];
    }
    assert recomputed == o.partials;
    var value := Combine(h, recomputed);
    if o.value != value { return Err(WrongValue); }
    return Ok(());
  }

  /** An output verifies for one nonce only, unless the two session encodings collide. */
  lemma {:induction false} OneNonce(h: HashFn, secrets: Secrets, nonce: Nonce, nonce': Nonce, o: Output)
    requires WellDerived(h, secrets, nonce, o) && WellDerived(h, secrets, nonce', o)
    ensures nonce == nonce' || Collides(h, SessionFields(o.sessionId, nonce), SessionFields(o.sessionId, nonce'))
  {
    hide Collides, SessionFields, SessionBinding, Correct, Combined;
    SessionBindingBinds(h, o.sessionId, nonce, o.sessionId, nonce');
  }

  /** Two well-derived outputs for one session, from the same verifiers in any order, carry the same value. */
  lemma {:induction false} ValueDetermined(h: HashFn, secrets: Secrets, nonce: Nonce, a: Output, b: Output)
    requires WellDerived(h, secrets, nonce, a) && WellDerived(h, secrets, nonce, b) && a.sessionId == b.sessionId
    requires multiset(Contributors(a.partials)) == multiset(Contributors(b.partials))
    ensures a.value == b.value && a.binding == b.binding
  {
    hide Hash, XorAll;
    SameContributions(h, secrets, a.sessionId, nonce, a.partials, b.partials);
    XorAllOrderFree(a.partials, b.partials);
  }

  lemma {:induction false} SameContributions(h: HashFn, secrets: Secrets, session: SessionId, nonce: Nonce,
                                             a: seq<Contribution>, b: seq<Contribution>)
    requires forall i :: 0 <= i < |a| ==> Correct(h, secrets, session, nonce, a[i])
    requires forall i :: 0 <= i < |b| ==> Correct(h, secrets, session, nonce, b[i])
    requires multiset(Contributors(a)) == multiset(Contributors(b))
    ensures multiset(a) == multiset(b)
    decreases |a|
  {
    hide ComputeContribution, Contributors;
    if a == [] {
      assert |b| == |multiset(Contributors(b))| == 0;
    } else {
      var x, y := TakeOut(Contributors(a), Contributors(b));
      var i := |x|;
      assert b[i].vid == Contributors(b)[i] == a[0].vid;
      assert b[i] == a[0];
      var rest := b[..i] + b[i + 1..];
      assert Contributors(a)[1..] == Contributors(a[1..]);
      assert x + y == Contributors(rest);
      SameContributions(h, secrets, session, nonce, a[1..], rest);
      PutBack(a, b, i);
    }
  }

  lemma {:induction false} PutBack<T>(a: seq<T>, b: seq<T>, i: nat)
    requires a != [] && i < |b| && b[i] == a[0] && multiset(a[1..]) == multiset(b[..i] + b[i + 1..])
    ensures multiset(a) == multiset(b)
  {
    assert a == [a[0]] + a[1..];
    assert b == b[..i] + ([a[0]] + b[i + 1..]);
    assert multiset(b) == multiset(b[..i]) + multiset{a[0]} + multiset(b[i + 1..]);
  }

  /** Verification also accepts an output nobody contributed to, which generation never returns. */
  lemma {:induction false} EmptyOutputVerifies(h: HashFn, secrets: Secrets, session: SessionId, nonce: Nonce,
                                               id: RandomnessId)
    ensures WellDerived(h, secrets, nonce,
              Output(id, session, 0, Hash(h, CombineFields(ZERO)), [],
              SessionBinding(h, session, nonce)))
  {
    assert XorAll([]) == ZERO;
  }

  /** An accepted output is one that generation returns for its contributors, exactly when it has any. */
  method Regenerate(h: HashFn, secrets: Secrets, o: Output, nonce: Nonce) returns (r: Result<Output, RandomnessError>)
    requires WellDerived(h, secrets, nonce, o)
    ensures r == Ok(o) <==> o.partials != []
    ensures r.Err? ==> r.error == InsufficientContributions(1, 0)
  {
    hide Hash, Combined, ComputeContribution;
    r := Generate(h, secrets, o.sessionId, nonce, o.epoch, Contributors(o.partials), o.id);
    if r.Ok? {
      forall i | 0 <= i < |o.partials| ensures r.value.partials[i] == o.partials[i] {
        assert Contributors(r.value.partials)[i] == Contributors(o.partials)[i];
        assert Correct(h, secrets, o.sessionId, nonce, o.partials[i]);
      }
      assert r.value.partials == o.partials;
    }
  }
}
