/** Collecting verifier signatures into a threshold approval, and verifying one. */
module Threshold {
  import opened Bytes
  import opened Wrappers
  import opened Ids
  import opened Canonical
  import opened Quorum

  type Key = seq<byte>
  type Signature = seq<byte>

  /** Ed25519 verification, opaque to this model. */
  type VerifyFn = (Key, Digest, Signature) -> bool

  datatype Partial = Partial(id: VerifierId, bytes: Signature)

  datatype Approval = Approval(
    quorum: QuorumSpec, signers: seq<VerifierId>, signatures: seq<Partial>, signedDigest: Digest)

  datatype CryptoError =
    | UnknownVerifier(id: VerifierId)
    | MalformedSignature(id: VerifierId)
    | InvalidSignature(id: VerifierId)
    | DigestMismatch
    | InsufficientSignatures(need: nat, got: nat)

  /** The keys and the signature scheme a check runs against. */
  datatype Keyring = Keyring(verify: VerifyFn, keys: seq<(VerifierId, Key)>)

  function ApprovalFields(envelope: Digest): seq<Field> {
    [Domain(Ascii("tls-attestation/threshold-approval/v1")), Fixed(envelope)]
  }

  function SignedDigest(h: HashFn, envelope: Digest): Digest {
    Hash(h, ApprovalFields(envelope))
  }

  /** The first key listed for `id`. */
  function Find(keys: seq<(VerifierId, Key)>, id: VerifierId): Option<Key> {
    if keys == [] then None else if keys[0].0 == id then Some(keys[0].1) else Find(keys[1..], id)
  }

  predicate ValidSig(kr: Keyring, d: Digest, p: Partial) {
    var k := Find(kr.keys, p.id);
    k.Some? && |p.bytes| == 64 && kr.verify(k.value, d, p.bytes)
  }

  function SigError(kr: Keyring, p: Partial): CryptoError {
    if Find(kr.keys, p.id).None? then UnknownVerifier(p.id)
    else if |p.bytes| != 64 then MalformedSignature(p.id)
    else InvalidSignature(p.id)
  }

  function IdsOf(ps: seq<Partial>): (ids: seq<VerifierId>)
    ensures |ids| == |ps| && forall i :: 0 <= i < |ps| ==> ids[i] == ps[i].id
  {
    seq(|ps|, i requires 0 <= i < |ps| => ps[i].id)
  }

  /** Every quorum member among `ps` signed `d` validly. */
  ghost predicate MembersValid(kr: Keyring, q: QuorumSpec, d: Digest, ps: seq<Partial>) {
    forall i :: 0 <= i < |ps| && ps[i].id in q.verifiers ==> ValidSig(kr, d, ps[i])
  }

  /** `sigs` holds one valid signature of each quorum member that signed in `ps`, and nothing else. */
  ghost predicate Collected(kr: Keyring, q: QuorumSpec, d: Digest, ps: seq<Partial>, sigs: seq<Partial>) {
    && NoDuplicates(IdsOf(sigs))
    && (forall i :: 0 <= i < |sigs| ==> sigs[i] in ps && sigs[i].id in q.verifiers && ValidSig(kr, d, sigs[i]))
    && (forall i :: 0 <= i < |ps| && ps[i].id in q.verifiers ==> ps[i].id in IdsOf(sigs))
  }

  /** What aggregation guarantees about an approval it returns. */
  ghost predicate Aggregated(h: HashFn, kr: Keyring, partials: seq<Partial>, q: QuorumSpec, envelope: Digest,
                             a: Approval) {
    && a.quorum == q && a.signedDigest == SignedDigest(h, envelope) && a.signers == IdsOf(a.signatures)
    && IsSatisfiedBy(q, a.signers) && Collected(kr, q, a.signedDigest, partials, a.signatures)
  }

  method AggregateSignatures(h: HashFn, kr: Keyring, partials: seq<Partial>, q: QuorumSpec, envelope: Digest)
    returns (r: Result<Approval, CryptoError>)
    ensures r.Ok? <==>
            MembersValid(kr, q, SignedDigest(h, envelope), partials)
            && Count(q.verifiers, SetOf(IdsOf(partials))) >= q.threshold
    ensures r.Ok? ==> Aggregated(h, kr, partials, q, envelope, r.value)
  {
    hide Hash, Find, Count;
    var d := SignedDigest(h, envelope);
    var valid: seq<Partial> := [];
    for i := 0 to |partials|
      invariant MembersValid(kr, q, d, partials[..i])
      invariant Collected(kr, q, d, partials[..i], valid)
    {
      var p := partials[i];
      assert partials[..i + 1] == partials[..i] + [p];
      if p.id in q.verifiers {
        if !ValidSig(kr, d, p) {
          assert !MembersValid(kr, q, d, partials);
          return Err(SigError(kr, p));
        }
        if p.id !in IdsOf(valid) {
          KeepCollected(kr, q, d, partials[..i], valid, p);
          valid := valid + [p];
        }
      }
    }
    assert partials[..|partials|] == partials;
    SameCount(kr, q, d, partials, valid);
    if !IsSatisfiedBy(q, IdsOf(valid)) {
      return Err(InsufficientSignatures(q.threshold, |valid|));
    }
    r := Ok(Approval(q, IdsOf(valid), valid, d));
  }

  lemma {:induction false} KeepCollected(kr: Keyring, q: QuorumSpec, d: Digest, ps: seq<Partial>, sigs: seq<Partial>,
                                         p: Partial)
    requires Collected(kr, q, d, ps, sigs)
    requires p.id in q.verifiers && ValidSig(kr, d, p) && p.id !in IdsOf(sigs)
    ensures Collected(kr, q, d, ps + [p], sigs + [p])
  {
    hide ValidSig;
    var ids := IdsOf(sigs + [p]);
    assert ids == IdsOf(sigs) + [p.id];
    forall i | 0 <= i < |ps + [p]| && (ps + [p])[i].id in q.verifiers ensures (ps + [p])[i].id in ids {
      if i < |ps| { assert ps[i].id in IdsOf(sigs); } else { assert ids[|sigs|] == p.id; }
    }
  }

  lemma {:induction false} CountAgrees(vs: seq<VerifierId>, a: set<VerifierId>, b: set<VerifierId>)
    requires forall i :: 0 <= i < |vs| ==> (vs[i] in a <==> vs[i] in b)
    ensures Count(vs, a) == Count(vs, b)
  {
    if vs != [] {
      CountAgrees(vs[1..], a, b);
    }
  }

  lemma {:induction false} SameCount(kr: Keyring, q: QuorumSpec, d: Digest, ps: seq<Partial>, sigs: seq<Partial>)
    requires Collected(kr, q, d, ps, sigs)
    ensures Count(q.verifiers, SetOf(IdsOf(ps))) == Count(q.verifiers, SetOf(IdsOf(sigs)))
  {
    hide ValidSig, Count;
    var vs := q.verifiers;
    forall i | 0 <= i < |vs| ensures vs[i] in SetOf(IdsOf(ps)) <==> vs[i] in SetOf(IdsOf(sigs)) {
      if vs[i] in IdsOf(ps) {
        var k :| 0 <= k < |ps| && IdsOf(ps)[k] == vs[i];
        assert ps[k].id in IdsOf(sigs);
      }
      if vs[i] in IdsOf(sigs) {
        var k :| 0 <= k < |sigs| && IdsOf(sigs)[k] == vs[i];
        var m :| 0 <= m < |ps| && ps[m] == sigs[k];
        assert IdsOf(ps)[m] == vs[i];
      }
    }
    CountAgrees(vs, SetOf(IdsOf(ps)), SetOf(IdsOf(sigs)));
  }

  // ---- Verification ----

  /** How many of `sigs` are by quorum members. */
  function MemberCount(q: QuorumSpec, sigs: seq<Partial>): nat {
    if sigs == [] then 0
    else MemberCount(q, sigs[..|sigs| - 1]) + (if sigs[|sigs| - 1].id in q.verifiers then 1 else 0)
  }

  ghost predicate Verifies(h: HashFn, kr: Keyring, a: Approval, envelope: Digest) {
    && a.signedDigest == SignedDigest(h, envelope)
    && MembersValid(kr, a.quorum, a.signedDigest, a.signatures)
    && IsSatisfiedBy(a.quorum, a.signers)
    && MemberCount(a.quorum, a.signatures) >= a.quorum.threshold
  }

  method VerifyThresholdApproval(h: HashFn, kr: Keyring, a: Approval, envelope: Digest)
    returns (r: Result<(), CryptoError>)
    ensures r.Ok? <==> Verifies(h, kr, a, envelope)
  {
    hide Hash, Find, Count, ValidSig;
    if a.signedDigest != SignedDigest(h, envelope) { return Err(DigestMismatch); }
    var count := 0;
    for i := 0 to |a.signatures|
      invariant count == MemberCount(a.quorum, a.signatures[..i])
      invariant MembersValid(kr, a.quorum, a.signedDigest, a.signatures[..i])
    {
      var p := a.signatures[i];
      assert a.signatures[..i + 1][..i] == a.signatures[..i];
      if p.id in a.quorum.verifiers {
        if !ValidSig(kr, a.signedDigest, p) {
          assert !MembersValid(kr, a.quorum, a.signedDigest, a.signatures);
          return Err(SigError(kr, p));
        }
        count := count + 1;
      }
    }
    assert a.signatures[..|a.signatures|] == a.signatures;
    if !IsSatisfiedBy(a.quorum, a.signers) || count < a.quorum.threshold {
      return Err(InsufficientSignatures(a.quorum.threshold, count));
    }
    r := Ok(());
  }

  /** `k` is where the first key registered for `id` stands. */
  ghost predicate FirstKey(keys: seq<(VerifierId, Key)>, id: VerifierId, k: nat) {
    k < |keys| && keys[k].0 == id && forall j :: 0 <= j < k ==> keys[j].0 != id
  }

  /** The signature scheme accepts `p` over `d` under the first key registered for its signer. */
  ghost predicate SignedUnderKey(kr: Keyring, d: Digest, p: Partial) {
    |p.bytes| == 64 && exists k: nat :: FirstKey(kr.keys, p.id, k) && kr.verify(kr.keys[k].1, d, p.bytes)
  }

  lemma {:induction false} FindsFirst(keys: seq<(VerifierId, Key)>, id: VerifierId, k: nat)
    requires FirstKey(keys, id, k)
    ensures Find(keys, id) == Some(keys[k].1)
  {
    if k > 0 {
      assert keys[0].0 != id;
      FindsFirst(keys[1..], id, k - 1);
    }
  }

  lemma {:induction false} FoundFirst(keys: seq<(VerifierId, Key)>, id: VerifierId) returns (k: nat)
    requires Find(keys, id).Some?
    ensures FirstKey(keys, id, k)
  {
    if keys[0].0 == id {
      k := 0;
    } else {
      var rest := FoundFirst(keys[1..], id);
      k := rest + 1;
      forall j | 0 <= j < k ensures keys[j].0 != id {
        if j > 0 { assert keys[j] == keys[1..][j - 1]; }
      }
    }
  }

  lemma {:induction false} ValidSigMeans(kr: Keyring, d: Digest, p: Partial)
    ensures ValidSig(kr, d, p) <==> SignedUnderKey(kr, d, p)
  {
    hide Find;
    if ValidSig(kr, d, p) {
      var k := FoundFirst(kr.keys, p.id);
      FindsFirst(kr.keys, p.id, k);
    }
    if SignedUnderKey(kr, d, p) {
      var k: nat :| FirstKey(kr.keys, p.id, k) && kr.verify(kr.keys[k].1, d, p.bytes);
      FindsFirst(kr.keys, p.id, k);
    }
  }

  /** The positions of `sigs` that quorum members hold. */
  ghost function MemberPositions(q: QuorumSpec, sigs: seq<Partial>): set<nat> {
    set i: nat | i < |sigs| && sigs[i].id in q.verifiers
  }

  lemma {:induction false} MemberCountIs(q: QuorumSpec, sigs: seq<Partial>)
    ensures MemberCount(q, sigs) == |MemberPositions(q, sigs)|
  {
    if sigs != [] {
      var n := |sigs| - 1;
      MemberCountIs(q, sigs[..n]);
      var here := if sigs[n].id in q.verifiers then {n} else {};
      assert MemberPositions(q, sigs) == MemberPositions(q, sigs[..n]) + here;
    }
  }

  /**
   * An approval verifies exactly when it signs this envelope's approval encoding, every signature in it by a quorum
   * member is good under that member's first registered key, its signers satisfy the quorum, and at least `threshold`
   * of its signatures are by quorum members.
   */
  lemma {:induction false} ApprovalMeans(h: HashFn, kr: Keyring, a: Approval, envelope: Digest)
    ensures Verifies(h, kr, a, envelope) <==>
            && a.signedDigest == Hash(h, ApprovalFields(envelope))
            && (forall i :: 0 <= i < |a.signatures| && a.signatures[i].id in a.quorum.verifiers ==>
                  SignedUnderKey(kr, a.signedDigest, a.signatures[i]))
            && Count(a.quorum.verifiers, SetOf(a.signers)) >= a.quorum.threshold
            && |MemberPositions(a.quorum, a.signatures)| >= a.quorum.threshold
  {
    hide Hash, ApprovalFields, ValidSig, SignedUnderKey, Count, SetOf, MemberCount, MemberPositions;
    MemberCountIs(a.quorum, a.signatures);
    forall i | 0 <= i < |a.signatures|
      ensures ValidSig(kr, a.signedDigest, a.signatures[i]) <==> SignedUnderKey(kr, a.signedDigest, a.signatures[i])
    {
      ValidSigMeans(kr, a.signedDigest, a.signatures[i]);
    }
  }

  /** What is signed determines the envelope, or this pair of encodings collides. */
  lemma {:induction false} SignedDigestBinds(h: HashFn, x: Digest, y: Digest)
    requires SignedDigest(h, x) == SignedDigest(h, y)
    ensures x == y || Collides(h, ApprovalFields(x), ApprovalFields(y))
  {
    hide Collides, Encode, Ascii;
    var a, b := ApprovalFields(x), ApprovalFields(y);
    SameDigest(h, a, b);
    if a == b { assert a[1] == b[1]; }
  }

  /** An approval verifies for one envelope digest only, unless the two approval encodings collide. */
  lemma {:induction false} OneEnvelope(h: HashFn, kr: Keyring, a: Approval, x: Digest, y: Digest)
    requires Verifies(h, kr, a, x) && Verifies(h, kr, a, y)
    ensures x == y || Collides(h, ApprovalFields(x), ApprovalFields(y))
  {
    hide SignedDigest, MembersValid, IsSatisfiedBy, Collides;
    SignedDigestBinds(h, x, y);
  }

  lemma {:induction false} AllMembers(q: QuorumSpec, sigs: seq<Partial>)
    requires forall i :: 0 <= i < |sigs| ==> sigs[i].id in q.verifiers
    ensures MemberCount(q, sigs) == |sigs|
  {
    if sigs != [] { AllMembers(q, sigs[..|sigs| - 1]); }
  }

  lemma {:induction false} VerifiesBySize(h: HashFn, kr: Keyring, partials: seq<Partial>, q: QuorumSpec,
                                          envelope: Digest, a: Approval)
    requires Aggregated(h, kr, partials, q, envelope, a)
    ensures Verifies(h, kr, a, envelope) <==> |a.signers| >= q.threshold
  {
    hide Hash, ValidSig, Count;
    AllMembers(q, a.signatures);
  }

  /** The signers of an aggregated approval are the quorum members among the partials, each once. */
  lemma {:induction false} AggregatedSigners(h: HashFn, kr: Keyring, partials: seq<Partial>, q: QuorumSpec,
                                             envelope: Digest, a: Approval)
    requires Aggregated(h, kr, partials, q, envelope, a)
    ensures SetOf(a.signers) == Eligible(q, IdsOf(partials)) && |SetOf(a.signers)| == |a.signers|
  {
    hide Hash, ValidSig, Count;
    DistinctSize(a.signers);
    var ids := IdsOf(partials);
    forall v | v in a.signers ensures v in ids && v in q.verifiers {
      var k :| 0 <= k < |a.signatures| && a.signers[k] == v;
      var m :| 0 <= m < |partials| && partials[m] == a.signatures[k];
      assert ids[m] == v;
    }
    forall v | v in ids && v in q.verifiers ensures v in a.signers {
      var m :| 0 <= m < |partials| && ids[m] == v;
      assert partials[m].id in IdsOf(a.signatures);
    }
  }

  /** An aggregated approval verifies exactly when `threshold` distinct quorum members are among the partials. */
  lemma {:induction false} AggregateVerifies(h: HashFn, kr: Keyring, partials: seq<Partial>, q: QuorumSpec,
                                             envelope: Digest, a: Approval)
    requires Aggregated(h, kr, partials, q, envelope, a)
    ensures Verifies(h, kr, a, envelope) <==> |Eligible(q, IdsOf(partials))| >= q.threshold
  {
    hide *;
    VerifiesBySize(h, kr, partials, q, envelope, a);
    AggregatedSigners(h, kr, partials, q, envelope, a);
  }

  /** For a duplicate-free quorum every aggregated approval holds enough distinct members and verifies. */
  lemma {:induction false} AggregateSound(h: HashFn, kr: Keyring, partials: seq<Partial>, q: QuorumSpec,
                                          envelope: Digest, a: Approval)
    requires Aggregated(h, kr, partials, q, envelope, a) && NoDuplicates(q.verifiers)
    ensures |SetOf(a.signers)| == |a.signers| >= q.threshold && SetOf(a.signers) <= SetOf(q.verifiers)
    ensures Verifies(h, kr, a, envelope)
  {
    hide Hash, ValidSig, Count;
    AggregatedSigners(h, kr, partials, q, envelope, a);
    assert Eligible(q, a.signers) == SetOf(a.signers);
    SatisfiedIsDistinct(q, a.signers);
    VerifiesBySize(h, kr, partials, q, envelope, a);
  }

  /**
   * Without that assumption the two functions disagree: quorum `[a, a]` with threshold 2 and one
   * valid signature aggregates, and the result is refused.
   */
  lemma {:induction false} DuplicateQuorumCounterexample(h: HashFn, kr: Keyring, p: Partial, envelope: Digest)
    requires ValidSig(kr, SignedDigest(h, envelope), p)
    ensures var q := QuorumSpec([p.id, p.id], 2);
            var a := Approval(q, [p.id], [p], SignedDigest(h, envelope));
            Aggregated(h, kr, [p], q, envelope, a) && !Verifies(h, kr, a, envelope)
  {
    hide Hash, ValidSig, Count;
    var q := QuorumSpec([p.id, p.id], 2);
    var a := Approval(q, [p.id], [p], SignedDigest(h, envelope));
    DuplicateCounterexample(p.id);
    assert IdsOf([p]) == [p.id];
    assert [p][0] == p;
    VerifiesBySize(h, kr, [p], q, envelope, a);
  }
}
