/** Session contexts, attestation packages, the auxiliary verifier's check and the envelope digest. */
module Attestation {
  import opened Bytes
  import opened Wrappers
  import opened Ids
  import opened Canonical
  import opened Quorum
  import T = Threshold

  const MAX64: nat := 0x1_0000_0000_0000_0000

  function AsU64(n: nat): u64 {
    n % MAX64
  }

  datatype SessionContext = SessionContext(
    sessionId: SessionId, proverId: ProverId, coordinatorId: VerifierId, quorum: QuorumSpec,
    epoch: u64, createdAt: u64, expiresAt: u64, nonce: Nonce, digest: Digest)

  /** A commitment and the role it claims; the role is carried in the clear beside the digest. */
  datatype TranscriptCommitment = TranscriptCommitment(role: seq<byte>, digest: Digest)

  datatype TranscriptCommitments = TranscriptCommitments(
    query: TranscriptCommitment, response: TranscriptCommitment, session: Digest)

  datatype Evidence = Evidence(engineTag: seq<byte>, bytes: seq<byte>, digest: Digest)

  datatype Package = Package(
    context: SessionContext, randomness: Digest, transcript: TranscriptCommitments, evidence: Evidence, digest: Digest)

  datatype StatementPayload = StatementPayload(content: seq<byte>, derivationTag: seq<byte>, digest: Digest)

  // ---- Builders ----

  function IdFields(vs: seq<VerifierId>): (fs: seq<Field>)
    ensures |fs| == |vs| && forall i :: 0 <= i < |vs| ==> fs[i] == Fixed(vs[i])
  {
    seq(|vs|, i requires 0 <= i < |vs| => Fixed(vs[i]))
  }

  function SessionFields(sid: SessionId, prover: ProverId, coord: VerifierId, q: QuorumSpec, epoch: u64, created: u64,
                         expires: u64, nonce: Nonce): seq<Field> {
    [Domain(Ascii("tls-attestation/session-context/v1")), Fixed(sid), Fixed(prover), Fixed(coord),
     Num(epoch), Num(created), Num(expires), Fixed(nonce), Num(AsU64(q.threshold)), Num(AsU64(|q.verifiers|))]
    + IdFields(q.verifiers)
  }

  /** Expiry is clamped to at least one second after creation, saturating at the largest timestamp. */
  function ClampExpiry(created: u64, expires: u64): (end: u64)
    ensures expires <= end && created <= end && (end == expires || end == created || end == created + 1)
    ensures end == created ==> created == MAX64 - 1
  {
    if expires <= created then (if created + 1 < MAX64 then created + 1 else created) else expires
  }

  function NewContext(h: HashFn, sid: SessionId, prover: ProverId, coord: VerifierId, q: QuorumSpec, epoch: u64,
                      created: u64, expires: u64, nonce: Nonce): SessionContext {
    var e := ClampExpiry(created, expires);
    SessionContext(sid, prover, coord, q, epoch, created, e, nonce,
                   Hash(h, SessionFields(sid, prover, coord, q, epoch, created, e, nonce)))
  }

  const QUERY: seq<byte> := Ascii("query")
  const RESPONSE: seq<byte> := Ascii("response")

  function RoleDomain(role: seq<byte>): seq<byte> {
    Ascii("tls-attestation/transcript/") + role + Ascii("/v1")
  }

  function CommitmentFields(role: seq<byte>, sid: SessionId, rand: Digest, data: seq<byte>): seq<Field> {
    [Domain(RoleDomain(role)), Fixed(sid), Fixed(rand), Var(data)]
  }

  function Commit(h: HashFn, role: seq<byte>, sid: SessionId, rand: Digest, data: seq<byte>): TranscriptCommitment {
    TranscriptCommitment(role, Hash(h, CommitmentFields(role, sid, rand, data)))
  }

  /** Recomputes the digest under the role the commitment claims. */
  predicate VerifyCommitment(h: HashFn, c: TranscriptCommitment, sid: SessionId, rand: Digest, data: seq<byte>) {
    c.digest == Commit(h, c.role, sid, rand, data).digest
  }

  function TranscriptFields(sid: SessionId, query: Digest, response: Digest): seq<Field> {
    [Domain(Ascii("tls-attestation/session-transcript/v1")), Fixed(sid), Fixed(query), Fixed(response)]
  }

  function BuildTranscript(h: HashFn, sid: SessionId, rand: Digest, query: seq<byte>, response: seq<byte>)
    : TranscriptCommitments
  {
    var q, r := Commit(h, QUERY, sid, rand, query), Commit(h, RESPONSE, sid, rand, response);
    TranscriptCommitments(q, r, Hash(h, TranscriptFields(sid, q.digest, r.digest)))
  }

  function NewEvidence(h: HashFn, engineTag: seq<byte>, bytes: seq<byte>): Evidence {
    Evidence(engineTag, bytes, Hash(h, [Domain(Ascii("tls-attestation/evidence/v1")), Var(engineTag), Var(bytes)]))
  }

  function PackageFields(session: Digest, rand: Digest, transcript: Digest, evidence: Digest): seq<Field> {
    [Domain(Ascii("tls-attestation/attestation-package/v1")), Fixed(session), Fixed(rand), Fixed(transcript),
     Fixed(evidence)]
  }

  function PackageDigest(h: HashFn, c: SessionContext, rand: Digest, t: TranscriptCommitments, e: Evidence): Digest {
    Hash(h, PackageFields(c.digest, rand, t.session, e.digest))
  }

  function BuildPackage(h: HashFn, c: SessionContext, rand: Digest, t: TranscriptCommitments, e: Evidence): Package {
    Package(c, rand, t, e, PackageDigest(h, c, rand, t, e))
  }

  function StatementFields(tag: seq<byte>, transcript: Digest, content: seq<byte>): seq<Field> {
    [Domain(Ascii("tls-attestation/statement/v1")), Var(tag), Fixed(transcript), Var(content)]
  }

  function NewStatement(h: HashFn, content: seq<byte>, tag: seq<byte>, transcript: Digest): StatementPayload {
    StatementPayload(content, tag, Hash(h, StatementFields(tag, transcript, content)))
  }

  /** A commitment verifies for one session, randomness and data only, unless the two encodings collide. */
  lemma {:induction false} CommitmentBinds(h: HashFn, c: TranscriptCommitment, sid: SessionId, rand: Digest,
                                           data: seq<byte>, sid': SessionId, rand': Digest, data': seq<byte>)
    requires |RoleDomain(c.role)| < 0x1_0000_0000 && |data| < MAX64 && |data'| < MAX64
    requires VerifyCommitment(h, c, sid, rand, data) && VerifyCommitment(h, c, sid', rand', data')
    ensures (sid, rand, data) == (sid', rand', data') ||
            Collides(h, CommitmentFields(c.role, sid, rand, data), CommitmentFields(c.role, sid', rand', data'))
  {
    hide Encode, Collides, Ascii, RoleDomain;
    var a, b := CommitmentFields(c.role, sid, rand, data), CommitmentFields(c.role, sid', rand', data');
    SameDigest(h, a, b);
    if a == b { assert a[1] == b[1] && a[2] == b[2] && a[3] == b[3]; }
  }

  /** A session transcript digest determines the session and both commitments, or these two encodings collide. */
  lemma {:induction false} TranscriptBinds(h: HashFn, sid: SessionId, query: Digest, response: Digest,
                                           sid': SessionId, query': Digest, response': Digest)
    requires Hash(h, TranscriptFields(sid, query, response)) == Hash(h, TranscriptFields(sid', query', response'))
    ensures (sid, query, response) == (sid', query', response') ||
            Collides(h, TranscriptFields(sid, query, response), TranscriptFields(sid', query', response'))
  {
    hide Encode, Collides, Ascii;
    var a, b := TranscriptFields(sid, query, response), TranscriptFields(sid', query', response');
    SameDigest(h, a, b);
    if a == b { assert a[1] == b[1] && a[2] == b[2] && a[3] == b[3]; }
  }

  /** A statement digest determines tag, transcript and content, or these two encodings collide. */
  lemma {:induction false} StatementBinds(h: HashFn, tag: seq<byte>, transcript: Digest, content: seq<byte>,
                                          tag': seq<byte>, transcript': Digest, content': seq<byte>)
    requires |tag| < MAX64 && |tag'| < MAX64 && |content| < MAX64 && |content'| < MAX64
    requires Hash(h, StatementFields(tag, transcript, content)) == Hash(h, StatementFields(tag', transcript', content'))
    ensures (tag, transcript, content) == (tag', transcript', content') ||
            Collides(h, StatementFields(tag, transcript, content), StatementFields(tag', transcript', content'))
  {
    hide Encode, Collides, Ascii;
    var a, b := StatementFields(tag, transcript, content), StatementFields(tag', transcript', content');
    SameDigest(h, a, b);
    if a == b { assert a[1] == b[1] && a[2] == b[2] && a[3] == b[3]; }
  }

  // ---- The auxiliary verifier, with its own copies of the encodings ----

  datatype Policy = Policy(engineTags: seq<seq<byte>>, statementTags: seq<seq<byte>>, maxDuration: u64)

  function CheckSessionHead(c: SessionContext): seq<Field> {
    [Domain(Ascii("tls-attestation/session-context/v1")), Fixed(c.sessionId), Fixed(c.proverId), Fixed(c.coordinatorId),
     Num(c.epoch), Num(c.createdAt), Num(c.expiresAt), Fixed(c.nonce),
     Num(AsU64(c.quorum.threshold)), Num(AsU64(|c.quorum.verifiers|))]
  }

  function CheckSessionFields(c: SessionContext): seq<Field> {
    CheckSessionHead(c) + IdFields(c.quorum.verifiers)
  }

  function CheckTranscriptFields(p: Package): seq<Field> {
    [Domain(Ascii("tls-attestation/session-transcript/v1")), Fixed(p.context.sessionId),
     Fixed(p.transcript.query.digest), Fixed(p.transcript.response.digest)]
  }

  function CheckEvidenceFields(p: Package): seq<Field> {
    [Domain(Ascii("tls-attestation/evidence/v1")), Var(p.evidence.engineTag), Var(p.evidence.bytes)]
  }

  predicate Expired(c: SessionContext, now: u64) {
    now > c.expiresAt
  }

  function Duration(c: SessionContext): nat {
    if c.expiresAt >= c.createdAt then c.expiresAt - c.createdAt else 0
  }

  predicate TagsAllowed(policy: Policy, p: Package, s: StatementPayload) {
    && p.evidence.engineTag in policy.engineTags
    && (policy.statementTags == [] || s.derivationTag in policy.statementTags)
  }

  /** The nine checks, in order; `None` approves, `Some` names the first failing check. */
  function Check(h: HashFn, policy: Policy, p: Package, s: StatementPayload, now: u64): Option<nat> {
    if Expired(p.context, now) then Some(1)
    else if p.context.digest != Hash(h, CheckSessionFields(p.context)) then Some(2)
    else if s.digest != Hash(h, StatementFields(s.derivationTag, p.transcript.session, s.content)) then Some(3)
    else if p.digest != PackageDigest(h, p.context, p.randomness, p.transcript, p.evidence) then Some(4)
    else if p.evidence.engineTag !in policy.engineTags then Some(5)
    else if policy.statementTags != [] && s.derivationTag !in policy.statementTags then Some(6)
    else if Duration(p.context) > policy.maxDuration then Some(7)
    else if p.transcript.session != Hash(h, CheckTranscriptFields(p)) then Some(8)
    else if p.evidence.digest != Hash(h, CheckEvidenceFields(p)) then Some(9)
    else None
  }

  /** What check `k` asks for. */
  ghost predicate Passes(h: HashFn, policy: Policy, p: Package, s: StatementPayload, now: u64, k: nat) {
    match k
    case 1 => now <= p.context.expiresAt
    case 2 => p.context.digest == Hash(h, CheckSessionFields(p.context))
    case 3 => s.digest == Hash(h, StatementFields(s.derivationTag, p.transcript.session, s.content))
    case 4 =>
      p.digest == Hash(h, PackageFields(p.context.digest, p.randomness, p.transcript.session, p.evidence.digest))
    case 5 => p.evidence.engineTag in policy.engineTags
    case 6 => policy.statementTags == [] || s.derivationTag in policy.statementTags
    case 7 => p.context.expiresAt <= p.context.createdAt + policy.maxDuration
    case 8 =>
      p.transcript.session ==
      Hash(h, TranscriptFields(p.context.sessionId, p.transcript.query.digest, p.transcript.response.digest))
    case 9 => p.evidence == NewEvidence(h, p.evidence.engineTag, p.evidence.bytes)
    case _ => true
  }

  /** A package is approved exactly when it passes all nine checks, and a refusal names the first it fails. */
  lemma {:induction false} CheckNamesFirst(h: HashFn, policy: Policy, p: Package, s: StatementPayload, now: u64)
    ensures Check(h, policy, p, s, now).None? <==> forall k :: 1 <= k <= 9 ==> Passes(h, policy, p, s, now, k)
    ensures forall k :: Check(h, policy, p, s, now) == Some(k) <==>
              && 1 <= k <= 9 && !Passes(h, policy, p, s, now, k)
              && forall j :: 1 <= j < k ==> Passes(h, policy, p, s, now, j)
  {
    hide Hash, Ascii, IdFields, CheckSessionFields;
    assert CheckTranscriptFields(p) ==
           TranscriptFields(p.context.sessionId, p.transcript.query.digest, p.transcript.response.digest);
    var passes := k => Passes(h, policy, p, s, now, k);
    assert (forall k :: 1 <= k <= 9 ==> passes(k)) <==>
           && passes(1) && passes(2) && passes(3) && passes(4) && passes(5) && passes(6) && passes(7) && passes(8)
           && passes(9);
  }

  /** What the coordinator builds from one request. */
  datatype Request = Request(
    sid: SessionId, prover: ProverId, coord: VerifierId, quorum: QuorumSpec, epoch: u64, created: u64, expires: u64,
    nonce: Nonce, rand: Digest, query: seq<byte>, response: seq<byte>, engineTag: seq<byte>, evidence: seq<byte>,
    content: seq<byte>, tag: seq<byte>)

  function HonestPackage(h: HashFn, r: Request): Package {
    var c := NewContext(h, r.sid, r.prover, r.coord, r.quorum, r.epoch, r.created, r.expires, r.nonce);
    var t := BuildTranscript(h, r.sid, r.rand, r.query, r.response);
    BuildPackage(h, c, r.rand, t, NewEvidence(h, r.engineTag, r.evidence))
  }

  function HonestStatement(h: HashFn, r: Request): StatementPayload {
    NewStatement(h, r.content, r.tag, HonestPackage(h, r).transcript.session)
  }

  /** An honest package is approved exactly on freshness and policy: no digest check can refuse it. */
  lemma {:induction false} HonestApproved(h: HashFn, policy: Policy, r: Request, now: u64)
    ensures var p, s := HonestPackage(h, r), HonestStatement(h, r);
            var end := ClampExpiry(r.created, r.expires);
            Check(h, policy, p, s, now).None? <==>
              now <= end && TagsAllowed(policy, p, s) && end - r.created <= policy.maxDuration
  {
    hide Hash, Ascii, IdFields;
    var p, s := HonestPackage(h, r), HonestStatement(h, r);
    assert CheckSessionFields(p.context) ==
           SessionFields(r.sid, r.prover, r.coord, r.quorum, r.epoch, r.created, p.context.expiresAt, r.nonce);
  }

  // ---- The envelope ----

  datatype RandomnessBinding = RandomnessBinding(id: RandomnessId, value: Digest, epoch: u64, sessionBinding: Digest)

  datatype CoordinatorEvidence = CoordinatorEvidence(
    engineTag: seq<byte>, evidenceDigest: Digest, packageDigest: Digest)

  /** Everything the envelope digest covers. */
  datatype Body = Body(
    context: SessionContext, randomness: RandomnessBinding, transcript: TranscriptCommitments,
    statement: StatementPayload, evidence: CoordinatorEvidence)

  function HeadFields(c: SessionContext): seq<Field> {
    [Domain(Ascii("tls-attestation/envelope/v1")), Fixed(c.sessionId), Fixed(c.proverId), Fixed(c.coordinatorId),
     Num(c.epoch), Num(c.createdAt), Num(c.expiresAt), Fixed(c.nonce),
     Num(AsU64(c.quorum.threshold)), Num(AsU64(|c.quorum.verifiers|))]
  }

  function TailFields(b: Body): seq<Field> {
    [Fixed(b.randomness.id), Fixed(b.randomness.value), Num(b.randomness.epoch), Fixed(b.randomness.sessionBinding),
     Fixed(b.transcript.query.digest), Fixed(b.transcript.response.digest), Fixed(b.transcript.session),
     Var(b.statement.derivationTag), Fixed(b.statement.digest),
     Var(b.evidence.engineTag), Fixed(b.evidence.evidenceDigest), Fixed(b.evidence.packageDigest)]
  }

  function EnvelopeFields(b: Body): seq<Field> {
    HeadFields(b.context) + IdFields(b.context.quorum.verifiers) + TailFields(b)
  }

  /** The builder calls of `compute_digest`, in order, the verifier list in a loop. */
  method ComputeDigest(h: HashFn, b: Body) returns (d: Digest)
    ensures d == Hash(h, EnvelopeFields(b))
  {
    hide Encode, Hash, HeadFields, TailFields;
    var c, ids := b.context, b.context.quorum.verifiers;
    var hasher := StartHead(c);
    for i := 0 to |ids|
      invariant fresh(hasher) && hasher.Valid() && hasher.fields == HeadFields(c) + IdFields(ids[..i])
    {
      hasher.UpdateFixed(ids[i]);
      assert IdFields(ids[..i + 1]) == IdFields(ids[..i]) + [Fixed(ids[i])];
    }
    assert ids[..|ids|] == ids;
    UpdateTail(hasher, b);
    d := hasher.Finalize(h);
  }

  method StartHead(c: SessionContext) returns (hasher: CanonicalHasher)
    ensures fresh(hasher) && hasher.Valid() && hasher.fields == HeadFields(c)
  {
    hide Encode, Ascii;
    hasher := new CanonicalHasher(Ascii("tls-attestation/envelope/v1"));
    hasher.UpdateFixed(c.sessionId);
    hasher.UpdateFixed(c.proverId);
    hasher.UpdateFixed(c.coordinatorId);
    hasher.UpdateU64(c.epoch);
    hasher.UpdateU64(c.createdAt);
    hasher.UpdateU64(c.expiresAt);
    hasher.UpdateFixed(c.nonce);
    hasher.UpdateU64(AsU64(c.quorum.threshold));
    hasher.UpdateU64(AsU64(|c.quorum.verifiers|));
  }

  method UpdateTail(hasher: CanonicalHasher, b: Body)
    requires hasher.Valid()
    modifies hasher
    ensures hasher.Valid() && hasher.fields == old(hasher.fields) + TailFields(b)
  {
    hide Encode;
    hasher.UpdateFixed(b.randomness.id);
    hasher.UpdateFixed(b.randomness.value);
    hasher.UpdateU64(b.randomness.epoch);
    hasher.UpdateFixed(b.randomness.sessionBinding);
    hasher.UpdateFixed(b.transcript.query.digest);
    hasher.UpdateFixed(b.transcript.response.digest);
    hasher.UpdateFixed(b.transcript.session);
    hasher.UpdateBytes(b.statement.derivationTag);
    hasher.UpdateFixed(b.statement.digest);
    hasher.UpdateBytes(b.evidence.engineTag);
    hasher.UpdateFixed(b.evidence.evidenceDigest);
    hasher.UpdateFixed(b.evidence.packageDigest);
  }

  datatype Envelope = Envelope(body: Body, approval: T.Approval, digest: Digest)

  method Assemble(h: HashFn, b: Body, approval: T.Approval) returns (e: Envelope)
    ensures e == Envelope(b, approval, Hash(h, EnvelopeFields(b)))
  {
    var d := ComputeDigest(h, b);
    e := Envelope(b, approval, d);
  }

  method VerifyDigest(h: HashFn, e: Envelope) returns (ok: bool)
    ensures ok <==> e.digest == Hash(h, EnvelopeFields(e.body))
  {
    var d := ComputeDigest(h, e.body);
    ok := d == e.digest;
  }

  ghost predicate SizedBody(b: Body) {
    && b.context.quorum.threshold < MAX64 && |b.context.quorum.verifiers| < MAX64
    && |b.statement.derivationTag| < MAX64 && |b.evidence.engineTag| < MAX64
  }

  /** The two transcripts agree on every digest. */
  ghost predicate SameDigests(a: TranscriptCommitments, b: TranscriptCommitments) {
    a.query.digest == b.query.digest && a.response.digest == b.response.digest && a.session == b.session
  }

  /** The two bodies agree on every hashed field. */
  ghost predicate SameBody(a: Body, b: Body) {
    && a.context.(digest := b.context.digest) == b.context
    && a.randomness == b.randomness && SameDigests(a.transcript, b.transcript) && a.evidence == b.evidence
    && a.statement.derivationTag == b.statement.derivationTag && a.statement.digest == b.statement.digest
  }

  lemma {:induction false} HeadBinds(c: SessionContext, d: SessionContext)
    requires HeadFields(c) == HeadFields(d)
    requires c.quorum.threshold < MAX64 && |c.quorum.verifiers| < MAX64
    requires d.quorum.threshold < MAX64 && |d.quorum.verifiers| < MAX64
    ensures c.sessionId == d.sessionId && c.proverId == d.proverId && c.coordinatorId == d.coordinatorId
    ensures c.epoch == d.epoch && c.createdAt == d.createdAt && c.expiresAt == d.expiresAt && c.nonce == d.nonce
    ensures c.quorum.threshold == d.quorum.threshold && |c.quorum.verifiers| == |d.quorum.verifiers|
  {
    hide Ascii;
    var x, y := HeadFields(c), HeadFields(d);
    assert x[1] == y[1] && x[2] == y[2] && x[3] == y[3] && x[4] == y[4] && x[5] == y[5];
    assert x[6] == y[6] && x[7] == y[7] && x[8] == y[8] && x[9] == y[9];
  }

  lemma {:induction false} TailBinds(a: Body, b: Body)
    requires TailFields(a) == TailFields(b)
    ensures a.randomness == b.randomness && SameDigests(a.transcript, b.transcript) && a.evidence == b.evidence
    ensures a.statement.derivationTag == b.statement.derivationTag && a.statement.digest == b.statement.digest
  {
    var x, y := TailFields(a), TailFields(b);
    assert x[0] == y[0] && x[1] == y[1] && x[2] == y[2] && x[3] == y[3] && x[4] == y[4] && x[5] == y[5];
    assert x[6] == y[6] && x[7] == y[7] && x[8] == y[8] && x[9] == y[9] && x[10] == y[10] && x[11] == y[11];
  }

  lemma {:induction false} HeadShape(c: SessionContext, d: SessionContext)
    ensures SameShape(HeadFields(c), HeadFields(d))
  {
  }

  lemma {:induction false} TailShape(a: Body, b: Body)
    requires SizedBody(a) && SizedBody(b)
    ensures SameShape(TailFields(a), TailFields(b))
  {
  }

  lemma {:induction false} EnvelopeEncoding(b: Body)
    ensures Encode(EnvelopeFields(b)) ==
            Encode(HeadFields(b.context)) + (Encode(IdFields(b.context.quorum.verifiers)) + Encode(TailFields(b)))
  {
    hide HeadFields, IdFields, TailFields, Encode;
    var x, y, z := HeadFields(b.context), IdFields(b.context.quorum.verifiers), TailFields(b);
    EncodeConcat(x + y, z);
    EncodeConcat(x, y);
  }

  /** The envelope encoding determines every hashed field, the variable-length verifier list included. */
  lemma {:induction false} EnvelopeInjective(a: Body, b: Body)
    requires SizedBody(a) && SizedBody(b)
    requires Encode(EnvelopeFields(a)) == Encode(EnvelopeFields(b))
    ensures SameBody(a, b)
  {
    hide HeadFields, TailFields, EnvelopeFields, Encode, SameShape;
    var x, y := a.context.quorum.verifiers, b.context.quorum.verifiers;
    var i, j, s, t := IdFields(x), IdFields(y), Encode(TailFields(a)), Encode(TailFields(b));
    EnvelopeEncoding(a);
    EnvelopeEncoding(b);
    HeadShape(a.context, b.context);
    EncodeInjective(HeadFields(a.context), HeadFields(b.context), Encode(i) + s, Encode(j) + t);
    HeadBinds(a.context, b.context);
    IdShape(x, y);
    EncodeInjective(i, j, s, t);
    SameIds(x, y);
    TailShape(a, b);
    assert s + [] == t + [];
    EncodeInjective(TailFields(a), TailFields(b), [], []);
    TailBinds(a, b);
  }

  lemma {:induction false} IdShape(x: seq<VerifierId>, y: seq<VerifierId>)
    requires |x| == |y|
    ensures SameShape(IdFields(x), IdFields(y))
  {
  }

  lemma {:induction false} SameIds(x: seq<VerifierId>, y: seq<VerifierId>)
    requires IdFields(x) == IdFields(y)
    ensures x == y
  {
    forall i | 0 <= i < |x| ensures x[i] == y[i] {
      assert IdFields(x)[i] == IdFields(y)[i];
    }
  }

  /** Equal envelope digests mean equal hashed fields, or these two encodings collide. */
  lemma {:induction false} EnvelopeAgreement(h: HashFn, a: Body, b: Body)
    requires SizedBody(a) && SizedBody(b)
    requires Hash(h, EnvelopeFields(a)) == Hash(h, EnvelopeFields(b))
    ensures SameBody(a, b) || Collides(h, EnvelopeFields(a), EnvelopeFields(b))
  {
    hide EnvelopeFields, Encode, SameBody;
    if Encode(EnvelopeFields(a)) == Encode(EnvelopeFields(b)) {
      EnvelopeInjective(a, b);
    }
  }

  /** The body the coordinator assembles from a package and a statement. */
  function BodyOf(p: Package, s: StatementPayload, r: RandomnessBinding): Body {
    var evidence := CoordinatorEvidence(p.evidence.engineTag, p.evidence.digest, p.digest);
    Body(p.context, r.(value := p.randomness), p.transcript, s, evidence)
  }

  /** The three preimages behind a checked envelope. */
  function CheckedPreimages(p: Package, s: StatementPayload, r: RandomnessBinding): (ps: seq<seq<Field>>)
    ensures |ps| == 3
  {
    [EnvelopeFields(BodyOf(p, s, r)), StatementFields(s.derivationTag, p.transcript.session, s.content),
     CheckEvidenceFields(p)]
  }

  // ---- The roles are outside every digest ----

  ghost predicate SameRoles(p: Package, q: Package) {
    p.transcript.query.role == q.transcript.query.role && p.transcript.response.role == q.transcript.response.role
  }

  /** `p` with the roles of its two commitments replaced. */
  function WithRoles(p: Package, query: seq<byte>, response: seq<byte>): Package {
    var t := p.transcript;
    p.(transcript := t.(query := t.query.(role := query), response := t.response.(role := response)))
  }

  /** The two packages differ in nothing but roles. */
  ghost predicate SameUpToRoles(p: Package, q: Package) {
    WithRoles(p, q.transcript.query.role, q.transcript.response.role) == q
  }

  /** No check and no digest depends on the roles: replacing them changes neither verdict nor envelope. */
  lemma {:induction false} RolesUnchecked(h: HashFn, pol: Policy, p: Package, s: StatementPayload, r: RandomnessBinding,
                                          now: u64, query: seq<byte>, response: seq<byte>)
    ensures var q := WithRoles(p, query, response);
            && Check(h, pol, q, s, now) == Check(h, pol, p, s, now) && q.digest == p.digest
            && Hash(h, EnvelopeFields(BodyOf(q, s, r))) == Hash(h, EnvelopeFields(BodyOf(p, s, r)))
            && (q == p <==> query == p.transcript.query.role && response == p.transcript.response.role)
  {
    hide Hash, Ascii, IdFields;
    var q := WithRoles(p, query, response);
    assert CheckTranscriptFields(q) == CheckTranscriptFields(p) && CheckEvidenceFields(q) == CheckEvidenceFields(p);
    assert TailFields(BodyOf(q, s, r)) == TailFields(BodyOf(p, s, r));
  }

  /**
   * An honest package whose query role was replaced is approved like the original under the same digest,
   * yet its query commitment no longer verifies for the query, unless this pair of preimages collides.
   */
  lemma {:induction false} TamperedRole(h: HashFn, pol: Policy, r: Request, now: u64, role: seq<byte>)
    requires role != QUERY && |RoleDomain(role)| < 0x1_0000_0000
    ensures var p, s := HonestPackage(h, r), HonestStatement(h, r);
            var q := WithRoles(p, role, RESPONSE);
            && q != p && q.digest == p.digest && Check(h, pol, q, s, now) == Check(h, pol, p, s, now)
            && VerifyCommitment(h, p.transcript.query, r.sid, r.rand, r.query)
            && (VerifyCommitment(h, q.transcript.query, r.sid, r.rand, r.query) ==>
                  Collides(h, CommitmentFields(QUERY, r.sid, r.rand, r.query),
                           CommitmentFields(role, r.sid, r.rand, r.query)))
  {
    hide Hash, Ascii, Check, EnvelopeFields, Encode;
    var p, s := HonestPackage(h, r), HonestStatement(h, r);
    RolesUnchecked(h, pol, p, s, RandomnessBinding(Zeros(16), r.rand, 0, r.rand), now, role, RESPONSE);
    RoleDomains(QUERY, role);
    var rest := [Fixed(r.sid), Fixed(r.rand), Var(r.query)];
    DomainsSeparate(RoleDomain(QUERY), RoleDomain(role), rest, rest);
    assert CommitmentFields(QUERY, r.sid, r.rand, r.query) == [Domain(RoleDomain(QUERY))] + rest;
    assert CommitmentFields(role, r.sid, r.rand, r.query) == [Domain(RoleDomain(role))] + rest;
    HashIs(h, CommitmentFields(QUERY, r.sid, r.rand, r.query));
    HashIs(h, CommitmentFields(role, r.sid, r.rand, r.query));
  }

  lemma {:induction false} HashIs(h: HashFn, fields: seq<Field>)
    ensures Hash(h, fields) == h(Encode(fields))
  {
  }

  lemma {:induction false} RoleDomains(a: seq<byte>, b: seq<byte>)
    ensures a != b ==> RoleDomain(a) != RoleDomain(b)
    ensures |RoleDomain(a)| == |a| + 30
  {
    var x, n := RoleDomain(a), |"tls-attestation/transcript/"|;
    assert x[n..n + |a|] == a;
    var y := RoleDomain(b);
    assert y[n..n + |b|] == b;
  }

  /**
   * If verifiers approved both packages, equal envelope digests also fix what the digest only commits
   * to indirectly: the statement content, the evidence bytes and the session digest. Everything but the
   * roles agrees, so the packages are equal exactly when the roles are.
   */
  lemma {:induction false} CheckedEnvelopesAgree(h: HashFn, pol: Policy, p: Package, s: StatementPayload,
                                                 r: RandomnessBinding, now: u64, pol': Policy, p': Package,
                                                 s': StatementPayload, r': RandomnessBinding, now': u64)
    requires Check(h, pol, p, s, now).None? && Check(h, pol', p', s', now').None?
    requires SizedBody(BodyOf(p, s, r)) && SizedBody(BodyOf(p', s', r'))
    requires |s.content| < MAX64 && |s'.content| < MAX64 && |p.evidence.bytes| < MAX64 && |p'.evidence.bytes| < MAX64
    requires Hash(h, EnvelopeFields(BodyOf(p, s, r))) == Hash(h, EnvelopeFields(BodyOf(p', s', r')))
    ensures (SameUpToRoles(p, p') && s == s' && (p == p' <==> SameRoles(p, p'))) ||
            exists k :: 0 <= k < 3 && Collides(h, CheckedPreimages(p, s, r)[k], CheckedPreimages(p', s', r')[k])
  {
    hide EnvelopeFields, Encode, Hash, Collides, Ascii, IdFields;
    var x, y := CheckedPreimages(p, s, r), CheckedPreimages(p', s', r');
    if forall k :: 0 <= k < 3 ==> !Collides(h, x[k], y[k]) {
      assert !Collides(h, x[0], y[0]) && !Collides(h, x[1], y[1]) && !Collides(h, x[2], y[2]);
      EnvelopeAgreement(h, BodyOf(p, s, r), BodyOf(p', s', r'));
      assert p.context == p'.context by {
        assert CheckSessionFields(p.context) == CheckSessionFields(p'.context);
      }
      SameDigest(h, x[1], y[1]);
      assert x[1][3] == y[1][3];
      SameDigest(h, x[2], y[2]);
      assert x[2][2] == y[2][2];
    }
  }

  // ---- What a checked package digest fixes ----

  ghost predicate SizedPackage(p: Package) {
    && p.context.quorum.threshold < MAX64 && |p.context.quorum.verifiers| < MAX64
    && |p.evidence.engineTag| < MAX64 && |p.evidence.bytes| < MAX64
  }

  /** The four preimages behind a checked package. */
  function PackagePreimages(p: Package): (ps: seq<seq<Field>>)
    ensures |ps| == 4
  {
    [PackageFields(p.context.digest, p.randomness, p.transcript.session, p.evidence.digest),
     CheckSessionFields(p.context), CheckTranscriptFields(p), CheckEvidenceFields(p)]
  }

  lemma {:induction false} SessionHeadShape(c: SessionContext, d: SessionContext)
    ensures SameShape(CheckSessionHead(c), CheckSessionHead(d))
  {
  }

  lemma {:induction false} SessionHeadBinds(c: SessionContext, d: SessionContext)
    requires c.quorum.threshold < MAX64 && |c.quorum.verifiers| < MAX64
    requires d.quorum.threshold < MAX64 && |d.quorum.verifiers| < MAX64
    requires CheckSessionHead(c) == CheckSessionHead(d)
    ensures c.(quorum := d.quorum, digest := d.digest) == d
    ensures c.quorum.threshold == d.quorum.threshold && |c.quorum.verifiers| == |d.quorum.verifiers|
  {
    hide Ascii;
    var x, y := CheckSessionHead(c), CheckSessionHead(d);
    assert x[1] == y[1] && x[2] == y[2] && x[3] == y[3] && x[4] == y[4] && x[5] == y[5];
    assert x[6] == y[6] && x[7] == y[7] && x[8] == y[8] && x[9] == y[9];
  }

  lemma {:induction false} SessionSplit(c: SessionContext)
    ensures Encode(CheckSessionFields(c)) == Encode(CheckSessionHead(c)) + Encode(IdFields(c.quorum.verifiers))
  {
    EncodeConcat(CheckSessionHead(c), IdFields(c.quorum.verifiers));
  }

  /** The session encoding determines the whole context, the verifier list included. */
  lemma {:induction false} SessionInjective(c: SessionContext, d: SessionContext)
    requires c.quorum.threshold < MAX64 && |c.quorum.verifiers| < MAX64
    requires d.quorum.threshold < MAX64 && |d.quorum.verifiers| < MAX64
    requires Encode(CheckSessionFields(c)) == Encode(CheckSessionFields(d))
    ensures c.(digest := d.digest) == d
  {
    hide Encode, CheckSessionHead, IdFields, CheckSessionFields, SameShape;
    var x, y := c.quorum.verifiers, d.quorum.verifiers;
    SessionSplit(c);
    SessionSplit(d);
    SessionHeadShape(c, d);
    EncodeInjective(CheckSessionHead(c), CheckSessionHead(d), Encode(IdFields(x)), Encode(IdFields(y)));
    SessionHeadBinds(c, d);
    IdShape(x, y);
    assert Encode(IdFields(x)) + [] == Encode(IdFields(y)) + [];
    EncodeInjective(IdFields(x), IdFields(y), [], []);
    SameIds(x, y);
  }

  lemma {:induction false} SessionDigestBinds(h: HashFn, c: SessionContext, d: SessionContext)
    requires c.quorum.threshold < MAX64 && |c.quorum.verifiers| < MAX64
    requires d.quorum.threshold < MAX64 && |d.quorum.verifiers| < MAX64
    requires Hash(h, CheckSessionFields(c)) == Hash(h, CheckSessionFields(d))
    ensures c.(digest := d.digest) == d || Collides(h, CheckSessionFields(c), CheckSessionFields(d))
  {
    hide CheckSessionFields, Encode;
    if Encode(CheckSessionFields(c)) == Encode(CheckSessionFields(d)) { SessionInjective(c, d); }
  }

  /**
   * The package digest hashes only four digests, but once the checks have passed it fixes everything in the
   * package except the roles: two approved packages with the same digest agree on all else, and are equal
   * exactly when their roles are, or a named pair of preimages collides.
   */
  lemma {:induction false} CheckedPackagesAgree(h: HashFn, pol: Policy, p: Package, s: StatementPayload, now: u64,
                                                pol': Policy, p': Package, s': StatementPayload, now': u64)
    requires Check(h, pol, p, s, now).None? && Check(h, pol', p', s', now').None? && p.digest == p'.digest
    requires SizedPackage(p) && SizedPackage(p')
    ensures (SameUpToRoles(p, p') && (p == p' <==> SameRoles(p, p'))) ||
            exists k :: 0 <= k < 4 && Collides(h, PackagePreimages(p)[k], PackagePreimages(p')[k])
  {
    hide Encode, Hash, Collides, Ascii, CheckSessionFields;
    var x, y := PackagePreimages(p), PackagePreimages(p');
    if forall k :: 0 <= k < 4 ==> !Collides(h, x[k], y[k]) {
      assert !Collides(h, x[0], y[0]) && !Collides(h, x[1], y[1]) && !Collides(h, x[2], y[2]) &&
             !Collides(h, x[3], y[3]);
      SameDigest(h, x[0], y[0]);
      assert x[0][1] == y[0][1] && x[0][2] == y[0][2] && x[0][3] == y[0][3] && x[0][4] == y[0][4];
      SessionDigestBinds(h, p.context, p'.context);
      SameDigest(h, x[2], y[2]);
      assert x[2][2] == y[2][2] && x[2][3] == y[2][3];
      SameDigest(h, x[3], y[3]);
      assert x[3][1] == y[3][1] && x[3][2] == y[3][2];
    }
  }
}
