/** The dx-DCTLS proof chain: handshake, query and statement proofs, their verifiers, and what acceptance binds. */
module Dctls {
  import opened Bytes
  import opened Wrappers
  import opened Ids
  import opened Canonical

  type u16 = x: nat | x < 0x1_0000

  const DCTLS_ENGINE_TAG: seq<byte> := Ascii("dx-dctls/commitment-v1")
  const HSP_PROOF_MAX_AGE_SECS: nat := 24 * 3600

  datatype DctlsError =
    | RandMismatch
    | CertHashMismatch
    | CommitmentMismatch(which: string)
    | ProofBindingMismatch(which: string)

  datatype SessionParams = SessionParams(
    exporter: Digest, certHash: Digest, tlsVersion: u16, serverName: seq<byte>, establishedAt: u64)

  datatype HspProof = HspProof(
    sessionId: SessionId, rand: Digest, exporter: Digest, commitment: Digest, certHash: Digest,
    handshakeHash: Digest, tlsVersion: u16, serverName: seq<byte>, establishedAt: u64,
    engineTag: seq<byte>, zkProof: Option<seq<byte>>, zkBinding: Option<Digest>)

  datatype QueryRecord = QueryRecord(
    sessionId: SessionId, rand: Digest, queryCommitment: Digest, responseCommitment: Digest, transcript: Digest)

  datatype Statement = Statement(content: seq<byte>, derivationTag: seq<byte>, digest: Digest)

  datatype PgpProof = PgpProof(
    sessionId: SessionId, statement: Statement, commitment: Digest, hspDigest: Digest, transcript: Digest)

  datatype TranscriptBinding = TranscriptBinding(
    sessionId: SessionId, rand: Digest, hspCommitment: Digest, transcript: Digest, pgpCommitment: Digest,
    digest: Digest)

  datatype Evidence = Evidence(hsp: HspProof, query: QueryRecord, pgp: PgpProof)

  // ---- The hashed field lists ----

  function HandshakeFields(cert: Digest, version: u16, name: seq<byte>, time: u64): seq<Field> {
    [Domain(Ascii("tls-attestation/hsp-ht/v1")), Fixed(cert), Num(version), Var(name), Num(time)]
  }

  function HspFields(sid: SessionId, rand: Digest, exporter: Digest, cert: Digest, handshake: Digest): seq<Field> {
    [Domain(Ascii("tls-attestation/hsp/v1")), Fixed(sid), Fixed(rand), Fixed(exporter), Fixed(cert), Fixed(handshake)]
  }

  function HspDigestFields(p: HspProof): seq<Field> {
    [Domain(Ascii("tls-attestation/hsp-proof/v1")), Fixed(p.sessionId), Fixed(p.rand), Fixed(p.commitment),
     Fixed(p.certHash), Fixed(p.handshakeHash)]
  }

  function QueryFields(sid: SessionId, rand: Digest, query: seq<byte>): seq<Field> {
    [Domain(Ascii("tls-attestation/query-commitment/v1")), Fixed(sid), Fixed(rand), Var(query)]
  }

  function ResponseFields(sid: SessionId, rand: Digest, response: seq<byte>): seq<Field> {
    [Domain(Ascii("tls-attestation/response-commitment/v1")), Fixed(sid), Fixed(rand), Var(response)]
  }

  function TranscriptFields(query: Digest, response: Digest): seq<Field> {
    [Domain(Ascii("tls-attestation/qp-transcript/v1")), Fixed(query), Fixed(response)]
  }

  function StatementFields(tag: seq<byte>, transcript: Digest, content: seq<byte>): seq<Field> {
    [Domain(Ascii("tls-attestation/pgp-statement/v1")), Var(tag), Fixed(transcript), Var(content)]
  }

  function PgpFields(sid: SessionId, rand: Digest, transcript: Digest, statement: Digest, hsp: Digest): seq<Field> {
    [Domain(Ascii("tls-attestation/pgp/v1")), Fixed(sid), Fixed(rand), Fixed(transcript), Fixed(statement), Fixed(hsp)]
  }

  function BindingFields(sid: SessionId, rand: Digest, hsp: Digest, transcript: Digest, pgp: Digest): seq<Field> {
    [Domain(Ascii("tls-attestation/transcript-binding/v1")), Fixed(sid), Fixed(rand), Fixed(hsp), Fixed(transcript),
     Fixed(pgp)]
  }

  // ---- Generation ----

  function GenerateHsp(h: HashFn, sid: SessionId, rand: Digest, sp: SessionParams): HspProof {
    var handshake := Hash(h, HandshakeFields(sp.certHash, sp.tlsVersion, sp.serverName, sp.establishedAt));
    var commitment := Hash(h, HspFields(sid, rand, sp.exporter, sp.certHash, handshake));
    HspProof(sid, rand, sp.exporter, commitment, sp.certHash, handshake, sp.tlsVersion, sp.serverName,
             sp.establishedAt, DCTLS_ENGINE_TAG, None, None)
  }

  function BuildRecord(h: HashFn, sid: SessionId, rand: Digest, query: seq<byte>, response: seq<byte>): QueryRecord {
    var q, r := Hash(h, QueryFields(sid, rand, query)), Hash(h, ResponseFields(sid, rand, response));
    QueryRecord(sid, rand, q, r, Hash(h, TranscriptFields(q, r)))
  }

  function DeriveStatement(h: HashFn, content: seq<byte>, tag: seq<byte>, transcript: Digest): Statement {
    Statement(content, tag, Hash(h, StatementFields(tag, transcript, content)))
  }

  function GeneratePgp(h: HashFn, sid: SessionId, rand: Digest, q: QueryRecord, s: Statement, p: HspProof): PgpProof {
    PgpProof(sid, s, Hash(h, PgpFields(sid, rand, q.transcript, s.digest, p.commitment)),
             Hash(h, HspDigestFields(p)), q.transcript)
  }

  // ---- Verification ----

  predicate Stale(establishedAt: u64, now: u64) {
    establishedAt > 0 && now > establishedAt && now - establishedAt > HSP_PROOF_MAX_AGE_SECS
  }

  function VerifyHsp(h: HashFn, p: HspProof, rand: Digest, cert: Digest, now: u64): Result<(), DctlsError> {
    if p.engineTag != DCTLS_ENGINE_TAG then Err(CommitmentMismatch("engine_tag"))
    else if p.rand != rand then Err(RandMismatch)
    else if p.certHash != cert then Err(CertHashMismatch)
    else if p.zkProof.Some? then Err(CommitmentMismatch("zk_proof"))
    else if Stale(p.establishedAt, now) then Err(CommitmentMismatch("expired"))
    else if p.handshakeHash != Hash(h, HandshakeFields(p.certHash, p.tlsVersion, p.serverName, p.establishedAt)) then
      Err(CommitmentMismatch("handshake_transcript_hash"))
    else if p.commitment != Hash(h, HspFields(p.sessionId, p.rand, p.exporter, p.certHash, p.handshakeHash)) then
      Err(CommitmentMismatch("HSP commitment"))
    else Ok(())
  }

  function VerifyRecord(h: HashFn, r: QueryRecord, query: seq<byte>, response: seq<byte>): Result<(), DctlsError> {
    if r.queryCommitment != Hash(h, QueryFields(r.sessionId, r.rand, query)) then
      Err(CommitmentMismatch("query commitment"))
    else if r.responseCommitment != Hash(h, ResponseFields(r.sessionId, r.rand, response)) then
      Err(CommitmentMismatch("response commitment"))
    else if r.transcript != Hash(h, TranscriptFields(r.queryCommitment, r.responseCommitment)) then
      Err(CommitmentMismatch("QP transcript commitment"))
    else Ok(())
  }

  function VerifyPgp(h: HashFn, p: PgpProof, rand: Digest, hsp: HspProof): Result<(), DctlsError> {
    if p.commitment != Hash(h, PgpFields(p.sessionId, rand, p.transcript, p.statement.digest, hsp.commitment)) then
      Err(CommitmentMismatch("PGP commitment"))
    else if p.hspDigest != Hash(h, HspDigestFields(hsp)) then Err(ProofBindingMismatch("HSP proof digest"))
    else if p.statement != DeriveStatement(h, p.statement.content, p.statement.derivationTag, p.transcript) then
      Err(CommitmentMismatch("statement digest"))
    else Ok(())
  }

  function VerifyConsistency(h: HashFn, hsp: HspProof, q: QueryRecord, pgp: PgpProof): Result<TranscriptBinding,
      DctlsError> {
    if hsp.sessionId != q.sessionId then Err(ProofBindingMismatch("QP session_id"))
    else if hsp.sessionId != pgp.sessionId then Err(ProofBindingMismatch("PGP session_id"))
    else if hsp.rand != q.rand then Err(RandMismatch)
    else if pgp.transcript != q.transcript then Err(ProofBindingMismatch("QP transcript"))
    else if pgp.hspDigest != Hash(h, HspDigestFields(hsp)) then Err(ProofBindingMismatch("HSP proof"))
    else
      var digest := Hash(h, BindingFields(hsp.sessionId, hsp.rand, hsp.commitment, q.transcript, pgp.commitment));
      Ok(TranscriptBinding(hsp.sessionId, hsp.rand, hsp.commitment, q.transcript, pgp.commitment, digest))
  }

  /** What a verifier supplies alongside the evidence. */
  datatype Inputs = Inputs(rand: Digest, cert: Digest, query: seq<byte>, response: seq<byte>, now: u64)

  function VerifyAll(h: HashFn, e: Evidence, i: Inputs): Result<TranscriptBinding, DctlsError> {
    var hsp := VerifyHsp(h, e.hsp, i.rand, i.cert, i.now);
    if hsp.Err? then Err(hsp.error) else
    var q := VerifyRecord(h, e.query, i.query, i.response);
    if q.Err? then Err(q.error) else
    var pgp := VerifyPgp(h, e.pgp, i.rand, e.hsp);
    if pgp.Err? then Err(pgp.error) else
    VerifyConsistency(h, e.hsp, e.query, e.pgp)
  }

  // ---- What acceptance binds ----

  /** The eight preimages behind an accepted evidence package, outermost first. */
  function Preimages(e: Evidence, i: Inputs): (ps: seq<seq<Field>>)
    ensures |ps| == 8
  {
    [BindingFields(e.hsp.sessionId, e.hsp.rand, e.hsp.commitment, e.query.transcript, e.pgp.commitment),
     HspFields(e.hsp.sessionId, e.hsp.rand, e.hsp.exporter, e.hsp.certHash, e.hsp.handshakeHash),
     HandshakeFields(e.hsp.certHash, e.hsp.tlsVersion, e.hsp.serverName, e.hsp.establishedAt),
     TranscriptFields(e.query.queryCommitment, e.query.responseCommitment),
     QueryFields(e.query.sessionId, e.query.rand, i.query),
     ResponseFields(e.query.sessionId, e.query.rand, i.response),
     PgpFields(e.pgp.sessionId, i.rand, e.pgp.transcript, e.pgp.statement.digest, e.hsp.commitment),
     StatementFields(e.pgp.statement.derivationTag, e.pgp.transcript, e.pgp.statement.content)]
  }

  /** Lengths a 64-bit prefix can carry. */
  ghost predicate Sized(e: Evidence, i: Inputs) {
    var m := 0x1_0000_0000_0000_0000;
    && |e.hsp.serverName| < m && |i.query| < m && |i.response| < m
    && |e.pgp.statement.content| < m && |e.pgp.statement.derivationTag| < m
  }

  ghost predicate SameSession(e: Evidence, f: Evidence) {
    && e.hsp.sessionId == f.hsp.sessionId && e.hsp.rand == f.hsp.rand && e.hsp.exporter == f.hsp.exporter
    && e.hsp.certHash == f.hsp.certHash && e.hsp.tlsVersion == f.hsp.tlsVersion
    && e.hsp.serverName == f.hsp.serverName && e.hsp.establishedAt == f.hsp.establishedAt
  }

  ghost predicate SameStatement(e: Evidence, f: Evidence) {
    && e.pgp.statement.content == f.pgp.statement.content
    && e.pgp.statement.derivationTag == f.pgp.statement.derivationTag
  }

  /** Some corresponding pair of the eight preimages is a hash collision. */
  ghost predicate PreimageCollision(h: HashFn, e: Evidence, i: Inputs, f: Evidence, j: Inputs) {
    exists k :: 0 <= k < 8 && Collides(h, Preimages(e, i)[k], Preimages(f, j)[k])
  }

  lemma {:induction false} FiveDigests(h: HashFn, tag: seq<byte>, s: SessionId, a: Digest, b: Digest, c: Digest,
                                       d: Digest, s': SessionId, a': Digest, b': Digest, c': Digest, d': Digest)
    requires |tag| < 0x1_0000_0000
    requires var x, y := [Domain(tag), Fixed(s), Fixed(a), Fixed(b), Fixed(c), Fixed(d)],
                         [Domain(tag), Fixed(s'), Fixed(a'), Fixed(b'), Fixed(c'), Fixed(d')];
             Hash(h, x) == Hash(h, y) && !Collides(h, x, y)
    ensures s == s' && a == a' && b == b' && c == c' && d == d'
  {
    hide Hash, Collides, Encode;
    var x, y := [Domain(tag), Fixed(s), Fixed(a), Fixed(b), Fixed(c), Fixed(d)],
                [Domain(tag), Fixed(s'), Fixed(a'), Fixed(b'), Fixed(c'), Fixed(d')];
    SameDigest(h, x, y);
    assert x[1] == y[1] && x[2] == y[2] && x[3] == y[3] && x[4] == y[4] && x[5] == y[5];
  }

  lemma {:induction false} HandshakeBinds(h: HashFn, cert: Digest, v: u16, n: seq<byte>, t: u64, v': u16, n': seq<byte>,
                                          t': u64)
    requires |n| < 0x1_0000_0000_0000_0000 && |n'| < 0x1_0000_0000_0000_0000
    requires Hash(h, HandshakeFields(cert, v, n, t)) == Hash(h, HandshakeFields(cert, v', n', t'))
    requires !Collides(h, HandshakeFields(cert, v, n, t), HandshakeFields(cert, v', n', t'))
    ensures v == v' && n == n' && t == t'
  {
    hide Hash, Collides, Encode, Ascii;
    var x, y := HandshakeFields(cert, v, n, t), HandshakeFields(cert, v', n', t');
    SameDigest(h, x, y);
    assert x[2] == y[2] && x[3] == y[3] && x[4] == y[4];
  }

  lemma {:induction false} TranscriptBinds(h: HashFn, q: Digest, r: Digest, q': Digest, r': Digest)
    requires Hash(h, TranscriptFields(q, r)) == Hash(h, TranscriptFields(q', r'))
    requires !Collides(h, TranscriptFields(q, r), TranscriptFields(q', r'))
    ensures q == q' && r == r'
  {
    hide Hash, Collides, Encode, Ascii;
    var x, y := TranscriptFields(q, r), TranscriptFields(q', r');
    SameDigest(h, x, y);
    assert x[1] == y[1] && x[2] == y[2];
  }

  lemma {:induction false} QueryBinds(h: HashFn, s: SessionId, rand: Digest, q: seq<byte>, q': seq<byte>)
    requires |q| < 0x1_0000_0000_0000_0000 && |q'| < 0x1_0000_0000_0000_0000
    requires Hash(h, QueryFields(s, rand, q)) == Hash(h, QueryFields(s, rand, q'))
    requires !Collides(h, QueryFields(s, rand, q), QueryFields(s, rand, q'))
    ensures q == q'
  {
    hide Hash, Collides, Encode, Ascii;
    var x, y := QueryFields(s, rand, q), QueryFields(s, rand, q');
    SameDigest(h, x, y);
    assert x[3] == y[3];
  }

  lemma {:induction false} ResponseBinds(h: HashFn, s: SessionId, rand: Digest, r: seq<byte>, r': seq<byte>)
    requires |r| < 0x1_0000_0000_0000_0000 && |r'| < 0x1_0000_0000_0000_0000
    requires Hash(h, ResponseFields(s, rand, r)) == Hash(h, ResponseFields(s, rand, r'))
    requires !Collides(h, ResponseFields(s, rand, r), ResponseFields(s, rand, r'))
    ensures r == r'
  {
    hide Hash, Collides, Encode, Ascii;
    var x, y := ResponseFields(s, rand, r), ResponseFields(s, rand, r');
    SameDigest(h, x, y);
    assert x[3] == y[3];
  }

  lemma {:induction false} StatementBinds(h: HashFn, t: seq<byte>, d: Digest, c: seq<byte>, t': seq<byte>,
                                          c': seq<byte>)
    requires |t| < 0x1_0000_0000_0000_0000 && |t'| < 0x1_0000_0000_0000_0000
    requires |c| < 0x1_0000_0000_0000_0000 && |c'| < 0x1_0000_0000_0000_0000
    requires Hash(h, StatementFields(t, d, c)) == Hash(h, StatementFields(t', d, c'))
    requires !Collides(h, StatementFields(t, d, c), StatementFields(t', d, c'))
    ensures t == t' && c == c'
  {
    hide Hash, Collides, Encode, Ascii;
    var x, y := StatementFields(t, d, c), StatementFields(t', d, c');
    SameDigest(h, x, y);
    assert x[1] == y[1] && x[3] == y[3];
  }

  /** The equations acceptance amounts to: on the proofs, between them, and with what the verifier supplies. */
  ghost predicate Accepted(h: HashFn, e: Evidence, i: Inputs) {
    && e.hsp.engineTag == Ascii("dx-dctls/commitment-v1") && e.hsp.zkProof.None?
    && !(0 < e.hsp.establishedAt && i.now > e.hsp.establishedAt + 86400)
    && e.hsp.rand == i.rand && e.hsp.certHash == i.cert
    && e.hsp.sessionId == e.query.sessionId == e.pgp.sessionId && e.query.rand == i.rand
    && e.pgp.transcript == e.query.transcript && e.pgp.hspDigest == Hash(h, HspDigestFields(e.hsp))
    && e.hsp.commitment == Hash(h, Preimages(e, i)[1])
    && e.hsp.handshakeHash == Hash(h, Preimages(e, i)[2])
    && e.query.transcript == Hash(h, Preimages(e, i)[3])
    && e.query.queryCommitment == Hash(h, Preimages(e, i)[4])
    && e.query.responseCommitment == Hash(h, Preimages(e, i)[5])
    && e.pgp.commitment == Hash(h, Preimages(e, i)[6])
    && e.pgp.statement.digest == Hash(h, Preimages(e, i)[7])
  }

  /** Evidence is accepted exactly when all those equations hold; the binding returned names the proofs. */
  lemma {:induction false} AcceptanceMeans(h: HashFn, e: Evidence, i: Inputs)
    ensures VerifyAll(h, e, i).Ok? <==> Accepted(h, e, i)
    ensures VerifyAll(h, e, i).Ok? ==>
              VerifyAll(h, e, i).value ==
              TranscriptBinding(e.hsp.sessionId, e.hsp.rand, e.hsp.commitment, e.query.transcript, e.pgp.commitment,
                                Hash(h, Preimages(e, i)[0]))
  {
    hide Hash, HandshakeFields, HspFields, HspDigestFields, QueryFields, ResponseFields, TranscriptFields,
      StatementFields, PgpFields, BindingFields, Ascii;
  }

  /** The digest of a handshake proof determines what it hashes, or this pair of encodings collides. */
  lemma {:induction false} HspDigestBinds(h: HashFn, p: HspProof, q: HspProof)
    requires Hash(h, HspDigestFields(p)) == Hash(h, HspDigestFields(q))
    ensures Collides(h, HspDigestFields(p), HspDigestFields(q)) ||
            (&& p.sessionId == q.sessionId && p.rand == q.rand && p.commitment == q.commitment
             && p.certHash == q.certHash && p.handshakeHash == q.handshakeHash)
  {
    hide Hash, Collides, Encode;
    if !Collides(h, HspDigestFields(p), HspDigestFields(q)) {
      FiveDigests(h, Ascii("tls-attestation/hsp-proof/v1"),
                  p.sessionId, p.rand, p.commitment, p.certHash, p.handshakeHash,
                  q.sessionId, q.rand, q.commitment, q.certHash, q.handshakeHash);
    }
  }

  /**
   * Two accepted evidence packages with the same binding digest describe the same session,
   * query, response and statement, or one of the eight preimage pairs collides.
   */
  lemma {:induction false} BindingAgreement(h: HashFn, e: Evidence, i: Inputs, f: Evidence, j: Inputs)
    requires Sized(e, i) && Sized(f, j)
    requires VerifyAll(h, e, i).Ok? && VerifyAll(h, f, j).Ok?
    requires VerifyAll(h, e, i).value.digest == VerifyAll(h, f, j).value.digest
    ensures PreimageCollision(h, e, i, f, j) ||
            (SameSession(e, f) && i.query == j.query && i.response == j.response && SameStatement(e, f))
  {
    hide VerifyAll, Collides, Hash, Ascii;
    AcceptanceMeans(h, e, i);
    AcceptanceMeans(h, f, j);
    var x, y := Preimages(e, i), Preimages(f, j);
    if !PreimageCollision(h, e, i, f, j) {
      assert forall k :: 0 <= k < 8 ==> !Collides(h, x[k], y[k]);
      OuterAgreement(h, e, i, f, j);
      InnerAgreement(h, e, i, f, j);
    }
  }

  lemma {:induction false} OuterAgreement(h: HashFn, e: Evidence, i: Inputs, f: Evidence, j: Inputs)
    requires Accepted(h, e, i) && Accepted(h, f, j)
    requires Hash(h, Preimages(e, i)[0]) == Hash(h, Preimages(f, j)[0])
    requires !Collides(h, Preimages(e, i)[0], Preimages(f, j)[0])
    ensures e.hsp.sessionId == f.hsp.sessionId && e.hsp.rand == f.hsp.rand && e.hsp.commitment == f.hsp.commitment
    ensures e.query.transcript == f.query.transcript && e.pgp.commitment == f.pgp.commitment
  {
    hide Hash, Collides, Accepted, Ascii;
    FiveDigests(h, Ascii("tls-attestation/transcript-binding/v1"),
                e.hsp.sessionId, e.hsp.rand, e.hsp.commitment, e.query.transcript, e.pgp.commitment,
                f.hsp.sessionId, f.hsp.rand, f.hsp.commitment, f.query.transcript, f.pgp.commitment);
  }

  lemma {:induction false} InnerAgreement(h: HashFn, e: Evidence, i: Inputs, f: Evidence, j: Inputs)
    requires Sized(e, i) && Sized(f, j) && Accepted(h, e, i) && Accepted(h, f, j)
    requires forall k :: 0 <= k < 8 ==> !Collides(h, Preimages(e, i)[k], Preimages(f, j)[k])
    requires e.hsp.sessionId == f.hsp.sessionId && e.hsp.rand == f.hsp.rand && e.hsp.commitment == f.hsp.commitment
    requires e.query.transcript == f.query.transcript && e.pgp.commitment == f.pgp.commitment
    ensures SameSession(e, f) && i.query == j.query && i.response == j.response && SameStatement(e, f)
  {
    HspAgreement(h, e, i, f, j);
    RecordAgreement(h, e, i, f, j);
    PgpAgreement(h, e, i, f, j);
  }

  lemma {:induction false} HspAgreement(h: HashFn, e: Evidence, i: Inputs, f: Evidence, j: Inputs)
    requires Sized(e, i) && Sized(f, j) && Accepted(h, e, i) && Accepted(h, f, j)
    requires forall k :: 0 <= k < 8 ==> !Collides(h, Preimages(e, i)[k], Preimages(f, j)[k])
    requires e.hsp.sessionId == f.hsp.sessionId && e.hsp.rand == f.hsp.rand && e.hsp.commitment == f.hsp.commitment
    ensures SameSession(e, f)
  {
    hide Hash, Collides, Ascii;
    assert !Collides(h, Preimages(e, i)[1], Preimages(f, j)[1]) && !Collides(h, Preimages(e, i)[2], Preimages(f, j)[2]);
    FiveDigests(h, Ascii("tls-attestation/hsp/v1"),
                e.hsp.sessionId, e.hsp.rand, e.hsp.exporter, e.hsp.certHash, e.hsp.handshakeHash,
                f.hsp.sessionId, f.hsp.rand, f.hsp.exporter, f.hsp.certHash, f.hsp.handshakeHash);
    HandshakeBinds(h, e.hsp.certHash, e.hsp.tlsVersion, e.hsp.serverName, e.hsp.establishedAt,
                   f.hsp.tlsVersion, f.hsp.serverName, f.hsp.establishedAt);
  }

  lemma {:induction false} RecordAgreement(h: HashFn, e: Evidence, i: Inputs, f: Evidence, j: Inputs)
    requires Sized(e, i) && Sized(f, j) && Accepted(h, e, i) && Accepted(h, f, j)
    requires forall k :: 0 <= k < 8 ==> !Collides(h, Preimages(e, i)[k], Preimages(f, j)[k])
    requires e.hsp.sessionId == f.hsp.sessionId && e.hsp.rand == f.hsp.rand && e.query.transcript == f.query.transcript
    ensures i.query == j.query && i.response == j.response
  {
    hide Hash, Collides, Ascii;
    assert !Collides(h, Preimages(e, i)[3], Preimages(f, j)[3]);
    assert !Collides(h, Preimages(e, i)[4], Preimages(f, j)[4]) && !Collides(h, Preimages(e, i)[5], Preimages(f, j)[5]);
    TranscriptBinds(h, e.query.queryCommitment, e.query.responseCommitment, f.query.queryCommitment,
                    f.query.responseCommitment);
    QueryBinds(h, e.query.sessionId, e.query.rand, i.query, j.query);
    ResponseBinds(h, e.query.sessionId, e.query.rand, i.response, j.response);
  }

  lemma {:induction false} PgpAgreement(h: HashFn, e: Evidence, i: Inputs, f: Evidence, j: Inputs)
    requires Sized(e, i) && Sized(f, j) && Accepted(h, e, i) && Accepted(h, f, j)
    requires forall k :: 0 <= k < 8 ==> !Collides(h, Preimages(e, i)[k], Preimages(f, j)[k])
    requires e.query.transcript == f.query.transcript && e.pgp.commitment == f.pgp.commitment
    ensures SameStatement(e, f)
  {
    hide Hash, Collides, Ascii;
    assert !Collides(h, Preimages(e, i)[6], Preimages(f, j)[6]) && !Collides(h, Preimages(e, i)[7], Preimages(f, j)[7]);
    FiveDigests(h, Ascii("tls-attestation/pgp/v1"),
                e.pgp.sessionId, i.rand, e.pgp.transcript, e.pgp.statement.digest, e.hsp.commitment,
                f.pgp.sessionId, j.rand, f.pgp.transcript, f.pgp.statement.digest, f.hsp.commitment);
    StatementBinds(h, e.pgp.statement.derivationTag, e.pgp.transcript, e.pgp.statement.content,
                   f.pgp.statement.derivationTag, f.pgp.statement.content);
  }

  // ---- Honest evidence ----

  function HonestEvidence(h: HashFn, sid: SessionId, rand: Digest, sp: SessionParams, query: seq<byte>,
                          response: seq<byte>, content: seq<byte>, tag: seq<byte>): Evidence {
    var hsp := GenerateHsp(h, sid, rand, sp);
    var q := BuildRecord(h, sid, rand, query, response);
    var s := DeriveStatement(h, content, tag, q.transcript);
    Evidence(hsp, q, GeneratePgp(h, sid, rand, q, s, hsp))
  }

  /** Honestly generated evidence is accepted exactly until its handshake is a day old. */
  lemma {:induction false} HonestAccepted(h: HashFn, sid: SessionId, rand: Digest, sp: SessionParams, query: seq<byte>,
                                          response: seq<byte>, content: seq<byte>, tag: seq<byte>, now: u64)
    ensures var e := HonestEvidence(h, sid, rand, sp, query, response, content, tag);
            var i := Inputs(rand, sp.certHash, query, response, now);
            VerifyAll(h, e, i).Ok? <==> !(0 < sp.establishedAt && now > sp.establishedAt + 86400)
  {
    hide Hash, HandshakeFields, HspFields, QueryFields, ResponseFields, TranscriptFields, StatementFields, PgpFields,
        BindingFields;
  }
}
