/** The auxiliary verifier's full check: the package check, the randomness proof and the evidence chain together. */
module FullCheck {
  import opened Bytes
  import opened Wrappers
  import opened Ids
  import opened Canonical
  import A = Attestation
  import D = Dctls

  /** The randomness engine's output; its proof is opaque. */
  datatype DvrfOutput = DvrfOutput(value: Digest, proof: seq<byte>)

  /** Verification of that proof for an input. */
  type DvrfVerify = (seq<byte>, DvrfOutput) -> bool

  /** Everything a verifier is handed besides the package and the statement. */
  datatype Handed = Handed(
    evidence: D.Evidence, output: DvrfOutput, input: seq<byte>, cert: Digest, query: seq<byte>, response: seq<byte>)

  function Inputs(x: Handed, clock: u64): D.Inputs {
    D.Inputs(x.output.value, x.cert, x.query, x.response, clock)
  }

  /** The checks in order; `None` approves. The age of the handshake is taken from the system clock, not from `now`. */
  function CheckFull(h: HashFn, dvrf: DvrfVerify, pol: A.Policy, p: A.Package, s: A.StatementPayload, x: Handed,
                     now: u64, clock: u64): Option<nat> {
    var basic := A.Check(h, pol, p, s, now);
    if basic.Some? then basic
    else if !dvrf(x.input, x.output) then Some(10)
    else if D.VerifyHsp(h, x.evidence.hsp, x.output.value, x.cert, clock).Err? then Some(11)
    else if D.VerifyRecord(h, x.evidence.query, x.query, x.response).Err? then Some(12)
    else if D.VerifyPgp(h, x.evidence.pgp, x.output.value, x.evidence.hsp).Err? then Some(13)
    else if p.randomness != x.output.value then Some(14)
    else if D.VerifyConsistency(h, x.evidence.hsp, x.evidence.query, x.evidence.pgp).Err? then Some(15)
    else None
  }

  /** The full check is the package check, the randomness proof, the evidence chain, and one shared value. */
  lemma {:induction false} FullCheckIs(h: HashFn, dvrf: DvrfVerify, pol: A.Policy, p: A.Package, s: A.StatementPayload,
                                       x: Handed, now: u64, clock: u64)
    ensures CheckFull(h, dvrf, pol, p, s, x, now, clock).None? <==>
            && A.Check(h, pol, p, s, now).None? && dvrf(x.input, x.output)
            && D.VerifyAll(h, x.evidence, Inputs(x, clock)).Ok? && p.randomness == x.output.value
  {
    hide A.Check, D.VerifyHsp, D.VerifyRecord, D.VerifyPgp, D.VerifyConsistency;
  }

  // ---- Nothing but the randomness ties the package to the evidence ----

  /** Evidence made for any session, query, response and statement with the randomness `out`. */
  function HonestHanded(h: HashFn, out: DvrfOutput, input: seq<byte>, sid: SessionId, sp: D.SessionParams,
                        query: seq<byte>, response: seq<byte>, content: seq<byte>, tag: seq<byte>): Handed {
    var evidence := D.HonestEvidence(h, sid, out.value, sp, query, response, content, tag);
    Handed(evidence, out, input, sp.certHash, query, response)
  }

  /**
   * An honest package and honest evidence with the same randomness are approved together exactly when each would
   * be on its own, whatever sessions, queries, responses and statements the two are about.
   */
  lemma {:induction false} UnrelatedApproved(h: HashFn, dvrf: DvrfVerify, pol: A.Policy, r: A.Request, out: DvrfOutput,
                                             input: seq<byte>, sid: SessionId, sp: D.SessionParams, query: seq<byte>,
                                             response: seq<byte>, content: seq<byte>, tag: seq<byte>, now: u64,
                                             clock: u64)
    requires r.rand == out.value
    ensures var p, s := A.HonestPackage(h, r), A.HonestStatement(h, r);
            var x := HonestHanded(h, out, input, sid, sp, query, response, content, tag);
            CheckFull(h, dvrf, pol, p, s, x, now, clock).None? <==>
              A.Check(h, pol, p, s, now).None? && dvrf(input, out) && !D.Stale(sp.establishedAt, clock)
  {
    hide A.Check, D.VerifyAll, D.HonestEvidence, CheckFull, A.BuildTranscript, A.NewEvidence, A.NewContext;
    var p, s := A.HonestPackage(h, r), A.HonestStatement(h, r);
    var x := HonestHanded(h, out, input, sid, sp, query, response, content, tag);
    FullCheckIs(h, dvrf, pol, p, s, x, now, clock);
    D.HonestAccepted(h, sid, out.value, sp, query, response, content, tag, clock);
  }

  /** What the documentation promises: the package is made from the session and statement the evidence proves. */
  ghost predicate Linked(h: HashFn, p: A.Package, s: A.StatementPayload, x: Handed) {
    var e := x.evidence;
    && p.context.sessionId == e.hsp.sessionId && p.randomness == e.hsp.rand
    && p.transcript == A.BuildTranscript(h, e.hsp.sessionId, e.hsp.rand, x.query, x.response)
    && s == A.NewStatement(h, e.pgp.statement.content, e.pgp.statement.derivationTag, p.transcript.session)
  }

  /** The comparisons the full check does not make. */
  ghost predicate Guard(h: HashFn, p: A.Package, s: A.StatementPayload, x: Handed) {
    && p.context.sessionId == x.evidence.hsp.sessionId
    && p.transcript.query == A.Commit(h, A.QUERY, p.context.sessionId, p.randomness, x.query)
    && p.transcript.response == A.Commit(h, A.RESPONSE, p.context.sessionId, p.randomness, x.response)
    && s.content == x.evidence.pgp.statement.content && s.derivationTag == x.evidence.pgp.statement.derivationTag
  }

  /** An approved package is linked to its evidence exactly when the missing comparisons would have passed. */
  lemma {:induction false} LinkedExactly(h: HashFn, dvrf: DvrfVerify, pol: A.Policy, p: A.Package,
                                         s: A.StatementPayload, x: Handed, now: u64, clock: u64)
    requires CheckFull(h, dvrf, pol, p, s, x, now, clock).None?
    ensures Linked(h, p, s, x) <==> Guard(h, p, s, x)
  {
    hide Hash, Ascii, D.VerifyAll, CheckFull;
    FullCheckIs(h, dvrf, pol, p, s, x, now, clock);
    D.AcceptanceMeans(h, x.evidence, Inputs(x, clock));
    assert p.transcript.session == Hash(h, A.CheckTranscriptFields(p));
  }

  /** Honest sides for two different sessions are approved together and not linked. */
  lemma {:induction false} CrossSession(h: HashFn, dvrf: DvrfVerify, pol: A.Policy, r: A.Request, out: DvrfOutput,
                                        input: seq<byte>, sid: SessionId, sp: D.SessionParams, now: u64, clock: u64)
    requires r.rand == out.value && sid != r.sid && dvrf(input, out) && !D.Stale(sp.establishedAt, clock)
    requires A.Check(h, pol, A.HonestPackage(h, r), A.HonestStatement(h, r), now).None?
    ensures var p, s := A.HonestPackage(h, r), A.HonestStatement(h, r);
            var x := HonestHanded(h, out, input, sid, sp, r.query, r.response, r.content, r.tag);
            CheckFull(h, dvrf, pol, p, s, x, now, clock).None? && !Linked(h, p, s, x)
  {
    hide A.Check, CheckFull, A.BuildTranscript, A.NewEvidence, A.NewStatement, Hash, D.Stale;
    UnrelatedApproved(h, dvrf, pol, r, out, input, sid, sp, r.query, r.response, r.content, r.tag, now, clock);
  }

  // ---- What two approvals under one envelope digest agree on ----

  /** The preimages of the package's two commitments, for the query and response handed over. */
  function LinkPreimages(p: A.Package, x: Handed): (ps: seq<seq<Field>>)
    ensures |ps| == 2
  {
    [A.CommitmentFields(A.QUERY, p.context.sessionId, p.randomness, x.query),
     A.CommitmentFields(A.RESPONSE, p.context.sessionId, p.randomness, x.response)]
  }

  /** One approval: a package, a statement, a randomness binding and what was handed over. */
  datatype Approved = Approved(p: A.Package, s: A.StatementPayload, r: A.RandomnessBinding, x: Handed) {
    ghost predicate Sized() {
      && A.SizedBody(A.BodyOf(p, s, r)) && |s.content| < A.MAX64 && |p.evidence.bytes| < A.MAX64
      && |x.query| < A.MAX64 && |x.response| < A.MAX64
    }

    /** The digest the approval signs. */
    function Digest(h: HashFn): Digest {
      Hash(h, A.EnvelopeFields(A.BodyOf(p, s, r)))
    }

    /** The preimages the approval rests on. */
    function Preimages(): (ps: seq<seq<Field>>)
      ensures |ps| == 5
    {
      A.CheckedPreimages(p, s, r) + LinkPreimages(p, x)
    }
  }

  /**
   * With the guard, the signed digest fixes the package and what the evidence is about: two guarded approvals with
   * equal envelope digests agree on package, statement, session, query and response, or a named pair collides.
   */
  lemma {:induction false} GuardedApprovalsAgree(h: HashFn, dvrf: DvrfVerify, a: Approved, pol: A.Policy, now: u64,
                                                 clock: u64, b: Approved, pol': A.Policy, now': u64, clock': u64)
    requires CheckFull(h, dvrf, pol, a.p, a.s, a.x, now, clock).None? && Guard(h, a.p, a.s, a.x) && a.Sized()
    requires CheckFull(h, dvrf, pol', b.p, b.s, b.x, now', clock').None? && Guard(h, b.p, b.s, b.x) && b.Sized()
    requires a.Digest(h) == b.Digest(h)
    ensures (exists k :: 0 <= k < 5 && Collides(h, a.Preimages()[k], b.Preimages()[k])) ||
            (&& a.p == b.p && a.s == b.s && a.x.evidence.hsp.sessionId == b.x.evidence.hsp.sessionId
             && a.x.query == b.x.query && a.x.response == b.x.response && D.SameStatement(a.x.evidence, b.x.evidence))
  {
    hide Hash, Collides, Encode, Ascii, CheckFull, A.Check, A.EnvelopeFields, A.CheckedPreimages;
    FullCheckIs(h, dvrf, pol, a.p, a.s, a.x, now, clock);
    FullCheckIs(h, dvrf, pol', b.p, b.s, b.x, now', clock');
    var u, v := a.Preimages(), b.Preimages();
    if forall k :: 0 <= k < 5 ==> !Collides(h, u[k], v[k]) {
      var c, d := A.CheckedPreimages(a.p, a.s, a.r), A.CheckedPreimages(b.p, b.s, b.r);
      forall k | 0 <= k < 3 ensures !Collides(h, c[k], d[k]) {
        assert c[k] == u[k] && d[k] == v[k];
      }
      A.CheckedEnvelopesAgree(h, pol, a.p, a.s, a.r, now, pol', b.p, b.s, b.r, now');
      assert !Collides(h, u[3], v[3]) && !Collides(h, u[4], v[4]);
      SameData(h, A.QUERY, a.p, a.x.query, b.x.query);
      SameData(h, A.RESPONSE, a.p, a.x.response, b.x.response);
    }
  }

  lemma {:induction false} SameData(h: HashFn, role: seq<byte>, p: A.Package, data: seq<byte>, data': seq<byte>)
    requires |role| < 10 && |data| < A.MAX64 && |data'| < A.MAX64
    requires var sid, rand := p.context.sessionId, p.randomness;
             && A.Commit(h, role, sid, rand, data) == A.Commit(h, role, sid, rand, data')
             && !Collides(h, A.CommitmentFields(role, sid, rand, data), A.CommitmentFields(role, sid, rand, data'))
    ensures data == data'
  {
    hide Hash, Collides, Encode;
    var x := A.CommitmentFields(role, p.context.sessionId, p.randomness, data);
    var y := A.CommitmentFields(role, p.context.sessionId, p.randomness, data');
    SameDigest(h, x, y);
    assert x[3] == y[3];
  }

  /**
   * Without it, they need not: the same package and statement are approved with evidence for any two queries and
   * responses that share the randomness.
   */
  lemma {:induction false} UnguardedApprovalsDiffer(h: HashFn, dvrf: DvrfVerify, pol: A.Policy, r: A.Request,
      out: DvrfOutput, input: seq<byte>, sp: D.SessionParams, query: seq<byte>, response: seq<byte>, now: u64,
      clock: u64)
    requires r.rand == out.value && dvrf(input, out) && !D.Stale(sp.establishedAt, clock)
    requires A.Check(h, pol, A.HonestPackage(h, r), A.HonestStatement(h, r), now).None?
    ensures var p, s := A.HonestPackage(h, r), A.HonestStatement(h, r);
            var x := HonestHanded(h, out, input, r.sid, sp, r.query, r.response, r.content, r.tag);
            var y := HonestHanded(h, out, input, r.sid, sp, query, response, r.content, r.tag);
            && CheckFull(h, dvrf, pol, p, s, x, now, clock).None? && CheckFull(h, dvrf, pol, p, s, y, now, clock).None?
            && x.query == r.query && y.query == query && x.response == r.response && y.response == response
  {
    hide A.Check, CheckFull, D.Stale, A.HonestPackage, A.HonestStatement;
    UnrelatedApproved(h, dvrf, pol, r, out, input, r.sid, sp, r.query, r.response, r.content, r.tag, now, clock);
    UnrelatedApproved(h, dvrf, pol, r, out, input, r.sid, sp, query, response, r.content, r.tag, now, clock);
  }
}
