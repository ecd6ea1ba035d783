/** The coordinator's attestation runs against the session store. */
module Coordinator {
  import opened Bytes
  import opened Wrappers
  import opened Ids
  import opened Canonical
  import opened Quorum
  import opened Threshold
  import opened Session
  import opened SessionStore
  import A = Attestation

  datatype NodeError =
    | Storage(e: StorageError)
    | InvalidTransition
    | Randomness
    | Engine
    | Crypto(c: CryptoError)
    | Frost
    | QuorumNotMet(received: nat, required: nat)

  /** The states `path` written for session `id`. */
  function Written(id: SessionId, path: seq<SessionState>): (t: seq<(SessionId, SessionState)>)
    ensures |t| == |path|
  {
    seq(|path|, i requires 0 <= i < |path| => (id, path[i]))
  }

  /** The store holds session `id` in the state the local copy shows, with `approvals` recorded. */
  ghost predicate InStep(s: LiveSession, store: InMemorySessionStore)
    reads s, store
  {
    var id := s.context.sessionId;
    id in store.sessions && store.sessions[id].state == s.state && id in store.approvals
  }

  /** Nothing but session `id` changed between two store values. */
  ghost predicate OnlyTouches(before: Store, after: Store, id: SessionId) {
    before.sessions - {id} == after.sessions - {id} && before.approvals - {id} == after.approvals - {id}
  }

  /** One protocol step: the local transition, then the same state written to the store. */
  method Advance(s: LiveSession, store: InMemorySessionStore, next: SessionState)
    requires InStep(s, store) && CanTransition(s.state, next)
    modifies s, store
    ensures s.state == next && InStep(s, store) && (old(store.Valid()) ==> store.Valid())
    ensures store.trace == old(store.trace) + [(s.context.sessionId, next)]
    ensures store.approvals == old(store.approvals)
    ensures OnlyTouches(old(store.View()), store.View(), s.context.sessionId)
  {
    var ok := s.Transition(next);
    assert ok;
    var out := store.UpdateState(s.context.sessionId, next);
    assert out.Ok?;
  }

  /** A run so far: `path` is what was written for this session, and both copies show its last state. */
  ghost predicate Running(s: LiveSession, store: InMemorySessionStore, before: Store,
                          trace: seq<(SessionId, SessionState)>, path: seq<SessionState>)
    reads s, store
  {
    && store.Valid() && InStep(s, store) && IsPath(path) && s.state == path[|path| - 1]
    && store.trace == trace + Written(s.context.sessionId, path)
    && OnlyTouches(before, store.View(), s.context.sessionId)
  }

  method Step(s: LiveSession, store: InMemorySessionStore, next: SessionState, ghost before: Store,
              ghost trace: seq<(SessionId, SessionState)>, ghost path: seq<SessionState>)
    requires Running(s, store, before, trace, path) && CanTransition(s.state, next)
    modifies s, store
    ensures Running(s, store, before, trace, path + [next]) && store.approvals == old(store.approvals)
  {
    Advance(s, store, next);
    var p := path + [next];
    assert Written(s.context.sessionId, p) == Written(s.context.sessionId, path) + [(s.context.sessionId, next)];
  }

  // ---- Steps 1 to 5: create the session, draw randomness, run the engine, build the package ----

  /** The randomness engine and the attestation engine; `None` is a failure. */
  datatype Services = Services(
    generate: (SessionId, Nonce, u64, seq<VerifierId>) -> Option<A.RandomnessBinding>,
    execute: (A.SessionContext, Digest, seq<byte>, seq<byte>) -> Option<(A.TranscriptCommitments, A.Evidence)>)

  /** What a caller asks to have attested. */
  datatype Job = Job(context: A.SessionContext, query: seq<byte>, response: seq<byte>, tag: seq<byte>)

  datatype Prepared = Prepared(package: A.Package, statement: A.StatementPayload, body: A.Body, digest: Digest)

  /** The package, statement and envelope body of a job, when both engines succeed. */
  ghost function PreparedOf(h: HashFn, sv: Services, j: Job): Option<Prepared> {
    var c := j.context;
    var rand := sv.generate(c.sessionId, c.nonce, c.epoch, c.quorum.verifiers);
    if rand.None? then None else
    var out := sv.execute(c, rand.value.value, j.query, j.response);
    if out.None? then None else
    var package := A.BuildPackage(h, c, rand.value.value, out.value.0, out.value.1);
    var statement := A.NewStatement(h, j.response, j.tag, out.value.0.session);
    var body := A.BodyOf(package, statement, rand.value);
    Some(Prepared(package, statement, body, Hash(h, A.EnvelopeFields(body))))
  }

  /** The body attests this job: its context, its response under its tag, and what the engines returned for it. */
  ghost predicate Attests(h: HashFn, sv: Services, j: Job, b: A.Body) {
    var rand := sv.generate(j.context.sessionId, j.context.nonce, j.context.epoch, j.context.quorum.verifiers);
    rand.Some? &&
    var out := sv.execute(j.context, rand.value.value, j.query, j.response);
    out.Some? &&
    var (transcript, evidence) := out.value;
    && b.context == j.context && b.randomness == rand.value && b.transcript == transcript
    && b.statement.content == j.response && b.statement.derivationTag == j.tag
    && b.statement.digest == Hash(h, A.StatementFields(j.tag, transcript.session, j.response))
    && b.evidence.engineTag == evidence.engineTag && b.evidence.evidenceDigest == evidence.digest
    && b.evidence.packageDigest ==
       Hash(h, A.PackageFields(j.context.digest, rand.value.value, transcript.session, evidence.digest))
  }

  /** What is prepared attests the job, and the package and statement are the ones its digests name. */
  lemma {:induction false} PreparedAttests(h: HashFn, sv: Services, j: Job)
    requires PreparedOf(h, sv, j).Some?
    ensures var p := PreparedOf(h, sv, j).value;
            && Attests(h, sv, j, p.body) && p.body.statement == p.statement
            && p.body.evidence.packageDigest == p.package.digest
            && p.body.evidence.evidenceDigest == p.package.evidence.digest && p.package.context == j.context
            && p.package.transcript == p.body.transcript
  {
    hide Hash, A.EnvelopeFields;
  }

  method PrepareSession(h: HashFn, sv: Services, store: InMemorySessionStore, j: Job)
    returns (s: LiveSession, r: Result<Prepared, NodeError>, ghost path: seq<SessionState>)
    requires store.Valid() && j.context.sessionId !in store.sessions
    modifies store
    ensures fresh(s) && s.context == j.context
    ensures Running(s, store, old(store.View()), old(store.trace), path)
    ensures store.approvals[j.context.sessionId] == {}
    ensures r.Ok? <==> PreparedOf(h, sv, j).Some?
    ensures r.Ok? ==> r.value == PreparedOf(h, sv, j).value && path == [Pending, Active, Attesting]
    ensures r.Ok? ==> Attests(h, sv, j, r.value.body) && r.value.digest == Hash(h, A.EnvelopeFields(r.value.body))
    ensures var c := j.context;
            var drawn := sv.generate(c.sessionId, c.nonce, c.epoch, c.quorum.verifiers).Some?;
            && s.state == (if drawn then Attesting else Active)
            && (r.Err? ==> r.error == if drawn then Engine else Randomness)
  {
    hide A.EnvelopeFields, Hash, A.BuildPackage, A.NewStatement;
    ghost var before, trace := store.View(), store.trace;
    var c := j.context;
    s := new LiveSession(c);
    var _ := store.Insert(SessionRecord(c, s.state));
    path := [Pending];
    assert store.trace == trace + Written(c.sessionId, path);
    Step(s, store, Active, before, trace, path);
    path := path + [Active];
    var rand := sv.generate(c.sessionId, c.nonce, c.epoch, c.quorum.verifiers);
    if rand.None? { return s, Err(Randomness), path; }
    Step(s, store, Attesting, before, trace, path);
    path := path + [Attesting];
    var out := sv.execute(c, rand.value.value, j.query, j.response);
    if out.None? { return s, Err(Engine), path; }
    var package := A.BuildPackage(h, c, rand.value.value, out.value.0, out.value.1);
    var statement := A.NewStatement(h, j.response, j.tag, out.value.0.session);
    var body := A.BodyOf(package, statement, rand.value);
    var digest := A.ComputeDigest(h, body);
    r := Ok(Prepared(package, statement, body, digest));
    PreparedAttests(h, sv, j);
  }

  /**
   * When the context is a new one and the engine returns the transcript and evidence of the interaction, what
   * the coordinator prepares passes every digest check of an auxiliary verifier.
   */
  lemma {:induction false} PreparedApproved(h: HashFn, sv: Services, q: A.Request, rand: A.RandomnessBinding,
                                            pol: A.Policy, now: u64)
    requires q.content == q.response && rand.value == q.rand
    requires var p := A.HonestPackage(h, q);
             && sv.generate(q.sid, q.nonce, q.epoch, q.quorum.verifiers) == Some(rand)
             && sv.execute(p.context, q.rand, q.query, q.response) == Some((p.transcript, p.evidence))
    ensures var p := A.HonestPackage(h, q);
            var prepared := PreparedOf(h, sv, Job(p.context, q.query, q.response, q.tag));
            var end := p.context.expiresAt;
            && prepared.Some? && prepared.value.package == p && prepared.value.statement == A.HonestStatement(h, q)
            && (A.Check(h, pol, p, prepared.value.statement, now).None? <==>
                  now <= end && A.TagsAllowed(pol, p, prepared.value.statement) && end - q.created <= pol.maxDuration)
  {
    hide A.EnvelopeFields, Hash, A.Check, A.BuildTranscript, A.NewEvidence, A.NewContext;
    A.HonestApproved(h, pol, q, now);
    ContextIs(h, q);
  }

  lemma {:induction false} ContextIs(h: HashFn, q: A.Request)
    ensures var c := A.HonestPackage(h, q).context;
            && c.sessionId == q.sid && c.nonce == q.nonce && c.epoch == q.epoch && c.quorum == q.quorum
            && c.proverId == q.prover && c.coordinatorId == q.coord && c.createdAt == q.created
            && c.expiresAt == A.ClampExpiry(q.created, q.expires)
  {
  }

  // ---- The run with individually signing verifiers ----

  /** A signer: the identity it reports, and what `sign_partial` returns for a digest. */
  datatype Signer = Signer(id: VerifierId, sign: Digest -> Option<Partial>)

  /** A signer's answer to the digest of one run. */
  datatype Answer = Answer(id: VerifierId, result: Option<Partial>)

  ghost function Answers(signers: seq<Signer>, d: Digest): (answers: seq<Answer>)
    ensures |answers| == |signers|
    ensures forall i :: 0 <= i < |signers| ==> answers[i] == Answer(signers[i].id, signers[i].sign(d))
  {
    seq(|signers|, i requires 0 <= i < |signers| => Answer(signers[i].id, signers[i].sign(d)))
  }

  /** Every signer puts its own identity on the partial it returns. */
  ghost predicate OwnIds(answers: seq<Answer>) {
    forall i :: 0 <= i < |answers| && answers[i].result.Some? ==> answers[i].result.value.id == answers[i].id
  }

  /** The signers that signed. */
  ghost function SignedIds(answers: seq<Answer>): set<VerifierId> {
    set i | 0 <= i < |answers| && answers[i].result.Some? :: answers[i].id
  }

  /** The partials a run collects: each signer's first success, in order. */
  ghost function Partials(answers: seq<Answer>): seq<Partial> {
    if answers == [] then []
    else
      var before, last := answers[..|answers| - 1], answers[|answers| - 1];
      Partials(before) + (if last.result.Some? && last.id !in SignedIds(before) then [last.result.value] else [])
  }

  /** Every partial's identity is recorded. */
  ghost predicate PartialsRecorded(partials: seq<Partial>, recorded: set<VerifierId>) {
    forall i :: 0 <= i < |partials| ==> partials[i].id in recorded
  }

  lemma {:induction false} NextAnswer(answers: seq<Answer>, i: nat)
    requires i < |answers|
    ensures var a, before := answers[i], answers[..i];
            && SignedIds(answers[..i + 1]) == SignedIds(before) + (if a.result.Some? then {a.id} else {})
            && Partials(answers[..i + 1]) ==
               Partials(before) + (if a.result.Some? && a.id !in SignedIds(before) then [a.result.value] else [])
  {
    assert answers[..i + 1] == answers[..i] + [answers[i]] && answers[..i + 1][..i] == answers[..i];
  }

  lemma {:induction false} OwnPartialsRecorded(answers: seq<Answer>)
    requires OwnIds(answers)
    ensures PartialsRecorded(Partials(answers), SignedIds(answers))
  {
    if answers != [] {
      var n := |answers| - 1;
      OwnPartialsRecorded(answers[..n]);
      NextAnswer(answers, n);
      assert answers[..n + 1] == answers;
    }
  }

  /** The partials are one from each signer that signed, its first, and nothing else, in the order of the signers. */
  lemma {:induction false} PartialsAre(answers: seq<Answer>)
    ensures |Partials(answers)| == |SignedIds(answers)|
    ensures forall x :: x in Partials(answers) <==> exists i ::
              0 <= i < |answers| && answers[i].result == Some(x) && answers[i].id !in SignedIds(answers[..i])
    decreases |answers|
  {
    hide SignedIds;
    if answers == [] {
      NoAnswers(answers);
      assert answers[..0] == answers;
    } else {
      var n := |answers| - 1;
      var before := answers[..n];
      PartialsAre(before);
      NextAnswer(answers, n);
      assert answers[..n + 1] == answers;
      forall i | 0 <= i < n ensures before[..i] == answers[..i] {
      }
      hide Partials;
      forall x ensures x in Partials(answers) <==> exists i ::
                 0 <= i < |answers| && answers[i].result == Some(x) && answers[i].id !in SignedIds(answers[..i])
      {
        OneMorePartial(answers, x);
      }
    }
  }

  lemma {:induction false} OneMorePartial(answers: seq<Answer>, x: Partial)
    requires answers != []
    requires var before := answers[..|answers| - 1];
             x in Partials(before) <==> exists i ::
               0 <= i < |before| && before[i].result == Some(x) && before[i].id !in SignedIds(before[..i])
    ensures x in Partials(answers) <==> exists i ::
              0 <= i < |answers| && answers[i].result == Some(x) && answers[i].id !in SignedIds(answers[..i])
  {
    hide SignedIds, Partials;
    var n := |answers| - 1;
    var before, last := answers[..n], answers[n];
    NextAnswer(answers, n);
    assert answers[..n + 1] == answers;
    if x in Partials(before) {
      var i :| 0 <= i < |before| && before[i].result == Some(x) && before[i].id !in SignedIds(before[..i]);
      assert before[..i] == answers[..i] && answers[i] == before[i];
    }
    if i :| 0 <= i < |answers| && answers[i].result == Some(x) && answers[i].id !in SignedIds(answers[..i]) {
      if i < n { assert before[..i] == answers[..i] && answers[i] == before[i]; }
    }
  }

  method CollectPartials(s: LiveSession, store: InMemorySessionStore, signers: seq<Signer>, d: Digest)
    returns (partials: seq<Partial>)
    requires store.Valid() && InStep(s, store) && s.state == Collecting && store.approvals[s.context.sessionId] == {}
    modifies store`approvals
    ensures store.Valid() && InStep(s, store) && OnlyTouches(old(store.View()), store.View(), s.context.sessionId)
    ensures partials == Partials(Answers(signers, d))
    ensures store.approvals[s.context.sessionId] == SignedIds(Answers(signers, d))
  {
    hide Partials, SignedIds;
    var id := s.context.sessionId;
    ghost var answers := Answers(signers, d);
    partials := [];
    NoAnswers(answers);
    for i := 0 to |signers|
      invariant store.Valid() && InStep(s, store) && OnlyTouches(old(store.View()), store.View(), id)
      invariant partials == Partials(answers[..i]) && store.approvals[id] == SignedIds(answers[..i])
    {
      NextAnswer(answers, i);
      var known := store.HasApproved(id, signers[i].id);
      if !known {
        var partial := signers[i].sign(d);
        if partial.Some? {
          var out := store.RecordApproval(id, signers[i].id);
          assert out.Ok?;
          partials := partials + [partial.value];
        }
      }
    }
    assert answers[..|signers|] == answers;
  }

  lemma {:induction false} NoAnswers(answers: seq<Answer>)
    ensures Partials(answers[..0]) == [] && SignedIds(answers[..0]) == {}
  {
  }

  /** The partials satisfy the quorum and every quorum member among them signed validly. */
  ghost predicate Enough(h: HashFn, kr: Keyring, q: QuorumSpec, envelope: Digest, partials: seq<Partial>) {
    MembersValid(kr, q, SignedDigest(h, envelope), partials) && IsSatisfiedBy(q, IdsOf(partials))
  }

  /** At least `threshold` distinct quorum members are recorded. */
  ghost predicate QuorumRecorded(q: QuorumSpec, recorded: set<VerifierId>) {
    |SetOf(q.verifiers) * recorded| >= q.threshold
  }

  lemma {:induction false} AggregatedEnough(h: HashFn, kr: Keyring, partials: seq<Partial>, q: QuorumSpec,
                                            envelope: Digest, a: Approval, recorded: set<VerifierId>)
    requires Aggregated(h, kr, partials, q, envelope, a) && NoDuplicates(q.verifiers)
    requires PartialsRecorded(partials, recorded)
    ensures QuorumRecorded(q, recorded) && Verifies(h, kr, a, envelope)
  {
    hide Verifies, Aggregated, Count;
    AggregateSound(h, kr, partials, q, envelope, a);
    AggregatedSigners(h, kr, partials, q, envelope, a);
    forall v | v in a.signers ensures v in recorded && v in q.verifiers {
      assert v in SetOf(a.signers);
      assert v in SetOf(IdsOf(partials));
    }
    SubsetSize(SetOf(a.signers), SetOf(q.verifiers) * recorded);
  }

  /** What a finished run promises: the envelope is the prepared one and both of its verifications pass. */
  ghost predicate Attested(h: HashFn, kr: Keyring, q: QuorumSpec, p: Prepared, answers: seq<Answer>, e: A.Envelope,
                           recorded: set<VerifierId>) {
    && e.body == p.body && e.digest == p.digest == Hash(h, A.EnvelopeFields(e.body)) && e.approval.quorum == q
    && (NoDuplicates(q.verifiers) && OwnIds(answers) ==>
          QuorumRecorded(q, recorded) && Verifies(h, kr, e.approval, e.digest))
    && (forall other :: Verifies(h, kr, e.approval, other) ==>
          other == e.digest || Collides(h, ApprovalFields(other), ApprovalFields(e.digest)))
  }

  /** Collects the partials, aggregates them, assembles the envelope and finalises. */
  method AggregateRun(h: HashFn, kr: Keyring, s: LiveSession, store: InMemorySessionStore, p: Prepared,
                      signers: seq<Signer>, ghost before: Store, ghost trace: seq<(SessionId, SessionState)>,
                      ghost path: seq<SessionState>)
    returns (r: Result<A.Envelope, NodeError>)
    requires Running(s, store, before, trace, path) && s.state == Collecting
    requires store.approvals[s.context.sessionId] == {} && p.digest == Hash(h, A.EnvelopeFields(p.body))
    modifies s, store
    ensures var answers := Answers(signers, SignedDigest(h, p.digest));
            && Running(s, store, before, trace, if r.Ok? then path + [Finalized] else path)
            && (r.Ok? <==> Enough(h, kr, s.context.quorum, p.digest, Partials(answers)))
            && store.approvals[s.context.sessionId] == SignedIds(answers)
            && (r.Ok? ==> Attested(h, kr, s.context.quorum, p, answers, r.value, store.approvals[s.context.sessionId]))
  {
    hide Verifies, Collected, Count, SignedDigest, Partials, SignedIds, Answers, A.EnvelopeFields, Hash, QuorumRecorded;
    var q := s.context.quorum;
    ghost var answers := Answers(signers, SignedDigest(h, p.digest));
    var partials := CollectPartials(s, store, signers, SignedDigest(h, p.digest));
    var agg := AggregateSignatures(h, kr, partials, q, p.digest);
    if agg.Err? { return Err(Crypto(agg.error)); }
    if NoDuplicates(q.verifiers) && OwnIds(answers) {
      OwnPartialsRecorded(answers);
      AggregatedEnough(h, kr, partials, q, p.digest, agg.value, store.approvals[s.context.sessionId]);
    }
    forall other | Verifies(h, kr, agg.value, other)
      ensures other == p.digest || Collides(h, ApprovalFields(other), ApprovalFields(p.digest))
    {
      SignedFor(h, kr, agg.value, other);
      SignedDigestBinds(h, other, p.digest);
    }
    var envelope := A.Assemble(h, p.body, agg.value);
    Step(s, store, Finalized, before, trace, path);
    r := Ok(envelope);
  }

  lemma {:induction false} SignedFor(h: HashFn, kr: Keyring, a: Approval, envelope: Digest)
    requires Verifies(h, kr, a, envelope)
    ensures a.signedDigest == SignedDigest(h, envelope)
  {
  }

  method Attest(h: HashFn, kr: Keyring, sv: Services, store: InMemorySessionStore, j: Job, signers: seq<Signer>)
    returns (s: LiveSession, r: Result<A.Envelope, NodeError>, ghost path: seq<SessionState>)
    requires store.Valid() && j.context.sessionId !in store.sessions
    modifies store
    ensures fresh(s) && s.context == j.context && Running(s, store, old(store.View()), old(store.trace), path)
    ensures r.Ok? <==> s.state == Finalized
    ensures r.Ok? ==> Attests(h, sv, j, r.value.body)
    ensures s.state in {Collecting, Finalized} <==> PreparedOf(h, sv, j).Some?
    ensures PreparedOf(h, sv, j).Some? ==>
              var p := PreparedOf(h, sv, j).value;
              var answers := Answers(signers, SignedDigest(h, p.digest));
              var recorded := store.approvals[j.context.sessionId];
              && recorded == SignedIds(answers)
              && (r.Ok? <==> Enough(h, kr, j.context.quorum, p.digest, Partials(answers)))
              && (r.Ok? ==> Attested(h, kr, j.context.quorum, p, answers, r.value, recorded))
  {
    hide SignedIds, Answers, Enough, Partials, PreparedOf, SignedDigest, Hash, Attests, Verifies, Collides,
      NoDuplicates, OwnIds, QuorumRecorded, A.EnvelopeFields;
    ghost var before, trace := store.View(), store.trace;
    var prep;
    s, prep, path := PrepareSession(h, sv, store, j);
    if prep.Err? { return s, Err(prep.error), path; }
    Step(s, store, Collecting, before, trace, path);
    path := path + [Collecting];
    PreparedDigest(h, sv, j);
    r := AggregateRun(h, kr, s, store, prep.value, signers, before, trace, path);
    if r.Ok? { path := path + [Finalized]; }
  }

  lemma {:induction false} PreparedDigest(h: HashFn, sv: Services, j: Job)
    requires PreparedOf(h, sv, j).Some?
    ensures var p := PreparedOf(h, sv, j).value; p.digest == Hash(h, A.EnvelopeFields(p.body))
  {
  }

  // ---- The runs with FROST signatures ----

  /** The envelope of a FROST run: the signature is one aggregate over the signed digest. */
  datatype FrostEnvelope = FrostEnvelope(body: A.Body, signature: seq<byte>, digest: Digest)

  /** What a run leaves behind, however it ends. */
  ghost predicate RunDone(s: LiveSession, store: InMemorySessionStore, before: Store,
                          trace: seq<(SessionId, SessionState)>, path: seq<SessionState>, signers: seq<VerifierId>)
    reads s, store
  {
    && Running(s, store, before, trace, path)
    && (s.state == Finalized ==>
          && store.approvals[s.context.sessionId] == SetOf(signers)
          && |store.approvals[s.context.sessionId]| == |signers| >= s.context.quorum.threshold)
  }

  /** Records every signer; a repeated signer stops the loop with a duplicate error. */
  method RecordAll(s: LiveSession, store: InMemorySessionStore, signers: seq<VerifierId>)
    returns (r: Result<(), NodeError>)
    requires store.Valid() && InStep(s, store) && s.state == Collecting && store.approvals[s.context.sessionId] == {}
    modifies store`approvals
    ensures store.Valid() && InStep(s, store) && OnlyTouches(old(store.View()), store.View(), s.context.sessionId)
    ensures r.Ok? <==> NoDuplicates(signers)
    ensures r.Ok? ==> store.approvals[s.context.sessionId] == SetOf(signers)
  {
    var id := s.context.sessionId;
    for i := 0 to |signers|
      invariant store.Valid() && InStep(s, store) && OnlyTouches(old(store.View()), store.View(), id)
      invariant NoDuplicates(signers[..i]) && store.approvals[id] == SetOf(signers[..i])
    {
      NextDistinct(signers, i);
      var out := store.RecordApproval(id, signers[i]);
      if out.Err? { return Err(Storage(out.error)); }
    }
    assert signers[..|signers|] == signers;
    r := Ok(());
  }

  method FailRun(s: LiveSession, store: InMemorySessionStore, reason: string, ghost before: Store,
                 ghost trace: seq<(SessionId, SessionState)>, ghost path: seq<SessionState>)
    requires Running(s, store, before, trace, path) && s.state == Collecting
    modifies s, store
    ensures Running(s, store, before, trace, path + [Failed(reason)])
  {
    s.Fail(reason);
    var out := store.UpdateState(s.context.sessionId, Failed(reason));
    ghost var id, p := s.context.sessionId, path + [Failed(reason)];
    assert Written(id, p) == Written(id, path) + [(id, Failed(reason))];
  }

  /** A finished FROST run returns the prepared body under its digest. */
  ghost predicate FrostAttested(h: HashFn, p: Prepared, signature: Option<seq<byte>>, e: FrostEnvelope) {
    && signature.Some? && e == FrostEnvelope(p.body, signature.value, p.digest)
    && e.digest == Hash(h, A.EnvelopeFields(e.body))
  }

  /** Records the signers, finalises and returns the envelope. */
  method Finish(h: HashFn, s: LiveSession, store: InMemorySessionStore, p: Prepared, signature: seq<byte>,
                signers: seq<VerifierId>,
                ghost before: Store, ghost trace: seq<(SessionId, SessionState)>, ghost path: seq<SessionState>)
    returns (r: Result<FrostEnvelope, NodeError>)
    requires Running(s, store, before, trace, path) && s.state == Collecting
    requires store.approvals[s.context.sessionId] == {} && |signers| >= s.context.quorum.threshold
    requires p.digest == Hash(h, A.EnvelopeFields(p.body))
    modifies s, store
    ensures r.Ok? <==> NoDuplicates(signers)
    ensures RunDone(s, store, before, trace, if r.Ok? then path + [Finalized] else path, signers)
    ensures s.state == (if r.Ok? then Finalized else Collecting)
    ensures r.Ok? ==> FrostAttested(h, p, Some(signature), r.value)
  {
    hide Hash, A.EnvelopeFields;
    var recorded := RecordAll(s, store, signers);
    if recorded.Err? { return Err(recorded.error); }
    Step(s, store, Finalized, before, trace, path);
    DistinctSize(signers);
    r := Ok(FrostEnvelope(p.body, signature, p.digest));
  }

  /** The run with in-process FROST signing; `collect` is the library's two rounds. */
  method AttestFrost(h: HashFn, sv: Services, store: InMemorySessionStore, j: Job, signers: seq<VerifierId>,
                     collect: (seq<VerifierId>, Digest) -> Option<seq<byte>>)
    returns (s: LiveSession, r: Result<FrostEnvelope, NodeError>, ghost path: seq<SessionState>)
    requires store.Valid() && j.context.sessionId !in store.sessions
    modifies store
    ensures fresh(s) && s.context == j.context && RunDone(s, store, old(store.View()), old(store.trace), path, signers)
    ensures r.Ok? <==> s.state == Finalized
    ensures r.Ok? <==>
            && PreparedOf(h, sv, j).Some? && |signers| >= j.context.quorum.threshold && NoDuplicates(signers)
            && collect(signers, SignedDigest(h, PreparedOf(h, sv, j).value.digest)).Some?
    ensures r.Ok? ==>
              var p := PreparedOf(h, sv, j).value;
              && FrostAttested(h, p, collect(signers, SignedDigest(h, p.digest)), r.value)
              && Attests(h, sv, j, r.value.body)
    ensures s.state.Failed? <==> PreparedOf(h, sv, j).Some? && |signers| < j.context.quorum.threshold
    ensures s.state.Failed? ==> r == Err(QuorumNotMet(|signers|, j.context.quorum.threshold))
  {
    hide PreparedOf, SignedDigest, Hash, A.EnvelopeFields, NoDuplicates, SetOf, Attests;
    ghost var before, trace := store.View(), store.trace;
    var prep;
    s, prep, path := PrepareSession(h, sv, store, j);
    if prep.Err? { return s, Err(prep.error), path; }
    PreparedDigest(h, sv, j);
    Step(s, store, Collecting, before, trace, path);
    path := path + [Collecting];
    if |signers| < j.context.quorum.threshold {
      FailRun(s, store, "insufficient FROST signers", before, trace, path);
      return s, Err(QuorumNotMet(|signers|, j.context.quorum.threshold)), path + [Failed("insufficient FROST signers")];
    }
    var signature := collect(signers, SignedDigest(h, prep.value.digest));
    if signature.None? { return s, Err(Frost), path; }
    r := Finish(h, s, store, prep.value, signature.value, signers, before, trace, path);
    if r.Ok? { path := path + [Finalized]; }
  }

  /** What a node answers: its identity and the bytes of its commitment or signature share. */
  type Reply = (VerifierId, seq<byte>)

  datatype Round1Request = Round1Request(session: SessionId, signed: Digest, envelope: Digest, signers: seq<VerifierId>)
  datatype Round2Request = Round2Request(session: SessionId, package: seq<byte>, signers: seq<VerifierId>)

  /** An auxiliary node, in process or behind a transport. */
  datatype FrostNode = FrostNode(
    id: VerifierId, round1: Round1Request -> Option<Reply>, round2: Round2Request -> Option<Reply>)

  /** The FROST library's coordinator side. */
  datatype FrostLibrary = FrostLibrary(
    assemble: (seq<Reply>, Digest) -> Option<seq<byte>>,
    aggregate: (seq<byte>, seq<Reply>, Digest) -> Option<seq<byte>>)

  function NodeIds(nodes: seq<FrostNode>): (ids: seq<VerifierId>)
    ensures |ids| == |nodes| && forall i :: 0 <= i < |nodes| ==> ids[i] == nodes[i].id
  {
    seq(|nodes|, i requires 0 <= i < |nodes| => nodes[i].id)
  }

  /** All replies in node order, if every node replies. */
  ghost function AllReplies(nodes: seq<FrostNode>, ask: FrostNode -> Option<Reply>): Option<seq<Reply>> {
    if forall i :: 0 <= i < |nodes| ==> ask(nodes[i]).Some?
    then Some(seq(|nodes|, i requires 0 <= i < |nodes| => ask(nodes[i]).value))
    else None
  }

  /** Asks each node in turn; stops at the first refusal. */
  method AskAll(nodes: seq<FrostNode>, ask: FrostNode -> Option<Reply>) returns (r: Option<seq<Reply>>)
    ensures r == AllReplies(nodes, ask)
  {
    var replies: seq<Reply> := [];
    for i := 0 to |nodes|
      invariant |replies| == i && forall j :: 0 <= j < i ==> ask(nodes[j]) == Some(replies[j])
    {
      var reply := ask(nodes[i]);
      if reply.None? { return None; }
      replies := replies + [reply.value];
    }
    assert forall i :: 0 <= i < |nodes| ==> ask(nodes[i]) == Some(replies[i]);
    assert replies == AllReplies(nodes, ask).value;
    return Some(replies);
  }

  /** How far the two FROST rounds get, and with what. */
  datatype Signing = NoRound1 | NoPackage | NoRound2 | NoSignature | Signed(signature: seq<byte>)

  ghost function Sign(lib: FrostLibrary, nodes: seq<FrostNode>, session: SessionId, signed: Digest, envelope: Digest)
    : Signing
  {
    var request1 := Round1Request(session, signed, envelope, NodeIds(nodes));
    var replies1 := AllReplies(nodes, (n: FrostNode) => n.round1(request1));
    if replies1.None? then NoRound1 else
    var package := lib.assemble(replies1.value, signed);
    if package.None? then NoPackage else
    var request2 := Round2Request(session, package.value, NodeIds(nodes));
    var replies2 := AllReplies(nodes, (n: FrostNode) => n.round2(request2));
    if replies2.None? then NoRound2 else
    var signature := lib.aggregate(package.value, replies2.value, signed);
    if signature.None? then NoSignature else Signed(signature.value)
  }

  /** Every node commits to the signed and the envelope digest, and the library packs all commitments. */
  ghost predicate Committed(lib: FrostLibrary, nodes: seq<FrostNode>, session: SessionId, signed: Digest,
                            envelope: Digest, commitments: seq<Reply>, package: seq<byte>) {
    && |commitments| == |nodes| && lib.assemble(commitments, signed) == Some(package)
    && forall i :: 0 <= i < |nodes| ==>
         nodes[i].round1(Round1Request(session, signed, envelope, NodeIds(nodes))) == Some(commitments[i])
  }

  /** Every node then signs that package, and the library aggregates all shares. */
  ghost predicate Shared(lib: FrostLibrary, nodes: seq<FrostNode>, session: SessionId, signed: Digest,
                         package: seq<byte>, shares: seq<Reply>, signature: seq<byte>) {
    && |shares| == |nodes| && lib.aggregate(package, shares, signed) == Some(signature)
    && forall i :: 0 <= i < |nodes| ==>
         nodes[i].round2(Round2Request(session, package, NodeIds(nodes))) == Some(shares[i])
  }

  /** A signature comes out exactly when every node answers both rounds and the library accepts all answers. */
  lemma {:induction false} SignedMeans(lib: FrostLibrary, nodes: seq<FrostNode>, session: SessionId, signed: Digest,
                                       envelope: Digest, signature: seq<byte>)
    ensures Sign(lib, nodes, session, signed, envelope) == Signed(signature) <==>
            exists commitments, package, shares ::
              && Committed(lib, nodes, session, signed, envelope, commitments, package)
              && Shared(lib, nodes, session, signed, package, shares, signature)
  {
    hide NodeIds;
    var request1 := Round1Request(session, signed, envelope, NodeIds(nodes));
    var ask1 := (n: FrostNode) => n.round1(request1);
    if Sign(lib, nodes, session, signed, envelope) == Signed(signature) {
      var commitments := AllReplies(nodes, ask1).value;
      var package := lib.assemble(commitments, signed).value;
      var request2 := Round2Request(session, package, NodeIds(nodes));
      var shares := AllReplies(nodes, (n: FrostNode) => n.round2(request2)).value;
      assert Committed(lib, nodes, session, signed, envelope, commitments, package);
      assert Shared(lib, nodes, session, signed, package, shares, signature);
    }
    forall commitments, package, shares |
      && Committed(lib, nodes, session, signed, envelope, commitments, package)
      && Shared(lib, nodes, session, signed, package, shares, signature)
      ensures Sign(lib, nodes, session, signed, envelope) == Signed(signature)
    {
      RepliesAre(nodes, ask1, commitments);
      var request2 := Round2Request(session, package, NodeIds(nodes));
      RepliesAre(nodes, (n: FrostNode) => n.round2(request2), shares);
    }
  }

  /** The first round fails exactly when some node refuses to commit. */
  lemma {:induction false} Round1Fails(lib: FrostLibrary, nodes: seq<FrostNode>, session: SessionId, signed: Digest,
                                       envelope: Digest)
    ensures Sign(lib, nodes, session, signed, envelope).NoRound1? <==>
            exists i :: 0 <= i < |nodes| &&
              nodes[i].round1(Round1Request(session, signed, envelope, NodeIds(nodes))).None?
  {
    hide NodeIds;
  }

  /** The second round fails exactly when all commit, the library packs, and some node refuses to sign the package. */
  lemma {:induction false} Round2Fails(lib: FrostLibrary, nodes: seq<FrostNode>, session: SessionId, signed: Digest,
                                       envelope: Digest)
    ensures Sign(lib, nodes, session, signed, envelope).NoRound2? <==>
            exists commitments, package, i ::
              && Committed(lib, nodes, session, signed, envelope, commitments, package) && 0 <= i < |nodes|
              && nodes[i].round2(Round2Request(session, package, NodeIds(nodes))).None?
  {
    hide NodeIds;
    var request1 := Round1Request(session, signed, envelope, NodeIds(nodes));
    var ask1 := (n: FrostNode) => n.round1(request1);
    if Sign(lib, nodes, session, signed, envelope).NoRound2? {
      var commitments := AllReplies(nodes, ask1).value;
      var package := lib.assemble(commitments, signed).value;
      var request2 := Round2Request(session, package, NodeIds(nodes));
      assert Committed(lib, nodes, session, signed, envelope, commitments, package);
      var i :| 0 <= i < |nodes| && nodes[i].round2(request2).None?;
    }
    forall commitments, package, i |
      && Committed(lib, nodes, session, signed, envelope, commitments, package) && 0 <= i < |nodes|
      && nodes[i].round2(Round2Request(session, package, NodeIds(nodes))).None?
      ensures Sign(lib, nodes, session, signed, envelope).NoRound2?
    {
      RepliesAre(nodes, ask1, commitments);
    }
  }

  lemma {:induction false} RepliesAre(nodes: seq<FrostNode>, ask: FrostNode -> Option<Reply>, replies: seq<Reply>)
    requires |replies| == |nodes| && forall i :: 0 <= i < |nodes| ==> ask(nodes[i]) == Some(replies[i])
    ensures AllReplies(nodes, ask) == Some(replies)
  {
    assert AllReplies(nodes, ask).value == replies;
  }

  /** Both rounds: every node's commitment goes into the package, every node's share into the signature. */
  method RunRounds(lib: FrostLibrary, nodes: seq<FrostNode>, session: SessionId, signed: Digest, envelope: Digest)
    returns (r: Signing)
    ensures r == Sign(lib, nodes, session, signed, envelope)
  {
    hide AllReplies;
    var request1 := Round1Request(session, signed, envelope, NodeIds(nodes));
    var replies1 := AskAll(nodes, (n: FrostNode) => n.round1(request1));
    if replies1.None? { return NoRound1; }
    var package := lib.assemble(replies1.value, signed);
    if package.None? { return NoPackage; }
    var request2 := Round2Request(session, package.value, NodeIds(nodes));
    var replies2 := AskAll(nodes, (n: FrostNode) => n.round2(request2));
    if replies2.None? { return NoRound2; }
    var signature := lib.aggregate(package.value, replies2.value, signed);
    r := if signature.None? then NoSignature else Signed(signature.value);
  }

  /** The distributed FROST run, over in-process nodes or transports: two rounds of requests, then aggregation. */
  method AttestFrostDistributed(h: HashFn, sv: Services, lib: FrostLibrary, store: InMemorySessionStore, j: Job,
                                nodes: seq<FrostNode>)
    returns (s: LiveSession, r: Result<FrostEnvelope, NodeError>, ghost path: seq<SessionState>)
    requires store.Valid() && j.context.sessionId !in store.sessions
    modifies store
    ensures fresh(s) && s.context == j.context
    ensures RunDone(s, store, old(store.View()), old(store.trace), path, NodeIds(nodes))
    ensures r.Ok? <==> s.state == Finalized
    ensures PreparedOf(h, sv, j).None? ==> r.Err? && !s.state.Failed?
    ensures PreparedOf(h, sv, j).Some? ==>
              var p := PreparedOf(h, sv, j).value;
              var out := Sign(lib, nodes, j.context.sessionId, SignedDigest(h, p.digest), p.digest);
              var few := |nodes| < j.context.quorum.threshold;
              && (r.Ok? <==> !few && out.Signed? && NoDuplicates(NodeIds(nodes)))
              && (r.Ok? ==> FrostAttested(h, p, Some(out.signature), r.value) && Attests(h, sv, j, r.value.body))
              && (s.state.Failed? <==> few || out.NoRound1? || out.NoRound2?)
              && (few ==> r == Err(QuorumNotMet(|nodes|, j.context.quorum.threshold)))
  {
    hide PreparedOf, SignedDigest, Hash, A.EnvelopeFields, NoDuplicates, NodeIds, Sign, SetOf, Attests;
    ghost var before, trace := store.View(), store.trace;
    var prep;
    s, prep, path := PrepareSession(h, sv, store, j);
    if prep.Err? { return s, Err(prep.error), path; }
    PreparedDigest(h, sv, j);
    Step(s, store, Collecting, before, trace, path);
    path := path + [Collecting];
    if |nodes| < j.context.quorum.threshold {
      FailRun(s, store, "insufficient aux nodes", before, trace, path);
      return s, Err(QuorumNotMet(|nodes|, j.context.quorum.threshold)), path + [Failed("insufficient aux nodes")];
    }
    var out := RunRounds(lib, nodes, j.context.sessionId, SignedDigest(h, prep.value.digest), prep.value.digest);
    if out.NoRound1? || out.NoRound2? {
      FailRun(s, store, "round failed", before, trace, path);
      return s, Err(Frost), path + [Failed("round failed")];
    }
    if !out.Signed? { return s, Err(Frost), path; }
    r := Finish(h, s, store, prep.value, out.signature, NodeIds(nodes), before, trace, path);
    if r.Ok? { path := path + [Finalized]; }
  }
}
