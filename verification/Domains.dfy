/** Every kind of message is hashed under a domain tag of its own. */
module Domains {
  import opened Bytes
  import opened Ids
  import opened Canonical
  import A = Attestation
  import D = Dctls
  import N = DkgAnnounce
  import R = Randomness
  import T = Threshold

  /** Everything the system hashes with the canonical hasher. */
  datatype Message =
    | HandshakeHash(cert: Digest, version: D.u16, name: seq<byte>, time: u64)
    | HandshakeProof(sid: SessionId, rand: Digest, exporter: Digest, cert: Digest, handshake: Digest)
    | HandshakeDigest(proof: D.HspProof)
    | QueryCommitment(sid: SessionId, rand: Digest, data: seq<byte>)
    | ResponseCommitment(sid: SessionId, rand: Digest, data: seq<byte>)
    | QueryTranscript(query: Digest, response: Digest)
    | ProvedStatement(tag: seq<byte>, transcript: Digest, content: seq<byte>)
    | StatementProof(sid: SessionId, rand: Digest, transcript: Digest, statement: Digest, hsp: Digest)
    | Binding(sid: SessionId, rand: Digest, hsp: Digest, transcript: Digest, pgp: Digest)
    | Context(context: A.SessionContext)
    | Transcript(sid: SessionId, query: Digest, response: Digest)
    | EngineEvidence(package: A.Package)
    | PackageOf(session: Digest, rand: Digest, transcript: Digest, evidence: Digest)
    | AttestedStatement(tag: seq<byte>, transcript: Digest, content: seq<byte>)
    | EnvelopeOf(body: A.Body)
    | ApprovalOf(envelope: Digest)
    | KeyAnnouncement(payload: N.Payload)
    | RandomContribution(sid: SessionId, nonce: Nonce, vid: VerifierId, secret: Bytes32)
    | RandomCombination(xor: Digest)
    | RandomSession(sid: SessionId, nonce: Nonce)
    | Commitment(role: seq<byte>, sid: SessionId, rand: Digest, data: seq<byte>)

  function Fields(m: Message): seq<Field> {
    match m
    case HandshakeHash(cert, version, name, time) => D.HandshakeFields(cert, version, name, time)
    case HandshakeProof(sid, rand, exporter, cert, handshake) => D.HspFields(sid, rand, exporter, cert, handshake)
    case HandshakeDigest(proof) => D.HspDigestFields(proof)
    case QueryCommitment(sid, rand, data) => D.QueryFields(sid, rand, data)
    case ResponseCommitment(sid, rand, data) => D.ResponseFields(sid, rand, data)
    case QueryTranscript(query, response) => D.TranscriptFields(query, response)
    case ProvedStatement(tag, transcript, content) => D.StatementFields(tag, transcript, content)
    case StatementProof(sid, rand, transcript, statement, hsp) => D.PgpFields(sid, rand, transcript, statement, hsp)
    case Binding(sid, rand, hsp, transcript, pgp) => D.BindingFields(sid, rand, hsp, transcript, pgp)
    case Context(context) => A.CheckSessionFields(context)
    case Transcript(sid, query, response) => A.TranscriptFields(sid, query, response)
    case EngineEvidence(package) => A.CheckEvidenceFields(package)
    case PackageOf(session, rand, transcript, evidence) => A.PackageFields(session, rand, transcript, evidence)
    case AttestedStatement(tag, transcript, content) => A.StatementFields(tag, transcript, content)
    case EnvelopeOf(body) => A.EnvelopeFields(body)
    case ApprovalOf(envelope) => T.ApprovalFields(envelope)
    case KeyAnnouncement(payload) => N.PayloadFields(payload)
    case RandomContribution(sid, nonce, vid, secret) => R.ContributionFields(sid, nonce, vid, secret)
    case RandomCombination(xor) => R.CombineFields(xor)
    case RandomSession(sid, nonce) => R.SessionFields(sid, nonce)
    case Commitment(role, sid, rand, data) => A.CommitmentFields(role, sid, rand, data)
  }

  /** The fixed tags, by length. */
  const TAGS: seq<string> := [
    "tls-attestation/hsp/v1",
    "tls-attestation/pgp/v1",
    "tls-attestation/hsp-ht/v1",
    "tls-attestation/envelope/v1",
    "tls-attestation/evidence/v1",
    "tls-attestation/hsp-proof/v1",
    "tls-attestation/statement/v1",
    "tls-attestation/dvrf-combine/v1",
    "tls-attestation/pgp-statement/v1",
    "tls-attestation/qp-transcript/v1",
    "tls-attestation/session-binding/v1",
    "tls-attestation/session-context/v1",
    "tls-attestation/query-commitment/v1",
    "tls-attestation/dvrf-contribution/v1",
    "tls-attestation/session-transcript/v1",
    "tls-attestation/threshold-approval/v1",
    "tls-attestation/transcript-binding/v1",
    "tls-attestation/attestation-package/v1",
    "tls-attestation/response-commitment/v1",
    "tls-attestation/dkg-enc-key-announcement/v1"
  ]

  /** The number of a message's tag; transcript commitments, whose tag holds their role, come last. */
  function Kind(m: Message): nat {
    match m
    case HandshakeHash(_, _, _, _) => 2
    case HandshakeProof(_, _, _, _, _) => 0
    case HandshakeDigest(_) => 5
    case QueryCommitment(_, _, _) => 12
    case ResponseCommitment(_, _, _) => 18
    case QueryTranscript(_, _) => 9
    case ProvedStatement(_, _, _) => 8
    case StatementProof(_, _, _, _, _) => 1
    case Binding(_, _, _, _, _) => 16
    case Context(_) => 11
    case Transcript(_, _, _) => 14
    case EngineEvidence(_) => 4
    case PackageOf(_, _, _, _) => 17
    case AttestedStatement(_, _, _) => 6
    case EnvelopeOf(_) => 3
    case ApprovalOf(_) => 15
    case KeyAnnouncement(_) => 19
    case RandomContribution(_, _, _, _) => 13
    case RandomCombination(_) => 7
    case RandomSession(_, _) => 10
    case Commitment(_, _, _, _) => 20
  }

  function Tag(m: Message): seq<byte> {
    if m.Commitment? then A.RoleDomain(m.role) else Ascii(TAGS[Kind(m)])
  }

  predicate FromProofs(m: Message) {
    || m.HandshakeHash? || m.HandshakeProof? || m.HandshakeDigest? || m.QueryCommitment?
    || m.ResponseCommitment? || m.QueryTranscript? || m.ProvedStatement? || m.StatementProof?
    || m.Binding?
  }

  predicate FromAttestation(m: Message) {
    || m.Context? || m.Transcript? || m.EngineEvidence?
    || m.PackageOf? || m.AttestedStatement? || m.EnvelopeOf?
  }

  lemma {:induction false} ProofTags(m: Message)
    requires FromProofs(m)
    ensures Fields(m) != [] && Fields(m)[0] == Domain(Tag(m))
  {
    hide Ascii, A.RoleDomain, A.IdFields;
    match m {
      case HandshakeHash(_, _, _, _) =>
      case HandshakeProof(_, _, _, _, _) =>
      case HandshakeDigest(_) =>
      case QueryCommitment(_, _, _) =>
      case ResponseCommitment(_, _, _) =>
      case QueryTranscript(_, _) =>
      case ProvedStatement(_, _, _) =>
      case StatementProof(_, _, _, _, _) =>
      case Binding(_, _, _, _, _) =>
    }
  }

  lemma {:induction false} AttestationTags(m: Message)
    requires FromAttestation(m)
    ensures Fields(m) != [] && Fields(m)[0] == Domain(Tag(m))
  {
    hide Ascii, A.RoleDomain, A.IdFields;
    match m {
      case Context(_) =>
      case Transcript(_, _, _) =>
      case EngineEvidence(_) =>
      case PackageOf(_, _, _, _) =>
      case AttestedStatement(_, _, _) =>
      case EnvelopeOf(_) =>
    }
  }

  lemma {:induction false} OtherTags(m: Message)
    requires !FromProofs(m) && !FromAttestation(m)
    ensures Fields(m) != [] && Fields(m)[0] == Domain(Tag(m))
  {
    hide Ascii, A.RoleDomain, A.IdFields;
    match m {
      case ApprovalOf(_) =>
      case KeyAnnouncement(_) =>
      case RandomContribution(_, _, _, _) =>
      case RandomCombination(_) =>
      case RandomSession(_, _) =>
      case Commitment(_, _, _, _) =>
    }
  }

  lemma {:induction false} StartsWithTag(m: Message)
    ensures Fields(m) == [Domain(Tag(m))] + Fields(m)[1..]
  {
    hide Fields, Tag;
    if FromProofs(m) {
      ProofTags(m);
    } else if FromAttestation(m) {
      AttestationTags(m);
    } else {
      OtherTags(m);
    }
  }

  // ---- The tags differ ----

  /** A tag's length and three of its characters: enough to tell the fixed tags apart. */
  function Mark(s: string): nat
    requires |s| > 21
  {
    |s| * 0x100_0000 + s[16] as int * 0x1_0000 + s[17] as int * 0x100 + (if |s| > 24 then s[24] as int else 0)
  }

  const MARKS: seq<nat> := [
    0x16_687300, 0x16_706700, 0x19_687331, 0x1b_656e2f, 0x1b_65762f,
    0x1c_687366, 0x1c_737474, 0x1f_647662, 0x20_706765, 0x20_717063,
    0x22_736562, 0x22_736563, 0x23_71756d, 0x24_647674, 0x25_736574,
    0x25_746864, 0x25_747270, 0x26_617469, 0x26_72652d, 0x2b_646b6b
  ]

  /** A tag of printable characters that is not, and does not begin like, the tag of a transcript commitment. */
  ghost predicate Plain(s: string) {
    && 22 <= |s| <= 43 && s[16] as int < 128 && s[17] as int < 128 && (|s| > 24 ==> s[24] as int < 128)
    && (s[16] != 't' || s[17] != 'r' || (|s| > 26 && s[26] as int < 128 && s[26] != '/'))
  }

  ghost predicate Marked(k: nat)
    requires k < 20
  {
    Plain(TAGS[k]) && Mark(TAGS[k]) == MARKS[k]
  }

  lemma {:induction false} Marks0()
    ensures Marked(0) && Marked(1) && Marked(2) && Marked(3) && Marked(4)
  {
  }

  lemma {:induction false} Marks1()
    ensures Marked(5) && Marked(6) && Marked(7) && Marked(8) && Marked(9)
  {
  }

  lemma {:induction false} Marks2()
    ensures Marked(10) && Marked(11) && Marked(12) && Marked(13) && Marked(14)
  {
  }

  lemma {:induction false} Marks3()
    ensures Marked(15) && Marked(16) && Marked(17) && Marked(18) && Marked(19)
  {
  }

  lemma {:induction false} AllMarked()
    ensures forall k :: 0 <= k < 20 ==> Marked(k)
  {
    hide Marked, TAGS, MARKS;
    Marks0();
    Marks1();
    Marks2();
    Marks3();
  }

  lemma {:induction false} MarksIncrease(i: nat, j: nat)
    requires i < j < 20
    ensures MARKS[i] < MARKS[j]
    decreases j
  {
    assert MARKS[j - 1] < MARKS[j];
    if i < j - 1 { MarksIncrease(i, j - 1); }
  }

  lemma {:induction false} AsciiAt(s: string, i: nat)
    requires i < |s|
    ensures Ascii(s)[i] == s[i] as int % 256
  {
  }

  lemma {:induction false} MarksTell(s: string, t: string)
    requires Plain(s) && Plain(t) && Mark(s) != Mark(t)
    ensures Ascii(s) != Ascii(t)
  {
    hide Ascii;
    if Ascii(s) == Ascii(t) {
      AsciiAt(s, 16);
      AsciiAt(t, 16);
      AsciiAt(s, 17);
      AsciiAt(t, 17);
      if |s| > 24 {
        AsciiAt(s, 24);
        AsciiAt(t, 24);
      }
    }
  }

  lemma {:induction false} PlainIsNoRole(s: string, role: seq<byte>)
    requires Plain(s)
    ensures Ascii(s) != A.RoleDomain(role)
  {
    hide Ascii, A.RoleDomain;
    RoleStart(role);
    AsciiAt(s, 16);
    AsciiAt(s, 17);
    if |s| > 26 { AsciiAt(s, 26); }
  }

  /** The fixed tags are pairwise different, and none is the tag of a transcript commitment, whatever its role. */
  lemma {:induction false} TagsDiffer(m: Message, n: Message)
    requires Kind(m) < Kind(n)
    ensures Tag(m) != Tag(n)
  {
    hide Ascii, A.RoleDomain;
    AllMarked();
    hide Plain, Mark;
    assert Marked(Kind(m));
    if n.Commitment? {
      PlainIsNoRole(TAGS[Kind(m)], n.role);
    } else {
      assert Marked(Kind(n));
      MarksIncrease(Kind(m), Kind(n));
      MarksTell(TAGS[Kind(m)], TAGS[Kind(n)]);
    }
  }

  lemma {:induction false} RoleStart(role: seq<byte>)
    ensures var b := A.RoleDomain(role); |b| > 26 && b[16] == 116 && b[17] == 114 && b[26] == 47
  {
  }

  // ---- Kinds never meet ----

  /** No encoding of one kind of message is an encoding of another: equal digests across kinds are collisions. */
  lemma {:induction false} KindsApart(h: HashFn, m: Message, n: Message)
    requires Kind(m) != Kind(n)
    requires m.Commitment? ==> |m.role| + 30 < 0x1_0000_0000
    requires n.Commitment? ==> |n.role| + 30 < 0x1_0000_0000
    ensures Encode(Fields(m)) != Encode(Fields(n))
    ensures Hash(h, Fields(m)) == Hash(h, Fields(n)) ==> Collides(h, Fields(m), Fields(n))
  {
    hide Encode, Fields, Tag;
    StartsWithTag(m);
    StartsWithTag(n);
    if Kind(m) < Kind(n) { TagsDiffer(m, n); } else { TagsDiffer(n, m); }
    TagLength(m);
    TagLength(n);
    DomainsSeparate(Tag(m), Tag(n), Fields(m)[1..], Fields(n)[1..]);
  }

  lemma {:induction false} TagLength(m: Message)
    requires m.Commitment? ==> |m.role| + 30 < 0x1_0000_0000
    ensures |Tag(m)| < 0x1_0000_0000
  {
    hide Ascii, Mark;
    AllMarked();
    if m.Commitment? { A.RoleDomains(m.role, m.role); } else { assert Marked(Kind(m)); }
  }
}
