/** Signed announcements of encryption keys, and the ceremonies that start from them. */
module DkgAnnounce {
  import opened Bytes
  import opened Wrappers
  import opened Ids
  import opened Canonical
  import opened Quorum
  import opened DkgNode
  import opened DkgEncrypt
  import opened DkgCeremony
  import opened DkgSealed
  import opened ParticipantRegistry
  import T = Threshold

  const ANNOUNCEMENT_DOMAIN := "tls-attestation/dkg-enc-key-announcement/v1"
  const ANNOUNCEMENT_VERSION: byte := 1

  datatype Payload = Payload(version: byte, vid: VerifierId, ceremony: CeremonyId, encKey: PublicKey)
  datatype Announcement = Announcement(payload: Payload, signature: T.Signature)

  /** The trusted keys by participant, the hash and the signature scheme. */
  datatype Anchor = Anchor(h: HashFn, verify: T.VerifyFn, keys: map<VerifierId, T.Key>)

  function PayloadFields(p: Payload): seq<Field> {
    [Domain(Ascii(ANNOUNCEMENT_DOMAIN)), Num32(p.version), Fixed(p.vid), Fixed(p.ceremony), Fixed(p.encKey)]
  }

  function Preimage(h: HashFn, p: Payload): Digest {
    Hash(h, PayloadFields(p))
  }

  /** Equal signed digests announce the same key for the same participant and ceremony, or these payloads collide. */
  lemma {:induction false} PreimageBinds(h: HashFn, p: Payload, q: Payload)
    requires Preimage(h, p) == Preimage(h, q)
    ensures p == q || Collides(h, PayloadFields(p), PayloadFields(q))
  {
    hide Collides, Encode;
    var a, b := PayloadFields(p), PayloadFields(q);
    SameDigest(h, a, b);
    if a == b {
      assert a[1] == b[1] && a[2] == b[2] && a[3] == b[3] && a[4] == b[4];
    }
  }

  datatype AnnounceError =
    | BadVersion | WrongCeremony | Outsider | MalformedSignature | BadSignature | Unexpected | Duplicate | Missing

  function VerifyAnnouncement(t: Anchor, a: Announcement, ceremony: CeremonyId): Result<(VerifierId, PublicKey),
      AnnounceError> {
    var p := a.payload;
    if p.version != ANNOUNCEMENT_VERSION then Err(BadVersion)
    else if p.ceremony != ceremony then Err(WrongCeremony)
    else if p.vid !in t.keys then Err(Outsider)
    else if |a.signature| != 64 then Err(MalformedSignature)
    else if !t.verify(t.keys[p.vid], Preimage(t.h, p), a.signature) then Err(BadSignature)
    else Ok((p.vid, p.encKey))
  }

  /** `a` is version 1, for this ceremony, and signed by the registered key of the participant it names. */
  ghost predicate Authentic(t: Anchor, a: Announcement, ceremony: CeremonyId) {
    && a.payload.version == ANNOUNCEMENT_VERSION && a.payload.ceremony == ceremony && a.payload.vid in t.keys
    && |a.signature| == 64 && t.verify(t.keys[a.payload.vid], Preimage(t.h, a.payload), a.signature)
  }

  ghost function Announcers(anns: seq<Announcement>): (ids: seq<VerifierId>)
    ensures |ids| == |anns| && forall i :: 0 <= i < |ids| ==> ids[i] == anns[i].payload.vid
  {
    seq(|anns|, i requires 0 <= i < |anns| => anns[i].payload.vid)
  }

  /** Exactly one authentic announcement from every expected participant, and none from anyone else. */
  ghost predicate FullyAnnounced(t: Anchor, anns: seq<Announcement>, ceremony: CeremonyId, expected: seq<VerifierId>) {
    && (forall i :: 0 <= i < |anns| ==> Authentic(t, anns[i], ceremony))
    && NoDuplicates(Announcers(anns)) && SetOf(Announcers(anns)) == SetOf(expected)
  }

  /** The keys the announcements carry, by participant. */
  ghost predicate CarriedBy(verified: PublicKeys, anns: seq<Announcement>) {
    && verified.Keys == SetOf(Announcers(anns))
    && forall i :: 0 <= i < |anns| ==>
         anns[i].payload.vid in verified && verified[anns[i].payload.vid] == anns[i].payload.encKey
  }

  /** The announced keys by participant. */
  ghost function KeysOf(anns: seq<Announcement>): PublicKeys {
    if anns == [] then map[]
    else
      var last := anns[|anns| - 1].payload;
      KeysOf(anns[..|anns| - 1])[last.vid := last.encKey]
  }

  method CollectVerifiedEncKeys(t: Anchor, anns: seq<Announcement>, ceremony: CeremonyId, expected: seq<VerifierId>)
    returns (r: Result<PublicKeys, AnnounceError>)
    ensures r.Ok? <==> FullyAnnounced(t, anns, ceremony, expected)
    ensures r.Ok? ==> r.value == KeysOf(anns) && CarriedBy(r.value, anns)
  {
    hide Preimage, NoDuplicates, SetOf, KeysOf, CarriedBy;
    ghost var ids := Announcers(anns);
    var verified: PublicKeys := map[];
    NothingAnnounced(anns);
    for i := 0 to |anns|
      invariant forall j :: 0 <= j < i ==> Authentic(t, anns[j], ceremony) && ids[j] in expected
      invariant NoDuplicates(ids[..i]) && verified == KeysOf(anns[..i]) && verified.Keys == SetOf(ids[..i])
    {
      NextAnnounced(anns, i);
      NextDistinct(ids, i);
      var v := VerifyAnnouncement(t, anns[i], ceremony);
      if v.Err? { return Err(v.error); }
      if v.value.0 !in expected {
        NotExpected(ids, expected, i);
        return Err(Unexpected);
      }
      if v.value.0 in verified { return Err(Duplicate); }
      verified := verified[v.value.0 := v.value.1];
    }
    assert anns[..|anns|] == anns && ids[..|anns|] == ids;
    for i := 0 to |expected|
      invariant forall j :: 0 <= j < i ==> expected[j] in verified
    {
      if expected[i] !in verified {
        InSetOf(expected, expected[i]);
        return Err(Missing);
      }
    }
    KeysCarried(anns);
    SameMembers(ids, expected);
    return Ok(verified);
  }

  lemma {:induction false} NothingAnnounced(anns: seq<Announcement>)
    ensures KeysOf(anns[..0]) == map[] && NoDuplicates(Announcers(anns)[..0]) && SetOf(Announcers(anns)[..0]) == {}
  {
  }

  lemma {:induction false} NextAnnounced(anns: seq<Announcement>, i: nat)
    requires i < |anns|
    ensures KeysOf(anns[..i + 1]) == KeysOf(anns[..i])[anns[i].payload.vid := anns[i].payload.encKey]
  {
    assert anns[..i + 1][..i] == anns[..i];
  }

  lemma {:induction false} NotExpected(ids: seq<VerifierId>, expected: seq<VerifierId>, i: nat)
    requires i < |ids| && ids[i] !in expected
    ensures SetOf(ids) != SetOf(expected)
  {
    assert ids[i] in SetOf(ids);
  }

  lemma {:induction false} SameMembers(ids: seq<VerifierId>, expected: seq<VerifierId>)
    requires forall j :: 0 <= j < |ids| ==> ids[j] in expected
    requires forall j :: 0 <= j < |expected| ==> expected[j] in SetOf(ids)
    ensures SetOf(ids) == SetOf(expected)
  {
  }

  /** Without repeated announcers, the collected keys are exactly the announced ones. */
  lemma {:induction false} KeysCarried(anns: seq<Announcement>)
    requires NoDuplicates(Announcers(anns))
    ensures CarriedBy(KeysOf(anns), anns)
  {
    var n := |anns|;
    assert anns[..n] == anns && Announcers(anns)[..n] == Announcers(anns);
    KeysDomain(anns, n);
    hide NoDuplicates, KeysOf;
    forall i | 0 <= i < n
      ensures anns[i].payload.vid in KeysOf(anns) && KeysOf(anns)[anns[i].payload.vid] == anns[i].payload.encKey
    {
      KeysHave(anns, n, i);
    }
  }

  lemma {:induction false} KeysDomain(anns: seq<Announcement>, n: nat)
    requires n <= |anns|
    ensures KeysOf(anns[..n]).Keys == SetOf(Announcers(anns)[..n])
  {
    hide KeysOf;
    var ids := Announcers(anns);
    if n == 0 {
      NothingAnnounced(anns);
    } else {
      KeysDomain(anns, n - 1);
      NextAnnounced(anns, n - 1);
      assert ids[..n] == ids[..n - 1] + [ids[n - 1]];
    }
  }

  lemma {:induction false} KeysHave(anns: seq<Announcement>, n: nat, i: nat)
    requires i < n <= |anns| && NoDuplicates(Announcers(anns))
    ensures var own := anns[i].payload; own.vid in KeysOf(anns[..n]) && KeysOf(anns[..n])[own.vid] == own.encKey
  {
    hide KeysOf;
    NextAnnounced(anns, n - 1);
    if i < n - 1 {
      KeysHave(anns, n - 1, i);
      assert Announcers(anns)[i] != Announcers(anns)[n - 1];
    }
  }

  /** The participants' verifier ids, in node order. */
  ghost function ParticipantIds(p: Plan): (ids: seq<VerifierId>)
    ensures |ids| == |p.configs| && forall i :: 0 <= i < |ids| ==> ids[i] == p.Vid(i)
  {
    seq(|p.configs|, i requires 0 <= i < |p.configs| => p.Vid(i))
  }

  method NodeIds(p: Plan, nodes: seq<FrostDkgNode>) returns (ids: seq<VerifierId>)
    requires Seats(p, nodes)
    ensures ids == ParticipantIds(p)
  {
    hide Config.Valid;
    ids := seq(|nodes|, i requires 0 <= i < |nodes| => nodes[i].config.vid);
  }

  /** Every node's own key is the one its authentic announcement carries. */
  ghost predicate KeysAnnounced(t: Anchor, p: Plan, k: Sealing, anns: seq<Announcement>) {
    && FullyAnnounced(t, anns, k.ceremony, ParticipantIds(p))
    && |k.secrets| == |p.configs|
    && forall i, a :: 0 <= i < |p.configs| && 0 <= a < |anns| && anns[a].payload.vid == p.Vid(i) ==>
         anns[a].payload.encKey == k.crypto.publicOf(k.secrets[i])
  }

  lemma {:induction false} AnnouncedMatches(t: Anchor, p: Plan, k: Sealing, anns: seq<Announcement>,
                                            verified: PublicKeys)
    requires FullyAnnounced(t, anns, k.ceremony, ParticipantIds(p)) && CarriedBy(verified, anns) &&
             |k.secrets| == |p.configs|
    ensures forall i :: 0 <= i < |p.configs| ==> p.Vid(i) in verified
    ensures KeysMatch(p, k, verified) <==> KeysAnnounced(t, p, k, anns)
  {
    hide Authentic;
    forall i | 0 <= i < |p.configs|
      ensures p.Vid(i) in verified && exists a :: 0 <= a < |anns| && anns[a].payload.vid == p.Vid(i)
    {
      assert ParticipantIds(p)[i] in SetOf(ParticipantIds(p));
      assert p.Vid(i) in SetOf(Announcers(anns));
      var a :| 0 <= a < |anns| && Announcers(anns)[a] == p.Vid(i);
    }
  }

  /** Each node's key against its own verified announcement. */
  method CheckOwnKeys(p: Plan, k: Sealing, nodes: seq<FrostDkgNode>, verified: PublicKeys) returns (ok: bool)
    requires Seats(p, nodes) && |k.secrets| == |nodes| && forall i :: 0 <= i < |nodes| ==> p.Vid(i) in verified
    ensures ok <==> KeysMatch(p, k, verified)
  {
    hide Config.Valid;
    for i := 0 to |nodes|
      invariant forall j :: 0 <= j < i ==> verified[p.Vid(j)] == k.crypto.publicOf(k.secrets[j])
    {
      assert p.Vid(i) in verified;
      if verified[nodes[i].config.vid] != k.crypto.publicOf(k.secrets[i]) { return false; }
    }
    return true;
  }

  /** The ceremony succeeds in the clear with a single group key, and its packages can be sealed. */
  ghost predicate Succeeds(p: Plan, k: Sealing)
    requires p.Valid()
  {
    p.configs != [] && p.ThirdOk(|p.configs|) && OneKey(p.Outputs()) && Sealable(p, k)
  }

  method RunWithAuthenticatedKeys(t: Anchor, p: Plan, k: Sealing, nodes: seq<FrostDkgNode>, anns: seq<Announcement>)
    returns (r: Result<(seq<Share>, GroupKey), CeremonyError>)
    requires Seats(p, nodes) && k.crypto.Lawful()
    modifies nodes
    ensures r.Ok? <==> old(AllInitial(nodes)) && KeysAnnounced(t, p, k, anns) && Succeeds(p, k)
    ensures r.Ok? ==> CeremonyResult(p, r)
  {
    hide Config.Valid, Crypto.Lawful, FullyAnnounced, CarriedBy, KeysOf, KeysMatch, Plan.First, Plan.Second, Plan.Third,
      AllInitial, AllSealed;
    if |nodes| == 0 { return Err(NoNodes); }
    if |k.secrets| != |nodes| { return Err(WrongKeyCount); }
    var ids := NodeIds(p, nodes);
    var verified := CollectVerifiedEncKeys(t, anns, k.ceremony, ids);
    if verified.Err? { return Err(KeyAnnouncement); }
    AnnouncedMatches(t, p, k, anns, verified.value);
    var own := CheckOwnKeys(p, k, nodes, verified.value);
    if !own { return Err(KeyAnnouncement); }
    r := RunDkgCeremonyEncrypted(p, k, nodes);
  }

  /** The keys of the active participants. */
  function ActiveKeys(reg: Registry): map<VerifierId, T.Key> {
    map v | v in reg.participants && reg.participants[v].status == Active :: reg.participants[v].key
  }

  /** The announcement registry of a snapshot: its active entries, each filed under the entry's own identity. */
  method ToDkgRegistry(reg: Registry) returns (keys: map<VerifierId, T.Key>)
    ensures keys == ActiveKeys(reg)
    ensures forall v :: v in keys <==> IsActive(reg, v)
    ensures forall v :: v in keys ==> keys[v] == reg.participants[v].key
  {
    keys := map[];
    var todo := reg.participants.Keys;
    while todo != {}
      invariant todo <= reg.participants.Keys
      invariant forall v :: v in keys <==> v in ActiveKeys(reg) && v !in todo
      invariant forall v :: v in keys ==> keys[v] == ActiveKeys(reg)[v]
      decreases |todo|
    {
      var v :| v in todo;
      todo := todo - {v};
      var entry := reg.participants[v];
      if entry.status == Active { keys := keys[entry.vid := entry.key]; }
    }
    assert keys == ActiveKeys(reg);
  }

  /**
   * The registry-gated ceremony succeeds exactly when the epoch is the snapshot's, every participant is
   * active, every key in use is authentically announced under its active key, and the ceremony succeeds.
   */
  method RunWithRegistry(h: HashFn, verify: T.VerifyFn, reg: Registry, expected: u64, p: Plan, k: Sealing,
                         nodes: seq<FrostDkgNode>, anns: seq<Announcement>)
    returns (r: Result<(seq<Share>, GroupKey), CeremonyError>)
    requires Seats(p, nodes) && k.crypto.Lawful()
    modifies nodes
    ensures r.Ok? <==>
            && old(AllInitial(nodes)) && expected == reg.epoch
            && (forall i :: 0 <= i < |p.configs| ==> IsActive(reg, p.Vid(i)))
            && KeysAnnounced(Anchor(h, verify, ActiveKeys(reg)), p, k, anns) && Succeeds(p, k)
    ensures r.Ok? ==> CeremonyResult(p, r)
  {
    hide Config.Valid, Crypto.Lawful, KeysAnnounced, Succeeds, CeremonyResult, IsActive, AllInitial, ActiveKeys;
    var ids := NodeIds(p, nodes);
    var admitted := CheckCeremonyAdmission(reg, expected, ids);
    if admitted.Err? { return Err(Admission); }
    var keys := ToDkgRegistry(reg);
    r := RunWithAuthenticatedKeys(Anchor(h, verify, keys), p, k, nodes, anns);
  }

  /** The network messages, from verified announcements; the nodes' own keys are not compared with them here. */
  method BuildDkgNetworkMessages(t: Anchor, p: Plan, k: Sealing, json: Wire<seq<byte>>, nodes: seq<FrostDkgNode>,
                                 anns: seq<Announcement>)
    returns (r: Result<(PublicKeys, map<VerifierId, Round2Delivery>), CeremonyError>)
    requires Seats(p, nodes) && nodes != []
    modifies nodes
    ensures r.Ok? <==>
            && old(AllInitial(nodes)) && |k.secrets| == |nodes| && p.SecondOk(|nodes|)
            && FullyAnnounced(t, anns, k.ceremony, ParticipantIds(p)) && AllSealed(p, k, KeysOf(anns), |nodes|)
    ensures r.Ok? ==>
              && r.value.0 == KeysOf(anns) && (KeysMatch(p, k, r.value.0) <==> KeysAnnounced(t, p, k, anns))
              && DoneSecond(p, nodes)
              && forall to :: PackagesFor(r.value.1, to) == SealedInbox(p, k, json, r.value.0, |nodes|, to)
  {
    hide Config.Valid, FullyAnnounced, CarriedBy, KeysOf, KeysMatch, SealedInbox, Plan.First, Plan.Second, AllInitial,
      AllSealed, PackagesFor;
    if |k.secrets| != |nodes| { return Err(WrongKeyCount); }
    var ids := NodeIds(p, nodes);
    var verified := CollectVerifiedEncKeys(t, anns, k.ceremony, ids);
    if verified.Err? { return Err(KeyAnnouncement); }
    AnnouncedMatches(t, p, k, anns, verified.value);
    var messages := BuildDeliveries(p, k, json, verified.value, nodes);
    if messages.Err? { return Err(messages.error); }
    return Ok((verified.value, messages.value));
  }

  // ---- Announcements made as the protocol says ----

  /** A signing key pair: what it signs verifies under its public half. */
  datatype Signer = Signer(vid: VerifierId, key: T.Key, sign: Digest -> T.Signature) {
    ghost predicate Lawful(verify: T.VerifyFn) {
      forall d :: |sign(d)| == 64 && verify(key, d, sign(d))
    }
  }

  function CreateAnnouncement(h: HashFn, encKey: PublicKey, ceremony: CeremonyId, s: Signer): Announcement {
    var payload := Payload(ANNOUNCEMENT_VERSION, s.vid, ceremony, encKey);
    Announcement(payload, s.sign(Preimage(h, payload)))
  }

  /** Announcements made by all registered participants, one each, are accepted. */
  lemma {:induction false} HonestAnnouncementsAccepted(t: Anchor, signers: seq<Signer>, keys: seq<PublicKey>,
      ceremony: CeremonyId, expected: seq<VerifierId>, anns: seq<Announcement>)
    requires |signers| == |expected| == |keys| == |anns| && NoDuplicates(expected)
    requires forall i :: 0 <= i < |signers| ==>
               && signers[i].vid == expected[i] && expected[i] in t.keys && t.keys[expected[i]] == signers[i].key
               && signers[i].Lawful(t.verify) && anns[i] == CreateAnnouncement(t.h, keys[i], ceremony, signers[i])
    ensures FullyAnnounced(t, anns, ceremony, expected)
  {
    hide Preimage;
    assert Announcers(anns) == expected;
  }
}
