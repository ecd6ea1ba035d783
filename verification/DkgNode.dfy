/** One participant of a FROST distributed key generation: its identifiers and its three-part state machine. */
module DkgNode {
  import opened Bytes
  import opened Wrappers
  import opened Ids
  import opened Quorum

  type u16 = x: nat | x < 0x1_0000

  type Seed = seq<byte>

  datatype Round1State = Round1State(body: seq<byte>)
  datatype Round1Package = Round1Package(body: seq<byte>)
  datatype Round2State = Round2State(body: seq<byte>)
  datatype Round2Package = Round2Package(body: seq<byte>)
  datatype Share = Share(body: seq<byte>)
  datatype GroupKey = GroupKey(bytes: seq<byte>)

  /** The FROST library's three calls; `None` is a refusal. */
  datatype Frost = Frost(
    part1: (nat, u16, u16, Seed) -> Option<(Round1State, Round1Package)>,
    part2: (Round1State, map<nat, Round1Package>) -> Option<(Round2State, map<nat, Round2Package>)>,
    part3: (VerifierId, nat, Round2State, map<nat, Round1Package>, map<nat, Round2Package>, seq<VerifierId>)
           -> Option<(Share, GroupKey)>)
  {
    /** Part 2 makes one package for every participant whose round-1 package it was given. */
    ghost predicate Lawful() {
      forall s, m :: part2(s, m).Some? ==> part2(s, m).value.1.Keys == m.Keys
    }
  }

  // ---- Identifiers ----

  /** The 16-bit FROST identifier of a list position; zero is not an identifier. */
  function FrostIdAt(pos: nat): Option<nat> {
    var k := (pos + 1) % 0x1_0000;
    if k == 0 then None else Some(k)
  }

  function Position(ids: seq<VerifierId>, v: VerifierId): (r: Option<nat>)
    ensures r.Some? <==> v in ids
    ensures r.Some? ==> r.value < |ids| && ids[r.value] == v
  {
    if ids == [] then None
    else if ids[0] == v then Some(0)
    else
      var p := Position(ids[1..], v);
      if p.Some? then Some(p.value + 1) else None
  }

  /** A lookup's result: both lookups panic at a position whose identifier would be zero. */
  datatype Lookup<+T> = Found(value: T) | Absent | Panic

  function VidToIdentifier(ids: seq<VerifierId>, v: VerifierId): Lookup<nat> {
    var p := Position(ids, v);
    if p.None? then Absent
    else
      var id := FrostIdAt(p.value);
      if id.None? then Panic else Found(id.value)
  }

  /** The participant at position `id - 1`. */
  function VidOf(ids: seq<VerifierId>, id: nat): Option<VerifierId> {
    if 1 <= id <= |ids| then Some(ids[id - 1]) else None
  }

  /** What the reverse lookup finds: position `id - 1` within sixteen bits; otherwise it runs into the end or panics. */
  function SearchResult(ids: seq<VerifierId>, id: nat): Lookup<VerifierId> {
    if VidOf(ids, id).Some? && id <= 65535 then Found(VidOf(ids, id).value)
    else if |ids| <= 65535 then Absent
    else Panic
  }

  /** Reverse lookup: the first position whose identifier is `id`. */
  method IdentifierToVid(ids: seq<VerifierId>, id: nat) returns (r: Lookup<VerifierId>)
    ensures r == SearchResult(ids, id)
  {
    for pos := 0 to |ids|
      invariant pos <= 65535 && !(1 <= id <= pos)
    {
      var frostId := FrostIdAt(pos);
      if frostId.None? { return Panic; }
      if frostId.value == id { return Found(ids[pos]); }
    }
    return Absent;
  }

  lemma {:induction false} PositionIs(ids: seq<VerifierId>, i: nat)
    requires NoDuplicates(ids) && i < |ids|
    ensures Position(ids, ids[i]) == Some(i)
  {
    var p := Position(ids, ids[i]).value;
    assert p == i;
  }

  /** Both lookups are mutually inverse on a participant list. */
  ghost predicate LookupsInverse(ids: seq<VerifierId>) {
    && (forall v :: v in ids ==>
          VidToIdentifier(ids, v).Found? && SearchResult(ids, VidToIdentifier(ids, v).value) == Found(v))
    && (forall id :: 1 <= id <= |ids| ==>
          SearchResult(ids, id) == Found(ids[id - 1]) && VidToIdentifier(ids, ids[id - 1]) == Found(id))
  }

  /** The lookups are mutually inverse exactly when every position plus one fits in sixteen bits. */
  lemma {:induction false} LookupsInverseExactly(ids: seq<VerifierId>)
    requires NoDuplicates(ids)
    ensures LookupsInverse(ids) <==> |ids| <= 65535
  {
    if |ids| <= 65535 {
      forall i | 0 <= i < |ids|
        ensures VidToIdentifier(ids, ids[i]) == Found(i + 1) && SearchResult(ids, i + 1) == Found(ids[i])
      {
        PositionIs(ids, i);
      }
    } else {
      PositionIs(ids, 65535);
      assert FrostIdAt(65535) == None;
      assert ids[65535] in ids;
    }
  }

  /**
   * With 65537 participants the first and the last share identifier 1, the one before the last has none, and
   * the reverse lookup of a missing identifier panics.
   */
  lemma {:induction false} IdentifierCollision(ids: seq<VerifierId>)
    requires NoDuplicates(ids) && |ids| == 65537
    ensures VidToIdentifier(ids, ids[0]) == VidToIdentifier(ids, ids[65536]) == Found(1)
    ensures VidToIdentifier(ids, ids[65535]) == Panic && SearchResult(ids, 0) == Panic
  {
    PositionIs(ids, 0);
    PositionIs(ids, 65535);
    PositionIs(ids, 65536);
  }

  // ---- Packages keyed by verifier and by identifier ----

  /** The same packages keyed by identifier; `None` if a sender is not a participant. */
  function ByIdentifier<P>(ids: seq<VerifierId>, m: map<VerifierId, P>): Option<map<nat, P>> {
    if m.Keys <= SetOf(ids)
    then Some(map i | 1 <= i <= |ids| && VidOf(ids, i).value in m :: m[VidOf(ids, i).value])
    else None
  }

  /** The same packages keyed by verifier; `None` if an identifier belongs to nobody. */
  function ByVerifier<P>(ids: seq<VerifierId>, m: map<nat, P>): Option<map<VerifierId, P>> {
    if forall id :: id in m ==> VidOf(ids, id).Some?
    then Some(map v | v in ids && Position(ids, v).value + 1 in m :: m[Position(ids, v).value + 1])
    else None
  }

  /** A participant's identifier is one more than its position, and nobody else has it. */
  lemma {:induction false} IdentifierOf(ids: seq<VerifierId>, v: VerifierId)
    requires NoDuplicates(ids) && |ids| <= 65535 && v in ids
    ensures var id := Position(ids, v).value + 1;
            && VidToIdentifier(ids, v) == Found(id) && VidOf(ids, id) == Some(v)
            && forall i :: VidOf(ids, i) == Some(v) ==> i == id
  {
    forall i: nat | VidOf(ids, i) == Some(v) ensures i == Position(ids, v).value + 1 {
      PositionIs(ids, i - 1);
    }
  }

  /** The participant list fits the identifiers. */
  ghost predicate Fits(ids: seq<VerifierId>) {
    NoDuplicates(ids) && |ids| <= 65535
  }

  function Of<T>(o: Option<T>): Lookup<T> {
    if o.None? then Absent else Found(o.value)
  }

  method ToIdentifiers<P>(ids: seq<VerifierId>, m: map<VerifierId, P>) returns (r: Lookup<map<nat, P>>)
    ensures Fits(ids) ==> r == Of(ByIdentifier(ids, m))
    ensures r.Panic? ==> |ids| > 65535
  {
    hide Position, NoDuplicates, FrostIdAt;
    var out: map<nat, P> := map[];
    var todo := m.Keys;
    while todo != {}
      invariant todo <= m.Keys && m.Keys - todo <= SetOf(ids)
      invariant Fits(ids) ==> forall i :: i in out <==> VidOf(ids, i).Some? && VidOf(ids, i).value in m.Keys - todo
      invariant Fits(ids) ==> forall i :: i in out ==> out[i] == m[VidOf(ids, i).value]
      decreases |todo|
    {
      var v :| v in todo;
      PanicsOnlyBeyond(ids, v);
      if v in ids && Fits(ids) { IdentifierOf(ids, v); }
      var id := VidToIdentifier(ids, v);
      if id.Absent? { return Absent; }
      if id.Panic? { return Panic; }
      todo := todo - {v};
      out := out[id.value := m[v]];
    }
    assert Fits(ids) ==> out == ByIdentifier(ids, m).value;
    return Found(out);
  }

  lemma {:induction false} PanicsOnlyBeyond(ids: seq<VerifierId>, v: VerifierId)
    ensures VidToIdentifier(ids, v).Panic? ==> |ids| > 65535
    ensures VidToIdentifier(ids, v).Absent? <==> v !in ids
  {
  }

  method ToVerifiers<P>(ids: seq<VerifierId>, m: map<nat, P>) returns (r: Lookup<map<VerifierId, P>>)
    ensures Fits(ids) ==> r == Of(ByVerifier(ids, m))
    ensures r.Panic? ==> |ids| > 65535
  {
    hide Position, NoDuplicates, FrostIdAt;
    var out: map<VerifierId, P> := map[];
    var todo := m.Keys;
    while todo != {}
      invariant todo <= m.Keys && forall id :: id in m.Keys - todo ==> VidOf(ids, id).Some?
      invariant Fits(ids) ==> forall v :: v in out <==> v in ids && Position(ids, v).value + 1 in m.Keys - todo
      invariant Fits(ids) ==> forall v :: v in out ==> out[v] == m[Position(ids, v).value + 1]
      decreases |todo|
    {
      var id :| id in todo;
      var v := IdentifierToVid(ids, id);
      if v.Absent? { return Absent; }
      if v.Panic? { return Panic; }
      todo := todo - {id};
      if Fits(ids) { PositionIs(ids, id - 1); }
      out := out[v.value := m[id]];
    }
    assert Fits(ids) ==> out == ByVerifier(ids, m).value;
    return Found(out);
  }

  lemma {:induction false} SameKey<P>(ids: seq<VerifierId>, m: map<VerifierId, P>, v: VerifierId)
    requires NoDuplicates(ids) && |ids| <= 65535 && m.Keys <= SetOf(ids) && v in ids
    ensures var id := Position(ids, v).value + 1;
            var byId := ByIdentifier(ids, m).value;
            (v in m <==> id in byId) && (v in m ==> byId[id] == m[v])
  {
    hide Position, NoDuplicates;
    IdentifierOf(ids, v);
  }

  lemma {:induction false} InSetOf(ids: seq<VerifierId>, v: VerifierId)
    ensures v in SetOf(ids) <==> v in ids
  {
  }

  lemma {:induction false} ReadBack<P>(ids: seq<VerifierId>, byId: map<nat, P>, m: map<VerifierId, P>)
    requires ByVerifier(ids, byId).Some? && ByVerifier(ids, byId).value.Keys == m.Keys
    requires forall v :: v in m ==>
               v in ids && Position(ids, v).value + 1 in byId && byId[Position(ids, v).value + 1] == m[v]
    ensures ByVerifier(ids, byId) == Some(m)
  {
    hide Position;
    var back := ByVerifier(ids, byId).value;
    assert forall v :: v in m ==> back[v] == m[v];
    assert back == m;
  }

  lemma {:induction false} Identified<P>(ids: seq<VerifierId>, m: map<VerifierId, P>)
    requires m.Keys <= SetOf(ids)
    ensures ByIdentifier(ids, m).Some?
  {
    hide SetOf;
  }

  /** Keying by identifier and back returns the packages. */
  lemma {:induction false} KeysRoundTrip<P>(ids: seq<VerifierId>, m: map<VerifierId, P>)
    requires NoDuplicates(ids) && |ids| <= 65535 && m.Keys <= SetOf(ids)
    ensures ByVerifier(ids, ByIdentifier(ids, m).value) == Some(m)
  {
    hide *;
    Identified(ids, m);
    var byId := ByIdentifier(ids, m).value;
    ReplyKeys(ids, m, byId);
    forall v | v in m
      ensures v in ids && Position(ids, v).value + 1 in byId && byId[Position(ids, v).value + 1] == m[v]
    {
      assert v in SetOf(ids) by { assert v in m.Keys; }
      InSetOf(ids, v);
      SameKey(ids, m, v);
    }
    ReadBack(ids, byId, m);
  }

  /** A reply keyed like the request goes to exactly the senders of the request. */
  lemma {:induction false} ReplyKeys<P, Q>(ids: seq<VerifierId>, m: map<VerifierId, P>, reply: map<nat, Q>)
    requires NoDuplicates(ids) && |ids| <= 65535 && m.Keys <= SetOf(ids) &&
             reply.Keys == ByIdentifier(ids, m).value.Keys
    ensures ByVerifier(ids, reply).Some? && ByVerifier(ids, reply).value.Keys == m.Keys
  {
    hide Position, NoDuplicates;
    forall id | id in reply ensures VidOf(ids, id).Some? {
    }
    var out := ByVerifier(ids, reply).value;
    hide ByIdentifier;
    forall v | v in ids ensures v in m <==> v in out {
      SameKey(ids, m, v);
    }
    assert forall v :: v in m ==> v in SetOf(ids);
  }

  // ---- The state machine ----

  datatype DkgError =
    | TooFewParticipants
    | DuplicateParticipants
    | BadThreshold
    | NotAParticipant
    | NoIdentifier
    | AlreadyDone
    | TooEarly
    | CeremonyFailed
    | UnknownVerifier
    | UnknownIdentifier
    | Panicked
    | Library

  datatype NodeState =
    | Initial
    | AfterPart1(r1: Round1State)
    | AfterPart2(r2: Round2State, packages: map<nat, Round1Package>)
    | Completed
    | Failed(reason: string)

  const PART2_FAILED := "part2 did not complete successfully - round1_state consumed"

  /** What a node is created with; it never changes. */
  datatype Config = Config(vid: VerifierId, identifier: nat, ids: seq<VerifierId>, maxSigners: u16, minSigners: u16) {
    ghost predicate Valid() {
      NoDuplicates(ids) && |ids| <= 65535 && vid in ids && VidToIdentifier(ids, vid) == Found(identifier)
    }
  }

  function Part1Step(f: Frost, c: Config, s: NodeState, seed: Seed): (NodeState, Result<Round1Package, DkgError>) {
    match s
    case Initial =>
      var out := f.part1(c.identifier, c.maxSigners, c.minSigners, seed);
      if out.None? then (s, Err(Library)) else (AfterPart1(out.value.0), Ok(out.value.1))
    case Failed(_) => (s, Err(CeremonyFailed))
    case _ => (s, Err(AlreadyDone))
  }

  function Part2Step(f: Frost, c: Config, s: NodeState, inbox: map<VerifierId, Round1Package>)
    : (NodeState, Result<map<VerifierId, Round2Package>, DkgError>)
  {
    match s
    case Initial => (s, Err(TooEarly))
    case AfterPart1(r1) =>
      var packages := ByIdentifier(c.ids, inbox);
      if packages.None? then (s, Err(UnknownVerifier)) else
      var out := f.part2(r1, packages.value);
      if out.None? then (Failed(PART2_FAILED), Err(Library)) else
      var addressed := ByVerifier(c.ids, out.value.1);
      if addressed.None? then (Failed(PART2_FAILED), Err(UnknownIdentifier))
      else (AfterPart2(out.value.0, packages.value), Ok(addressed.value))
    case AfterPart2(_, _) => (s, Err(AlreadyDone))
    case Completed => (s, Err(AlreadyDone))
    case Failed(_) => (s, Err(CeremonyFailed))
  }

  function Part3Step(f: Frost, c: Config, s: NodeState, inbox: map<VerifierId, Round2Package>)
    : (NodeState, Result<(Share, GroupKey), DkgError>)
  {
    match s
    case AfterPart2(r2, r1Packages) =>
      var packages := ByIdentifier(c.ids, inbox);
      if packages.None? then (s, Err(UnknownVerifier)) else
      var out := f.part3(c.vid, c.identifier, r2, r1Packages, packages.value, c.ids);
      if out.None? then (s, Err(Library)) else (Completed, Ok(out.value))
    case Completed => (s, Err(AlreadyDone))
    case Failed(_) => (s, Err(CeremonyFailed))
    case _ => (s, Err(TooEarly))
  }

  class FrostDkgNode {
    const config: Config
    var state: NodeState

    constructor (config: Config)
      ensures this.config == config && state == Initial
    {
      this.config := config;
      state := Initial;
    }

    static method Create(vid: VerifierId, ids: seq<VerifierId>, minSigners: u16)
      returns (r: Result<FrostDkgNode, DkgError>)
      ensures r.Ok? <==> |ids| >= 2 && NoDuplicates(ids) && 2 <= minSigners <= |ids| && VidToIdentifier(ids, vid).Found?
      ensures r.Ok? ==>
                && fresh(r.value) && r.value.state == Initial
                && r.value.config == Config(vid, VidToIdentifier(ids, vid).value, ids, |ids| % 0x1_0000, minSigners)
                && (r.value.config.Valid() <==> |ids| <= 65535)
    {
      DistinctSize(ids);
      if |ids| < 2 { return Err(TooFewParticipants); }
      if |SetOf(ids)| != |ids| { return Err(DuplicateParticipants); }
      if minSigners < 2 || minSigners > |ids| { return Err(BadThreshold); }
      var position := Position(ids, vid);
      if position.None? { return Err(NotAParticipant); }
      var identifier := FrostIdAt(position.value);
      if identifier.None? { return Err(NoIdentifier); }
      var node := new FrostDkgNode(Config(vid, identifier.value, ids, |ids| % 0x1_0000, minSigners));
      return Ok(node);
    }

    method Part1(f: Frost, seed: Seed) returns (r: Result<Round1Package, DkgError>)
      modifies this
      ensures (state, r) == Part1Step(f, config, old(state), seed)
    {
      match state {
        case Initial =>
        case Failed(_) => return Err(CeremonyFailed);
        case _ => return Err(AlreadyDone);
      }
      var out := f.part1(config.identifier, config.maxSigners, config.minSigners, seed);
      if out.None? { return Err(Library); }
      state := AfterPart1(out.value.0);
      return Ok(out.value.1);
    }

    method Part2(f: Frost,
                 inbox: map<VerifierId, Round1Package>) returns (r: Result<map<VerifierId, Round2Package>, DkgError>)
      modifies this
      ensures config.Valid() ==> (state, r) == Part2Step(f, config, old(state), inbox)
      ensures r.Ok? ==> old(state).AfterPart1? && state.AfterPart2?
      ensures r.Err? ==> state == old(state) || (old(state).AfterPart1? && state == Failed(PART2_FAILED))
    {
      match state {
        case AfterPart1(_) =>
        case Initial => return Err(TooEarly);
        case Failed(_) => return Err(CeremonyFailed);
        case _ => return Err(AlreadyDone);
      }
      var packages := ToIdentifiers(config.ids, inbox);
      if packages.Absent? { return Err(UnknownVerifier); }
      if packages.Panic? { return Err(Panicked); }
      var r1 := state.r1;
      state := Failed(PART2_FAILED);
      var out := f.part2(r1, packages.value);
      if out.None? { return Err(Library); }
      var addressed := ToVerifiers(config.ids, out.value.1);
      if addressed.Absent? { return Err(UnknownIdentifier); }
      if addressed.Panic? { return Err(Panicked); }
      state := AfterPart2(out.value.0, packages.value);
      return Ok(addressed.value);
    }

    method Part3(f: Frost, inbox: map<VerifierId, Round2Package>) returns (r: Result<(Share, GroupKey), DkgError>)
      modifies this
      ensures config.Valid() ==> (state, r) == Part3Step(f, config, old(state), inbox)
      ensures r.Ok? ==> old(state).AfterPart2? && state == Completed
      ensures r.Err? ==> state == old(state)
    {
      match state {
        case AfterPart2(_, _) =>
        case Completed => return Err(AlreadyDone);
        case Failed(_) => return Err(CeremonyFailed);
        case _ => return Err(TooEarly);
      }
      var packages := ToIdentifiers(config.ids, inbox);
      if packages.Absent? { return Err(UnknownVerifier); }
      if packages.Panic? { return Err(Panicked); }
      var out := f.part3(config.vid, config.identifier, state.r2, state.packages, packages.value, config.ids);
      if out.None? { return Err(Library); }
      state := Completed;
      return Ok(out.value);
    }
  }

  // ---- Every sequence of calls ----

  datatype Call =
    | CallPart1(seed: Seed)
    | CallPart2(round1: map<VerifierId, Round1Package>)
    | CallPart3(round2: map<VerifierId, Round2Package>)
  {
    function Part(): nat {
      match this
      case CallPart1(_) => 1
      case CallPart2(_) => 2
      case CallPart3(_) => 3
    }
  }

  /** The state after one call, and whether the call succeeded. */
  function CallStep(f: Frost, c: Config, s: NodeState, call: Call): (NodeState, bool) {
    match call
    case CallPart1(seed) => var o := Part1Step(f, c, s, seed); (o.0, o.1.Ok?)
    case CallPart2(inbox) => var o := Part2Step(f, c, s, inbox); (o.0, o.1.Ok?)
    case CallPart3(inbox) => var o := Part3Step(f, c, s, inbox); (o.0, o.1.Ok?)
  }

  function Run(f: Frost, c: Config, s: NodeState, calls: seq<Call>): NodeState
    decreases |calls|
  {
    if calls == [] then s else Run(f, c, CallStep(f, c, s, calls[0]).0, calls[1..])
  }

  /** The parts that succeeded, in order. */
  function Successes(f: Frost, c: Config, s: NodeState, calls: seq<Call>): seq<nat>
    decreases |calls|
  {
    if calls == [] then []
    else
      var o := CallStep(f, c, s, calls[0]);
      (if o.1 then [calls[0].Part()] else []) + Successes(f, c, o.0, calls[1..])
  }

  /** A call hands the round-1 secret to the library. */
  ghost predicate TakesSecret(c: Config, s: NodeState, call: Call) {
    s.AfterPart1? && call.CallPart2? && call.round1.Keys <= SetOf(c.ids)
  }

  /** How often the round-1 secret was handed over. */
  ghost function SecretsTaken(f: Frost, c: Config, s: NodeState, calls: seq<Call>): nat
    decreases |calls|
  {
    if calls == [] then 0
    else (if TakesSecret(c, s, calls[0]) then 1 else 0) + SecretsTaken(f, c, CallStep(f, c, s, calls[0]).0, calls[1..])
  }

  /** How many parts a node in this state has completed. */
  function PartsDone(s: NodeState): nat {
    match s
    case Initial => 0
    case AfterPart1(_) => 1
    case Failed(_) => 1
    case AfterPart2(_, _) => 2
    case Completed => 3
  }

  predicate SecretSpent(s: NodeState) {
    s.AfterPart2? || s.Completed? || s.Failed?
  }

  /** A refused call changes nothing, unless it had already handed the round-1 secret over. */
  lemma {:induction false} RefusedCall(f: Frost, c: Config, s: NodeState, call: Call)
    requires !CallStep(f, c, s, call).1
    ensures CallStep(f, c, s, call).0 == (if TakesSecret(c, s, call) then Failed(PART2_FAILED) else s)
  {
    match call {
      case CallPart1(seed) =>
      case CallPart2(inbox) =>
      case CallPart3(inbox) =>
    }
  }

  /** Why a part is refused: done before, too early, or in a node that has failed, and only then for these reasons. */
  lemma {:induction false} RefusalMeans(f: Frost, c: Config, s: NodeState, seed: Seed,
                                        round1: map<VerifierId, Round1Package>, round2: map<VerifierId, Round2Package>)
    ensures var r1, r2, r3 := Part1Step(f, c, s, seed).1, Part2Step(f, c, s, round1).1, Part3Step(f, c, s, round2).1;
            && (r1 == Err(CeremonyFailed) <==> s.Failed?) && (r2 == Err(CeremonyFailed) <==> s.Failed?)
            && (r3 == Err(CeremonyFailed) <==> s.Failed?)
            && (!s.Failed? ==>
                  && (r1 == Err(AlreadyDone) <==> PartsDone(s) >= 1) && (r2 == Err(AlreadyDone) <==> PartsDone(s) >= 2)
                  && (r3 == Err(AlreadyDone) <==> PartsDone(s) >= 3) && r1 != Err(TooEarly)
                  && (r2 == Err(TooEarly) <==> PartsDone(s) < 1) && (r3 == Err(TooEarly) <==> PartsDone(s) < 2))
  {
    hide ByIdentifier, ByVerifier;
    match s {
      case Initial =>
      case AfterPart1(_) =>
      case AfterPart2(_, _) =>
      case Completed =>
      case Failed(_) =>
    }
  }

  /** From any state: what succeeds is the next parts in order, and the secret goes out once at most. */
  lemma {:induction false} RunFrom(f: Frost, c: Config, s: NodeState, calls: seq<Call>)
    ensures var t := Run(f, c, s, calls);
            && PartsDone(s) <= PartsDone(t)
            && Successes(f, c, s, calls) == [1, 2, 3][PartsDone(s)..PartsDone(t)]
            && SecretsTaken(f, c, s, calls) == (if SecretSpent(t) && !SecretSpent(s) then 1 else 0)
            && (SecretSpent(s) ==> SecretSpent(t))
            && (s.Completed? || s.Failed? ==> t == s)
    decreases |calls|
  {
    if calls != [] {
      var next := CallStep(f, c, s, calls[0]).0;
      RunFrom(f, c, next, calls[1..]);
      StepOnce(f, c, s, calls[0]);
      var t := Run(f, c, s, calls);
      var all := [1, 2, 3];
      assert all[PartsDone(s)..PartsDone(t)] == all[PartsDone(s)..PartsDone(next)] + all[PartsDone(next)..PartsDone(t)];
    }
  }

  lemma {:induction false} StepOnce(f: Frost, c: Config, s: NodeState, call: Call)
    ensures var o := CallStep(f, c, s, call);
            && PartsDone(s) <= PartsDone(o.0)
            && (if o.1 then [call.Part()] else []) == [1, 2, 3][PartsDone(s)..PartsDone(o.0)]
            && (TakesSecret(c, s, call) <==> SecretSpent(o.0) && !SecretSpent(s))
            && (SecretSpent(s) ==> SecretSpent(o.0))
            && (s.Completed? || s.Failed? ==> o.0 == s)
  {
    match call {
      case CallPart1(seed) =>
      case CallPart2(inbox) =>
      case CallPart3(inbox) =>
    }
  }

  /**
   * Every sequence of calls on a new node: each part succeeds at most once and in order, the
   * round-1 secret is used at most once, and the state shows exactly how far the node got.
   */
  lemma {:induction false} EveryCallSequence(f: Frost, c: Config, calls: seq<Call>)
    ensures var t := Run(f, c, Initial, calls);
            && Successes(f, c, Initial, calls) == [1, 2, 3][..PartsDone(t)]
            && SecretsTaken(f, c, Initial, calls) == (if SecretSpent(t) then 1 else 0)
            && (forall more :: Run(f, c, Initial, calls + more) == Run(f, c, t, more))
            && (t.Completed? || t.Failed? ==> forall more :: Run(f, c, t, more) == t)
  {
    RunFrom(f, c, Initial, calls);
    var t := Run(f, c, Initial, calls);
    forall more ensures Run(f, c, Initial, calls + more) == Run(f, c, t, more) {
      RunConcat(f, c, Initial, calls, more);
    }
    forall more ensures t.Completed? || t.Failed? ==> Run(f, c, t, more) == t {
      RunFrom(f, c, t, more);
    }
  }

  lemma {:induction false} RunConcat(f: Frost, c: Config, s: NodeState, a: seq<Call>, b: seq<Call>)
    ensures Run(f, c, s, a + b) == Run(f, c, Run(f, c, s, a), b)
    decreases |a|
  {
    if a == [] {
      assert a + b == b;
    } else {
      assert (a + b)[1..] == a[1..] + b;
      RunConcat(f, c, CallStep(f, c, s, a[0]).0, a[1..], b);
    }
  }
}
