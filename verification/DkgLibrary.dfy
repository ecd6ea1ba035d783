/** The key-generation ceremony told through the FROST library's calls alone. */
module DkgLibrary {
  import opened Wrappers
  import opened Ids
  import opened Quorum
  import opened DkgNode
  import opened DkgCeremony

  // ---- What every participant asks of the library ----

  /** Part 1 of participant `i`: its identifier, the two signer counts and its randomness. */
  ghost function Call1(p: Plan, i: nat): Option<(Round1State, Round1Package)>
    requires p.Valid() && i < |p.configs|
  {
    var c := p.configs[i];
    p.frost.part1(c.identifier, c.maxSigners, c.minSigners, p.seeds[i])
  }

  ghost predicate Calls1(p: Plan)
    requires p.Valid()
  {
    forall i :: 0 <= i < |p.configs| ==> Call1(p, i).Some?
  }

  /** The round-1 packages participant `i` works with: every other participant's, by identifier. */
  ghost function Round1For(p: Plan, i: nat): map<nat, Round1Package>
    requires p.Valid() && i < |p.configs| && Calls1(p)
  {
    DistinctIdentifiers(p);
    map j | 0 <= j < |p.configs| && j != i :: p.configs[j].identifier := Call1(p, j).value.1
  }

  /** Part 2 of participant `i`: the state part 1 returned, and the other participants' packages. */
  ghost function Call2(p: Plan, i: nat): Option<(Round2State, map<nat, Round2Package>)>
    requires p.Valid() && i < |p.configs| && Calls1(p)
  {
    p.frost.part2(Call1(p, i).value.0, Round1For(p, i))
  }

  ghost predicate Calls2(p: Plan)
    requires p.Valid()
  {
    Calls1(p) && forall i :: 0 <= i < |p.configs| ==> Call2(p, i).Some?
  }

  /** The round-2 packages made for participant `i`: from every other participant, the one addressed to `i`. */
  ghost function Round2For(p: Plan, i: nat): map<nat, Round2Package>
    requires p.Valid() && i < |p.configs| && p.frost.Lawful() && Calls2(p)
  {
    DistinctIdentifiers(p);
    var me := p.configs[i].identifier;
    forall j | 0 <= j < |p.configs| && j != i ensures me in Call2(p, j).value.1 { Addressed(p, j, i); }
    map j | 0 <= j < |p.configs| && j != i :: p.configs[j].identifier := Call2(p, j).value.1[me]
  }

  /** Part 3 of participant `i`: the state part 2 returned, and what the others made in both rounds. */
  ghost function Call3(p: Plan, i: nat): Option<(Share, GroupKey)>
    requires p.Valid() && i < |p.configs| && p.frost.Lawful() && Calls2(p)
  {
    var c := p.configs[i];
    p.frost.part3(c.vid, c.identifier, Call2(p, i).value.0, Round1For(p, i), Round2For(p, i), c.ids)
  }

  ghost predicate Calls3(p: Plan)
    requires p.Valid() && p.frost.Lawful()
  {
    Calls2(p) && forall i :: 0 <= i < |p.configs| ==> Call3(p, i).Some?
  }

  // ---- Identifiers of the participants ----

  lemma {:induction false} IdentifierNames(p: Plan, i: nat)
    requires p.Valid() && i < |p.configs|
    ensures var ids, id := p.configs[0].ids, p.configs[i].identifier;
            && p.Vid(i) in ids && id == Position(ids, p.Vid(i)).value + 1 && VidOf(ids, id) == Some(p.Vid(i))
            && forall k :: VidOf(ids, k) == Some(p.Vid(i)) ==> k == id
  {
    hide Position, NoDuplicates;
    IdentifierOf(p.configs[i].ids, p.Vid(i));
  }

  lemma {:induction false} DistinctVids(p: Plan, i: nat, j: nat)
    requires p.Valid() && i < |p.configs| && j < |p.configs| && i != j
    ensures p.Vid(i) != p.Vid(j)
  {
    hide Config.Valid;
    if i < j { assert p.configs[i].vid != p.configs[j].vid; } else { assert p.configs[j].vid != p.configs[i].vid; }
  }

  lemma {:induction false} DistinctIdentifiers(p: Plan)
    requires p.Valid()
    ensures forall i, j :: 0 <= i < |p.configs| && 0 <= j < |p.configs| && i != j ==>
              p.configs[i].identifier != p.configs[j].identifier
  {
    forall i, j | 0 <= i < |p.configs| && 0 <= j < |p.configs| && i != j
      ensures p.configs[i].identifier != p.configs[j].identifier
    {
      hide Plan.Valid, VidOf, Position;
      IdentifierNames(p, i);
      IdentifierNames(p, j);
      DistinctVids(p, i, j);
    }
  }

  lemma {:induction false} Addressed(p: Plan, j: nat, i: nat)
    requires p.Valid() && i < |p.configs| && j < |p.configs| && i != j && p.frost.Lawful() && Calls2(p)
    ensures p.configs[i].identifier in Call2(p, j).value.1
  {
    hide Config.Valid, Frost.Lawful, Call1;
    assert Call2(p, j).Some?;
    LawfulKeys(p.frost, Call1(p, j).value.0, Round1For(p, j));
    assert p.configs[i].identifier in Round1For(p, j).Keys;
  }

  /** Only other participants have sent something. */
  ghost predicate FromOthers<P>(p: Plan, i: nat, byVid: map<VerifierId, P>) {
    forall v :: v in byVid ==> exists j :: 0 <= j < |p.configs| && j != i && p.Vid(j) == v
  }

  ghost predicate FromOtherIds<P>(p: Plan, i: nat, byId: map<nat, P>) {
    forall id :: id in byId ==> exists j :: 0 <= j < |p.configs| && j != i && p.configs[j].identifier == id
  }

  /** Participant `j` has sent the same under its identity and under its identifier. */
  ghost predicate SentAlike<P>(p: Plan, j: nat, byVid: map<VerifierId, P>, byId: map<nat, P>)
    requires j < |p.configs|
  {
    p.Vid(j) in byVid && p.configs[j].identifier in byId && byVid[p.Vid(j)] == byId[p.configs[j].identifier]
  }

  /** Packages of all other participants by sender, and the same by identifier. */
  ghost predicate SamePackages<P>(p: Plan, i: nat, byVid: map<VerifierId, P>, byId: map<nat, P>) {
    && FromOthers(p, i, byVid) && FromOtherIds(p, i, byId)
    && forall j :: 0 <= j < |p.configs| && j != i ==> SentAlike(p, j, byVid, byId)
  }

  lemma {:induction false} OtherSender<P>(p: Plan, i: nat, byVid: map<VerifierId, P>, byId: map<nat, P>, v: VerifierId)
    returns (j: nat)
    requires p.Valid() && i < |p.configs| && SamePackages(p, i, byVid, byId) && v in byVid
    ensures j < |p.configs| && j != i && p.Vid(j) == v && p.configs[j].identifier in byId
    ensures byVid[v] == byId[p.configs[j].identifier]
  {
    hide Plan.Valid, FromOtherIds;
    j :| 0 <= j < |p.configs| && j != i && p.Vid(j) == v;
    assert SentAlike(p, j, byVid, byId);
  }

  lemma {:induction false} OtherIdentifier<P>(p: Plan, i: nat, byVid: map<VerifierId, P>, byId: map<nat, P>, id: nat)
    returns (j: nat)
    requires p.Valid() && i < |p.configs| && SamePackages(p, i, byVid, byId) && id in byId
    ensures j < |p.configs| && j != i && p.configs[j].identifier == id && p.Vid(j) in byVid
  {
    hide Plan.Valid, FromOthers;
    j :| 0 <= j < |p.configs| && j != i && p.configs[j].identifier == id;
    assert SentAlike(p, j, byVid, byId);
  }

  lemma {:induction false} Keyed<P>(p: Plan, i: nat, byVid: map<VerifierId, P>, byId: map<nat, P>)
    requires p.Valid() && i < |p.configs| && SamePackages(p, i, byVid, byId)
    ensures ByIdentifier(p.configs[0].ids, byVid) == Some(byId)
  {
    hide Plan.Valid, Position, SamePackages, SetOf;
    var ids := p.configs[0].ids;
    forall v | v in byVid.Keys ensures v in SetOf(ids) {
      var j := OtherSender(p, i, byVid, byId, v);
      IdentifierNames(p, j);
      InSetOf(ids, v);
    }
    var out := ByIdentifier(ids, byVid).value;
    forall id | id in out ensures id in byId && byId[id] == out[id] {
      var j := OtherSender(p, i, byVid, byId, VidOf(ids, id).value);
      IdentifierNames(p, j);
    }
    forall id | id in byId ensures id in out {
      var j := OtherIdentifier(p, i, byVid, byId, id);
      IdentifierNames(p, j);
    }
    assert out == byId;
  }

  // ---- The ceremony is these calls ----

  lemma {:induction false} FirstIs(p: Plan, i: nat)
    requires p.Valid() && i < |p.configs|
    ensures var call := Call1(p, i);
            && (p.First(i).1.Ok? <==> call.Some?)
            && (call.Some? ==> p.First(i) == (AfterPart1(call.value.0), Ok(call.value.1)))
  {
  }

  lemma {:induction false} FirstOkIs(p: Plan)
    requires p.Valid()
    ensures p.FirstOk(|p.configs|) <==> Calls1(p)
  {
    hide Config.Valid, Plan.First, Call1;
    forall i | 0 <= i < |p.configs| ensures p.First(i).1.Ok? <==> Call1(p, i).Some? { FirstIs(p, i); }
  }

  lemma {:induction false} Round1Has(p: Plan, i: nat)
    requires p.Valid() && i < |p.configs| && Calls1(p)
    ensures FromOtherIds(p, i, Round1For(p, i))
    ensures forall j :: 0 <= j < |p.configs| && j != i ==>
              && p.configs[j].identifier in Round1For(p, i)
              && Round1For(p, i)[p.configs[j].identifier] == Call1(p, j).value.1
  {
    hide Plan.Valid, Call1;
    DistinctIdentifiers(p);
  }

  lemma {:induction false} OthersBroadcast(p: Plan, i: nat)
    requires p.Valid() && i < |p.configs| && p.FirstOk(|p.configs|)
    ensures var others := p.Broadcast(|p.configs|) - {p.Vid(i)};
            && FromOthers(p, i, others)
            && (forall j :: 0 <= j < |p.configs| && j != i ==>
                  p.Vid(j) in others && others[p.Vid(j)] == p.First(j).1.value)
  {
    hide Plan.Valid, Plan.First, Plan.Broadcast;
    BroadcastIs(p, |p.configs|);
    forall j | 0 <= j < |p.configs| && j != i ensures p.Vid(j) != p.Vid(i) && p.Vid(j) in p.Broadcast(|p.configs|) {
      DistinctVids(p, i, j);
    }
  }

  lemma {:induction false} OthersInbox(p: Plan, i: nat)
    requires p.Valid() && i < |p.configs| && p.frost.Lawful() && p.SecondOk(|p.configs|)
    ensures FromOthers(p, i, p.Inbox(|p.configs|, p.Vid(i)))
  {
    hide Plan.Valid, Plan.Second, Plan.Inbox, Frost.Lawful, Plan.SecondOk;
    InboxExact(p, i);
  }

  lemma {:induction false} BroadcastTo(p: Plan, i: nat, j: nat)
    requires p.Valid() && i < |p.configs| && j < |p.configs| && j != i && p.FirstOk(|p.configs|) && Calls1(p)
    ensures var byVid, byId := p.Broadcast(|p.configs|) - {p.Vid(i)}, Round1For(p, i);
            SentAlike(p, j, byVid, byId)
  {
    hide Plan.Valid, Plan.First, Plan.Broadcast, Call1, Round1For, Plan.FirstOk;
    OthersBroadcast(p, i);
    Round1Has(p, i);
    FirstIs(p, j);
  }

  lemma {:induction false} Round1Is(p: Plan, i: nat)
    requires p.Valid() && i < |p.configs| && p.FirstOk(|p.configs|) && Calls1(p)
    ensures ByIdentifier(p.configs[0].ids, p.Broadcast(|p.configs|) - {p.Vid(i)}) == Some(Round1For(p, i))
  {
    hide Plan.Valid, Plan.First, Plan.Second, Plan.Broadcast, Plan.Inbox, Plan.FirstOk, Plan.SecondOk, Round1For,
      Round2For, Calls1, Calls2, Call1, Call2, Frost.Lawful, FromOthers, FromOtherIds, SentAlike, ByIdentifier;
    var byVid, byId := p.Broadcast(|p.configs|) - {p.Vid(i)}, Round1For(p, i);
    OthersBroadcast(p, i);
    Round1Has(p, i);
    forall j | 0 <= j < |p.configs| && j != i ensures SentAlike(p, j, byVid, byId) {
      BroadcastTo(p, i, j);
    }
    Keyed(p, i, byVid, byId);
  }

  /** Part 2 of a participant is its call on the other participants' part-1 packages. */
  lemma {:induction false} SecondIs(p: Plan, i: nat)
    requires p.Valid() && i < |p.configs| && p.frost.Lawful() && p.FirstOk(|p.configs|) && Calls1(p)
    ensures var call := Call2(p, i);
            && (p.Second(i).1.Ok? <==> call.Some?)
            && (call.Some? ==>
                  && p.Second(i).0 == AfterPart2(call.value.0, Round1For(p, i))
                  && ByVerifier(p.configs[0].ids, call.value.1) == Some(p.Second(i).1.value))
  {
    hide Config.Valid, Plan.First, Plan.Broadcast, Call1, ByIdentifier, ByVerifier, Frost.Lawful, Round1For;
    FirstIs(p, i);
    Round1Is(p, i);
    if Call2(p, i).Some? { RepliesAddressed(p, i); }
  }

  lemma {:induction false} RepliesAddressed(p: Plan, i: nat)
    requires p.Valid() && i < |p.configs| && p.frost.Lawful() && Calls1(p) && Call2(p, i).Some?
    ensures ByVerifier(p.configs[0].ids, Call2(p, i).value.1).Some?
  {
    hide Config.Valid, Frost.Lawful, Call1;
    LawfulKeys(p.frost, Call1(p, i).value.0, Round1For(p, i));
    forall id | id in Call2(p, i).value.1 ensures VidOf(p.configs[0].ids, id).Some? {
      assert id in Round1For(p, i).Keys;
      var j :| 0 <= j < |p.configs| && j != i && p.configs[j].identifier == id;
      IdentifierNames(p, j);
    }
  }

  lemma {:induction false} SecondOkIs(p: Plan)
    requires p.Valid() && p.frost.Lawful()
    ensures p.SecondOk(|p.configs|) <==> Calls2(p)
  {
    hide Config.Valid, Plan.Second, Call2, Frost.Lawful, Plan.FirstOk, Calls1;
    FirstOkIs(p);
    if Calls1(p) {
      forall i | 0 <= i < |p.configs| ensures p.Second(i).1.Ok? <==> Call2(p, i).Some? { SecondIs(p, i); }
    }
  }

  lemma {:induction false} SentIs(p: Plan, j: nat, i: nat)
    requires p.Valid() && i < |p.configs| && j < |p.configs| && i != j && p.frost.Lawful()
    requires p.SecondOk(|p.configs|) && Calls2(p)
    ensures p.Vid(i) in p.Second(j).1.value && p.configs[i].identifier in Call2(p, j).value.1
    ensures p.Second(j).1.value[p.Vid(i)] == Call2(p, j).value.1[p.configs[i].identifier]
  {
    hide Config.Valid, Plan.Second, Call2, Frost.Lawful, Position;
    SecondIs(p, j);
    Addressed(p, j, i);
    IdentifierNames(p, i);
  }

  lemma {:induction false} Round2Has(p: Plan, i: nat)
    requires p.Valid() && i < |p.configs| && p.frost.Lawful() && Calls2(p)
    ensures FromOtherIds(p, i, Round2For(p, i))
    ensures var me := p.configs[i].identifier;
            forall j :: 0 <= j < |p.configs| && j != i ==>
              && me in Call2(p, j).value.1 && p.configs[j].identifier in Round2For(p, i)
              && Round2For(p, i)[p.configs[j].identifier] == Call2(p, j).value.1[me]
  {
    hide Plan.Valid, Call2, Frost.Lawful;
    DistinctIdentifiers(p);
    forall j | 0 <= j < |p.configs| && j != i ensures p.configs[i].identifier in Call2(p, j).value.1 {
      Addressed(p, j, i);
    }
  }

  lemma {:induction false} DeliveredTo(p: Plan, i: nat, j: nat)
    requires p.Valid() && i < |p.configs| && j < |p.configs| && j != i && p.frost.Lawful()
    requires p.SecondOk(|p.configs|) && Calls2(p)
    ensures var byVid, byId := p.Inbox(|p.configs|, p.Vid(i)), Round2For(p, i);
            SentAlike(p, j, byVid, byId)
  {
    hide Plan.Valid, Plan.Second, Plan.Inbox, Call2, Frost.Lawful, Round2For;
    InboxExact(p, i);
    Round2Has(p, i);
    SentIs(p, j, i);
  }

  lemma {:induction false} Round2Is(p: Plan, i: nat)
    requires p.Valid() && i < |p.configs| && p.frost.Lawful() && p.SecondOk(|p.configs|) && Calls2(p)
    ensures ByIdentifier(p.configs[0].ids, p.Inbox(|p.configs|, p.Vid(i))) == Some(Round2For(p, i))
  {
    hide Plan.Valid, Plan.First, Plan.Second, Plan.Broadcast, Plan.Inbox, Plan.FirstOk, Plan.SecondOk, Round1For,
      Round2For, Calls1, Calls2, Call1, Call2, Frost.Lawful, FromOthers, FromOtherIds, SentAlike, ByIdentifier;
    var byVid, byId := p.Inbox(|p.configs|, p.Vid(i)), Round2For(p, i);
    OthersInbox(p, i);
    Round2Has(p, i);
    forall j | 0 <= j < |p.configs| && j != i ensures SentAlike(p, j, byVid, byId) {
      DeliveredTo(p, i, j);
    }
    Keyed(p, i, byVid, byId);
  }

  /** Part 3 of a participant is its call on the others' packages of both rounds. */
  lemma {:induction false} ThirdIs(p: Plan, i: nat)
    requires p.Valid() && i < |p.configs| && p.frost.Lawful() && p.SecondOk(|p.configs|) && Calls2(p)
    ensures var call := Call3(p, i);
            (p.Third(i).1.Ok? <==> call.Some?) && (call.Some? ==> p.Third(i) == (Completed, Ok(call.value)))
  {
    hide Plan.Second, Plan.Inbox, Call2, ByIdentifier, Frost.Lawful, Round1For, Round2For, NoDuplicates,
      VidToIdentifier;
    SecondIs(p, i);
    Round2Is(p, i);
  }

  /** The ceremony completes exactly when every library call does, and each node ends with what its part 3 returned. */
  lemma {:induction false} OutputsAreCalls(p: Plan)
    requires p.Valid() && p.frost.Lawful()
    ensures p.ThirdOk(|p.configs|) <==> Calls3(p)
    ensures Calls3(p) ==> forall i :: 0 <= i < |p.configs| ==> p.Outputs()[i] == Call3(p, i).value
  {
    hide Config.Valid, Plan.Third, Call3, Frost.Lawful, Plan.SecondOk, Calls2;
    SecondOkIs(p);
    if Calls2(p) {
      forall i | 0 <= i < |p.configs|
        ensures (p.Third(i).1.Ok? <==> Call3(p, i).Some?)
        ensures Call3(p, i).Some? ==> p.Third(i).1.value == Call3(p, i).value
      {
        ThirdIs(p, i);
      }
    }
  }

  /** A run's result on the library's answers: it succeeds when all calls do and derive one key, and returns those. */
  lemma {:induction false} CeremonyOnCalls(p: Plan, r: Result<(seq<Share>, GroupKey), CeremonyError>)
    requires p.Valid() && p.frost.Lawful() && CeremonyResult(p, r)
    ensures r.Ok? <==>
            && p.configs != [] && Calls3(p)
            && forall i :: 0 <= i < |p.configs| ==> Call3(p, i).value.1 == Call3(p, 0).value.1
    ensures r.Ok? ==>
              |r.value.0| == |p.configs| && forall i :: 0 <= i < |p.configs| ==>
                (r.value.0[i], r.value.1) == Call3(p, i).value
  {
    hide Config.Valid, Plan.Third, Call3, Frost.Lawful, Plan.SecondOk, Calls2;
    OutputsAreCalls(p);
  }
}
