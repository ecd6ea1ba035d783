/** The key-generation ceremony as a function of its inputs, and the run that passes packages in the clear. */
module DkgCeremony {
  import opened Wrappers
  import opened Ids
  import opened DkgNode

  /** One ceremony: the library, the participants in node order, and the randomness each draws. */
  datatype Plan = Plan(frost: Frost, configs: seq<Config>, seeds: seq<Seed>) {
    /** Distinct participants that agree on the participant list. */
    ghost predicate Valid() {
      && |seeds| == |configs|
      && (forall i :: 0 <= i < |configs| ==> configs[i].Valid() && configs[i].ids == configs[0].ids)
      && (forall i, j :: 0 <= i < j < |configs| ==> configs[i].vid != configs[j].vid)
    }

    ghost function Vid(i: nat): VerifierId
      requires i < |configs|
    {
      configs[i].vid
    }

    // ---- Part 1 ----

    ghost function First(i: nat): (NodeState, Result<Round1Package, DkgError>)
      requires Valid() && i < |configs|
    {
      Part1Step(frost, configs[i], Initial, seeds[i])
    }

    ghost predicate FirstOk(n: nat)
      requires Valid() && n <= |configs|
    {
      forall i :: 0 <= i < n ==> First(i).1.Ok?
    }

    /** The round-1 packages of the first `n` participants, by sender. */
    ghost function Broadcast(n: nat): map<VerifierId, Round1Package>
      requires Valid() && n <= |configs| && FirstOk(n)
    {
      if n == 0 then map[] else Broadcast(n - 1)[Vid(n - 1) := First(n - 1).1.value]
    }

    // ---- Part 2 ----

    ghost function Second(i: nat): (NodeState, Result<map<VerifierId, Round2Package>, DkgError>)
      requires Valid() && i < |configs| && FirstOk(|configs|)
    {
      Part2Step(frost, configs[i], First(i).0, Broadcast(|configs|) - {Vid(i)})
    }

    ghost predicate SecondOk(n: nat)
      requires Valid() && n <= |configs|
    {
      FirstOk(|configs|) && forall i :: 0 <= i < n ==> Second(i).1.Ok?
    }

    /** The round-2 packages that the first `n` participants addressed to `to`, by sender. */
    ghost function Inbox(n: nat, to: VerifierId): map<VerifierId, Round2Package>
      requires Valid() && n <= |configs| && SecondOk(n)
    {
      if n == 0 then map[]
      else
        var before := Inbox(n - 1, to);
        var sent := Second(n - 1).1.value;
        if to in sent then before[Vid(n - 1) := sent[to]] else before
    }

    // ---- Part 3 ----

    ghost function Third(i: nat): (NodeState, Result<(Share, GroupKey), DkgError>)
      requires Valid() && i < |configs| && SecondOk(|configs|)
    {
      Part3Step(frost, configs[i], Second(i).0, Inbox(|configs|, Vid(i)))
    }

    ghost predicate ThirdOk(n: nat)
      requires Valid() && n <= |configs|
    {
      SecondOk(|configs|) && forall i :: 0 <= i < n ==> Third(i).1.Ok?
    }

    /** What every participant ends up with. */
    ghost function Outputs(): seq<(Share, GroupKey)>
      requires Valid() && ThirdOk(|configs|)
    {
      seq(|configs|, i requires 0 <= i < |configs| => Third(i).1.value)
    }
  }

  /** All outputs carry the same group key. */
  ghost predicate OneKey(outputs: seq<(Share, GroupKey)>) {
    forall i :: 0 <= i < |outputs| ==> outputs[i].1 == outputs[0].1
  }

  // ---- What the packages of a ceremony are ----

  lemma {:induction false} BroadcastIs(p: Plan, n: nat)
    requires p.Valid() && n <= |p.configs| && p.FirstOk(n)
    ensures forall v :: v in p.Broadcast(n) <==> exists i :: 0 <= i < n && p.Vid(i) == v
    ensures forall i :: 0 <= i < n ==> p.Broadcast(n)[p.Vid(i)] == p.First(i).1.value
  {
    hide Part1Step, Config.Valid;
    if n > 0 {
      BroadcastIs(p, n - 1);
      assert p.Vid(n - 1) in p.Broadcast(n);
    }
  }

  /** A successful part 2 of a lawful library addresses exactly the other participants. */
  lemma {:induction false} SentToOthers(p: Plan, i: nat)
    requires p.frost.Lawful() && p.Valid() && i < |p.configs| && p.FirstOk(|p.configs|) && p.Second(i).1.Ok?
    ensures p.Second(i).1.value.Keys == (p.Broadcast(|p.configs|) - {p.Vid(i)}).Keys
  {
    hide Frost.Lawful;
    var c := p.configs[i];
    var inbox := p.Broadcast(|p.configs|) - {p.Vid(i)};
    var packages := ByIdentifier(c.ids, inbox).value;
    var out := p.frost.part2(p.First(i).0.r1, packages);
    LawfulKeys(p.frost, p.First(i).0.r1, packages);
    ReplyKeys(c.ids, inbox, out.value.1);
  }

  lemma {:induction false} LawfulKeys(f: Frost, s: Round1State, m: map<nat, Round1Package>)
    requires f.Lawful() && f.part2(s, m).Some?
    ensures f.part2(s, m).value.1.Keys == m.Keys
  {
  }

  lemma {:induction false} InboxHas(p: Plan, n: nat, to: VerifierId, i: nat)
    requires p.Valid() && i < n <= |p.configs| && p.SecondOk(n) && to in p.Second(i).1.value
    ensures p.Vid(i) in p.Inbox(n, to) && p.Inbox(n, to)[p.Vid(i)] == p.Second(i).1.value[to]
  {
    hide Part1Step, Part2Step, Config.Valid;
    if i < n - 1 { InboxHas(p, n - 1, to, i); }
  }

  lemma {:induction false} InboxOnly(p: Plan, n: nat, to: VerifierId, v: VerifierId) returns (i: nat)
    requires p.Valid() && n <= |p.configs| && p.SecondOk(n) && v in p.Inbox(n, to)
    ensures i < n && p.Vid(i) == v && to in p.Second(i).1.value
  {
    hide Part1Step, Part2Step, Config.Valid;
    if v in p.Inbox(n - 1, to) { i := InboxOnly(p, n - 1, to, v); } else { i := n - 1; }
  }

  lemma {:induction false} AddressedExactly(p: Plan, j: nat, i: nat)
    requires p.frost.Lawful() && p.Valid() && i < |p.configs| && j < |p.configs| && p.SecondOk(|p.configs|)
    ensures p.Vid(i) in p.Second(j).1.value <==> j != i
  {
    hide Part1Step, Part2Step, Config.Valid, Frost.Lawful, Plan.Second;
    BroadcastIs(p, |p.configs|);
    SentToOthers(p, j);
    assert p.Vid(i) in p.Broadcast(|p.configs|);
  }

  /**
   * What part 3 of participant `i` is given: one package from every other participant, the one
   * that participant made for `i`, keyed by who made it, and nothing else.
   */
  lemma {:induction false} InboxExact(p: Plan, i: nat)
    requires p.frost.Lawful() && p.Valid() && i < |p.configs| && p.SecondOk(|p.configs|)
    ensures var inbox := p.Inbox(|p.configs|, p.Vid(i));
            && (forall v :: v in inbox ==> v != p.Vid(i) && exists j :: 0 <= j < |p.configs| && p.Vid(j) == v)
            && (forall j :: 0 <= j < |p.configs| && j != i ==>
                  p.Vid(i) in p.Second(j).1.value && p.Vid(j) in inbox &&
                  inbox[p.Vid(j)] == p.Second(j).1.value[p.Vid(i)])
  {
    hide Part1Step, Part2Step, Config.Valid, Frost.Lawful, Plan.Inbox, Plan.Second;
    var n, to := |p.configs|, p.Vid(i);
    forall j | 0 <= j < n && j != i
      ensures to in p.Second(j).1.value && p.Vid(j) in p.Inbox(n, to) &&
              p.Inbox(n, to)[p.Vid(j)] == p.Second(j).1.value[to]
    {
      AddressedExactly(p, j, i);
      InboxHas(p, n, to, j);
    }
    forall v | v in p.Inbox(n, to) ensures v != to && exists j :: 0 <= j < n && p.Vid(j) == v {
      var j := InboxOnly(p, n, to, v);
      AddressedExactly(p, j, i);
    }
  }

  // ---- The run in the clear ----

  /** The nodes are the plan's participants, each its own object. */
  ghost predicate Seats(p: Plan, nodes: seq<FrostDkgNode>) {
    && p.Valid() && |nodes| == |p.configs|
    && (forall i :: 0 <= i < |nodes| ==> nodes[i].config == p.configs[i])
    && (forall i, j :: 0 <= i < j < |nodes| ==> nodes[i] != nodes[j])
  }

  ghost predicate AllInitial(nodes: seq<FrostDkgNode>)
    reads nodes
  {
    forall i :: 0 <= i < |nodes| ==> nodes[i].state == Initial
  }

  /** Every node has finished part 1. */
  ghost predicate DoneFirst(p: Plan, nodes: seq<FrostDkgNode>)
    reads nodes
  {
    Seats(p, nodes) && forall i :: 0 <= i < |nodes| ==> nodes[i].state == p.First(i).0
  }

  /** Every node has finished part 2. */
  ghost predicate DoneSecond(p: Plan, nodes: seq<FrostDkgNode>)
    reads nodes
  {
    Seats(p, nodes) && p.SecondOk(|nodes|) && forall i :: 0 <= i < |nodes| ==> nodes[i].state == p.Second(i).0
  }

  /** Part 1 of one node. */
  method FirstTurn(p: Plan, node: FrostDkgNode, i: nat) returns (package: Result<Round1Package, DkgError>)
    requires p.Valid() && i < |p.configs| && node.config == p.configs[i]
    modifies node
    ensures old(node.state) == Initial ==> (node.state, package) == p.First(i)
    ensures old(node.state) != Initial ==> package.Err?
  {
    package := node.Part1(p.frost, p.seeds[i]);
  }

  method CollectBroadcasts(p: Plan, nodes: seq<FrostDkgNode>)
    returns (r: Result<map<VerifierId, Round1Package>, DkgError>)
    requires Seats(p, nodes)
    modifies nodes
    ensures r.Ok? <==> old(AllInitial(nodes)) && p.FirstOk(|nodes|)
    ensures r.Ok? ==> r.value == p.Broadcast(|nodes|) && DoneFirst(p, nodes)
  {
    hide Part1Step, Config.Valid, Plan.First;
    var broadcasts: map<VerifierId, Round1Package> := map[];
    for i := 0 to |nodes|
      invariant p.FirstOk(i) && broadcasts == p.Broadcast(i)
      invariant forall j :: 0 <= j < i ==> nodes[j].state == p.First(j).0
      invariant forall j :: 0 <= j < i ==> old(nodes[j].state) == Initial
      invariant forall j :: i <= j < |nodes| ==> nodes[j].state == old(nodes[j].state)
    {
      var package := FirstTurn(p, nodes[i], i);
      if package.Err? { return Err(package.error); }
      broadcasts := broadcasts[nodes[i].config.vid := package.value];
    }
    return Ok(broadcasts);
  }

  function Get<T>(m: map<VerifierId, map<VerifierId, T>>, to: VerifierId): map<VerifierId, T> {
    if to in m then m[to] else map[]
  }

  /** Adds one sender's packages to the mailboxes of their recipients. */
  method Deliver(boxes: map<VerifierId, map<VerifierId, Round2Package>>, sender: VerifierId,
                 sent: map<VerifierId, Round2Package>)
    returns (out: map<VerifierId, map<VerifierId, Round2Package>>)
    ensures forall to :: Get(out, to) == if to in sent then Get(boxes, to)[sender := sent[to]] else Get(boxes, to)
  {
    out := boxes;
    var todo := sent.Keys;
    while todo != {}
      invariant todo <= sent.Keys
      invariant forall to ::
                  Get(out, to) == if to in sent.Keys - todo then Get(boxes, to)[sender := sent[to]] else Get(boxes, to)
      decreases |todo|
    {
      var to :| to in todo;
      todo := todo - {to};
      out := out[to := Get(out, to)[sender := sent[to]]];
    }
  }

  /** Part 2 of one node, from the other nodes' broadcasts. */
  method SecondTurn(p: Plan, node: FrostDkgNode, ghost i: nat, broadcasts: map<VerifierId, Round1Package>)
    returns (sent: Result<map<VerifierId, Round2Package>, DkgError>)
    requires p.Valid() && i < |p.configs| && node.config == p.configs[i] && node.state == p.First(i).0
    requires p.FirstOk(|p.configs|) && broadcasts == p.Broadcast(|p.configs|)
    modifies node
    ensures (node.state, sent) == p.Second(i)
  {
    hide Part1Step, Part2Step;
    sent := node.Part2(p.frost, broadcasts - {node.config.vid});
  }

  method RouteInTheClear(p: Plan, nodes: seq<FrostDkgNode>, broadcasts: map<VerifierId, Round1Package>)
    returns (r: Result<map<VerifierId, map<VerifierId, Round2Package>>, DkgError>)
    requires DoneFirst(p, nodes) && p.FirstOk(|nodes|) && broadcasts == p.Broadcast(|nodes|)
    modifies nodes
    ensures r.Ok? <==> p.SecondOk(|nodes|)
    ensures r.Ok? ==> DoneSecond(p, nodes) && forall to :: Get(r.value, to) == p.Inbox(|nodes|, to)
  {
    hide Part1Step, Part2Step, Config.Valid, Plan.Second, Plan.Broadcast, Plan.First;
    var boxes: map<VerifierId, map<VerifierId, Round2Package>> := map[];
    for i := 0 to |nodes|
      invariant p.SecondOk(i) && forall to :: Get(boxes, to) == p.Inbox(i, to)
      invariant forall j :: 0 <= j < i ==> nodes[j].state == p.Second(j).0
      invariant forall j :: i <= j < |nodes| ==> nodes[j].state == p.First(j).0
    {
      var sent := SecondTurn(p, nodes[i], i, broadcasts);
      if sent.Err? { return Err(sent.error); }
      boxes := Deliver(boxes, nodes[i].config.vid, sent.value);
    }
    return Ok(boxes);
  }

  lemma {:induction false} Part3Completes(p: Plan, i: nat)
    requires p.Valid() && i < |p.configs| && p.SecondOk(|p.configs|)
    ensures p.Third(i).1.Ok? ==> p.Third(i).0 == Completed
  {
  }

  /** Part 3 of one node, from its inbox. */
  method ThirdTurn(p: Plan, node: FrostDkgNode, ghost i: nat, inbox: map<VerifierId, Round2Package>)
    returns (output: Result<(Share, GroupKey), DkgError>)
    requires p.Valid() && i < |p.configs| && node.config == p.configs[i] && p.SecondOk(|p.configs|)
    requires node.state == p.Second(i).0 && inbox == p.Inbox(|p.configs|, p.Vid(i))
    modifies node
    ensures (node.state, output) == p.Third(i) && (output.Ok? ==> node.state == Completed)
  {
    hide Part1Step, Part2Step, Part3Step, Plan.Second, Plan.Inbox;
    Part3Completes(p, i);
    output := node.Part3(p.frost, inbox);
  }

  /** Part 3 of every node, each from its own mailbox. */
  method FinishInTheClear(p: Plan, nodes: seq<FrostDkgNode>, boxes: map<VerifierId, map<VerifierId, Round2Package>>)
    returns (r: Result<seq<(Share, GroupKey)>, DkgError>)
    requires DoneSecond(p, nodes) && forall to :: Get(boxes, to) == p.Inbox(|nodes|, to)
    modifies nodes
    ensures r.Ok? <==> p.ThirdOk(|nodes|)
    ensures r.Ok? ==> r.value == p.Outputs()
    ensures r.Ok? ==> forall i :: 0 <= i < |nodes| ==> nodes[i].state == Completed
  {
    hide Part1Step, Part2Step, Part3Step, Config.Valid, Plan.Inbox, Plan.Second, Plan.Third;
    var rest := boxes;
    var outputs: seq<(Share, GroupKey)> := [];
    for i := 0 to |nodes|
      invariant p.ThirdOk(i) && |outputs| == i && forall j :: 0 <= j < i ==> outputs[j] == p.Third(j).1.value
      invariant forall j :: i <= j < |nodes| ==> Get(rest, p.Vid(j)) == p.Inbox(|nodes|, p.Vid(j))
      invariant forall j :: 0 <= j < i ==> nodes[j].state == Completed
      invariant forall j :: i <= j < |nodes| ==> nodes[j].state == p.Second(j).0
    {
      var me := nodes[i].config.vid;
      var inbox := Get(rest, me);
      rest := rest - {me};
      var output := ThirdTurn(p, nodes[i], i, inbox);
      if output.Err? { return Err(output.error); }
      outputs := outputs + [output.value];
    }
    return Ok(outputs);
  }

  /** The consistency check on the derived group keys. */
  method CheckKeys(outputs: seq<(Share, GroupKey)>) returns (ok: bool)
    requires outputs != []
    ensures ok <==> OneKey(outputs)
  {
    for i := 1 to |outputs|
      invariant forall j :: 0 <= j < i ==> outputs[j].1 == outputs[0].1
    {
      if outputs[i].1 != outputs[0].1 { return false; }
    }
    return true;
  }

  datatype CeremonyError =
    | NoNodes | WrongKeyCount | Node(e: DkgError) | MissingKey | Cipher | GroupKeyMismatch | KeyAnnouncement | Admission

  /** A ceremony's result, from the outcome of its parts. */
  ghost predicate CeremonyResult(p: Plan, r: Result<(seq<Share>, GroupKey), CeremonyError>)
    requires p.Valid()
  {
    && (r.Ok? <==> p.configs != [] && p.ThirdOk(|p.configs|) && OneKey(p.Outputs()))
    && (r.Ok? ==>
          |r.value.0| == |p.configs| && forall i :: 0 <= i < |p.configs| ==>
            (r.value.0[i], r.value.1) == p.Third(i).1.value)
  }

  /** The plan alone decides whether a ceremony succeeds and with which shares and key. */
  lemma {:induction false} CeremonyDetermined(p: Plan, a: Result<(seq<Share>, GroupKey), CeremonyError>,
                                              b: Result<(seq<Share>, GroupKey), CeremonyError>)
    requires p.Valid() && CeremonyResult(p, a) && CeremonyResult(p, b)
    ensures a.Ok? == b.Ok? && (a.Ok? ==> a.value == b.value)
  {
    hide Plan.Third, Config.Valid;
    if a.Ok? {
      assert a.value.0 == b.value.0;
      assert (a.value.0[0], a.value.1) == (b.value.0[0], b.value.1);
    }
  }

  method Conclude(p: Plan, outputs: seq<(Share, GroupKey)>) returns (r: Result<(seq<Share>, GroupKey), CeremonyError>)
    requires p.Valid() && p.configs != [] && p.ThirdOk(|p.configs|) && outputs == p.Outputs()
    ensures CeremonyResult(p, r)
  {
    hide Part1Step, Part2Step, Part3Step;
    var ok := CheckKeys(outputs);
    if !ok { return Err(GroupKeyMismatch); }
    var shares := seq(|outputs|, i requires 0 <= i < |outputs| => outputs[i].0);
    return Ok((shares, outputs[0].1));
  }

  method RunDkgCeremony(p: Plan, nodes: seq<FrostDkgNode>) returns (r: Result<(seq<Share>, GroupKey), CeremonyError>)
    requires Seats(p, nodes)
    modifies nodes
    ensures if old(AllInitial(nodes)) then CeremonyResult(p, r) else r.Err?
    ensures r.Ok? ==> forall i :: 0 <= i < |nodes| ==> nodes[i].state == Completed
  {
    hide Part1Step, Part2Step, Part3Step, Config.Valid, Plan.Broadcast, Plan.Inbox, Plan.First, Plan.Second, Plan.Third,
        AllInitial;
    if |nodes| == 0 { return Err(NoNodes); }
    var broadcasts := CollectBroadcasts(p, nodes);
    if broadcasts.Err? { return Err(Node(broadcasts.error)); }
    var boxes := RouteInTheClear(p, nodes, broadcasts.value);
    if boxes.Err? { return Err(Node(boxes.error)); }
    var outputs := FinishInTheClear(p, nodes, boxes.value);
    if outputs.Err? { return Err(Node(outputs.error)); }
    r := Conclude(p, outputs.value);
  }
}
