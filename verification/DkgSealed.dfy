/** Ceremonies whose round-2 packages travel sealed: between processes in memory, and as network messages. */
module DkgSealed {
  import opened Bytes
  import opened Wrappers
  import opened Ids
  import opened DkgNode
  import opened DkgEncrypt
  import opened DkgCeremony

  /** How an envelope travels: as itself in memory, as JSON bytes over the network. */
  datatype Wire<!W> = Wire(encode: Envelope -> W, decode: W -> Option<Envelope>) {
    ghost predicate Lawful() {
      forall e :: decode(encode(e)) == Some(e)
    }
  }

  const IN_MEMORY: Wire<Envelope> := Wire((e: Envelope) => e, (e: Envelope) => Some(e))

  /** The sealing side of a ceremony: one key per node, and the nonce each sender draws for each recipient. */
  datatype Sealing = Sealing(
    crypto: Crypto, ceremony: CeremonyId, secrets: seq<Secret>, nonces: (VerifierId, VerifierId) -> XNonce)

  type PublicKeys = map<VerifierId, PublicKey>

  /** Every node's public key is known under its identity. */
  ghost predicate KeysMatch(p: Plan, k: Sealing, pubs: PublicKeys) {
    && |k.secrets| == |p.configs|
    && forall i :: 0 <= i < |p.configs| ==> p.Vid(i) in pubs && pubs[p.Vid(i)] == k.crypto.publicOf(k.secrets[i])
  }

  /** `package` from `sender` to `to`, sealed with the sender's secret. */
  function SealTo(k: Sealing, pubs: PublicKeys, secret: Secret, sender: VerifierId, to: VerifierId,
                  package: Round2Package): Option<Envelope>
    requires to in pubs
  {
    EncryptPackage(k.crypto, package, k.ceremony, secret, sender, pubs[to], to, k.nonces(sender, to))
  }

  /** What one sender adds to the mailbox of `to`. */
  function Posted<W>(k: Sealing, w: Wire<W>, pubs: PublicKeys, secret: Secret, sender: VerifierId,
                     sent: map<VerifierId, Round2Package>, to: VerifierId): seq<(VerifierId, W)>
  {
    if to in sent && to in pubs && SealTo(k, pubs, secret, sender, to, sent[to]).Some?
    then [(sender, w.encode(SealTo(k, pubs, secret, sender, to, sent[to]).value))]
    else []
  }

  function Mailbox<W>(m: map<VerifierId, seq<(VerifierId, W)>>, to: VerifierId): seq<(VerifierId, W)> {
    if to in m then m[to] else []
  }

  /** Every recipient of one sender has a known key and the cipher seals its package. */
  ghost predicate CanSeal(k: Sealing, pubs: PublicKeys, secret: Secret, sender: VerifierId,
                          sent: map<VerifierId, Round2Package>) {
    forall to :: to in sent ==> to in pubs && SealTo(k, pubs, secret, sender, to, sent[to]).Some?
  }

  /** Seals one sender's packages and adds each to its recipient's mailbox. */
  method Post<W>(k: Sealing, w: Wire<W>, pubs: PublicKeys, secret: Secret, sender: VerifierId,
                 sent: map<VerifierId, Round2Package>, boxes: map<VerifierId, seq<(VerifierId, W)>>)
    returns (r: Result<map<VerifierId, seq<(VerifierId, W)>>, CeremonyError>)
    ensures r.Ok? <==> CanSeal(k, pubs, secret, sender, sent)
    ensures r.Ok? ==>
              forall to :: Mailbox(r.value, to) == Mailbox(boxes, to) + Posted(k, w, pubs, secret, sender, sent, to)
  {
    hide SealTo;
    var out := boxes;
    var todo := sent.Keys;
    while todo != {}
      invariant todo <= sent.Keys
      invariant forall to :: to in sent.Keys - todo ==>
                to in pubs && SealTo(k, pubs, secret, sender, to, sent[to]).Some?
      invariant forall to :: Mailbox(out, to) ==
                  if to in todo then Mailbox(boxes, to)
                  else Mailbox(boxes, to) + Posted(k, w, pubs, secret, sender, sent, to)
      decreases |todo|
    {
      var to :| to in todo;
      if to !in pubs { return Err(MissingKey); }
      var e := SealTo(k, pubs, secret, sender, to, sent[to]);
      if e.None? { return Err(Cipher); }
      todo := todo - {to};
      out := out[to := Mailbox(out, to) + [(sender, w.encode(e.value))]];
    }
    return Ok(out);
  }

  /** The sealed packages the first `n` participants sent to `to`, in order. */
  ghost function SealedInbox<W>(p: Plan, k: Sealing, w: Wire<W>, pubs: PublicKeys, n: nat,
                                to: VerifierId): seq<(VerifierId, W)>
    requires p.Valid() && n <= |p.configs| && |k.secrets| == |p.configs| && p.SecondOk(n)
  {
    if n == 0 then []
    else
      var sent := p.Second(n - 1).1.value;
      SealedInbox(p, k, w, pubs, n - 1, to) + Posted(k, w, pubs, k.secrets[n - 1], p.Vid(n - 1), sent, to)
  }

  /** The first `n` senders can seal everything they send. */
  ghost predicate AllSealed(p: Plan, k: Sealing, pubs: PublicKeys, n: nat)
    requires p.Valid() && n <= |p.configs| && |k.secrets| == |p.configs| && p.SecondOk(n)
  {
    forall i :: 0 <= i < n ==> CanSeal(k, pubs, k.secrets[i], p.Vid(i), p.Second(i).1.value)
  }

  /** Opens sealed packages in order; each must come from a known sender and decrypt for `me`. */
  function OpenAll<W>(k: Sealing, w: Wire<W>, pubs: PublicKeys, secret: Secret, me: VerifierId,
                      packages: seq<(VerifierId, W)>)
    : Option<map<VerifierId, Round2Package>>
  {
    if packages == [] then Some(map[])
    else
      var (sender, bytes) := packages[|packages| - 1];
      var before := OpenAll(k, w, pubs, secret, me, packages[..|packages| - 1]);
      if before.None? then None else
      var package := OpenOne(k, w, pubs, secret, me, sender, bytes);
      if package.None? then None else Some(before.value[sender := package.value])
  }

  function OpenOne<W>(k: Sealing, w: Wire<W>, pubs: PublicKeys, secret: Secret, me: VerifierId, sender: VerifierId,
                      bytes: W)
    : Option<Round2Package>
  {
    var e := w.decode(bytes);
    if e.None? || sender !in pubs then None
    else DecryptPackage(k.crypto, e.value, secret, pubs[sender], k.ceremony, sender, me)
  }

  method OpenInbox<W>(k: Sealing, w: Wire<W>, pubs: PublicKeys, secret: Secret, me: VerifierId,
                      packages: seq<(VerifierId, W)>)
    returns (r: Option<map<VerifierId, Round2Package>>)
    ensures r == OpenAll(k, w, pubs, secret, me, packages)
  {
    hide OpenOne;
    var plain: map<VerifierId, Round2Package> := map[];
    for i := 0 to |packages|
      invariant OpenAll(k, w, pubs, secret, me, packages[..i]) == Some(plain)
    {
      assert packages[..i + 1][..i] == packages[..i];
      var package := OpenOne(k, w, pubs, secret, me, packages[i].0, packages[i].1);
      if package.None? {
        OpenFails(k, w, pubs, secret, me, packages, i + 1);
        return None;
      }
      plain := plain[packages[i].0 := package.value];
    }
    assert packages[..|packages|] == packages;
    return Some(plain);
  }

  lemma {:induction false} OpenFails<W>(k: Sealing, w: Wire<W>, pubs: PublicKeys, secret: Secret, me: VerifierId,
                                        packages: seq<(VerifierId, W)>, n: nat)
    requires n <= |packages| && OpenAll(k, w, pubs, secret, me, packages[..n]) == None
    ensures OpenAll(k, w, pubs, secret, me, packages) == None
    decreases |packages|
  {
    if n == |packages| {
      assert packages[..n] == packages;
    } else {
      var init := packages[..|packages| - 1];
      assert init[..n] == packages[..n];
      OpenFails(k, w, pubs, secret, me, init, n);
    }
  }

  /** What the recipient opens is exactly what the ceremony in the clear would have delivered. */
  lemma {:induction false} OpenedIsInbox<W>(p: Plan, k: Sealing, w: Wire<W>, pubs: PublicKeys, n: nat, i: nat)
    requires k.crypto.Lawful() && w.Lawful() && p.Valid() && KeysMatch(p, k, pubs)
    requires n <= |p.configs| && i < |p.configs| && p.SecondOk(n) && AllSealed(p, k, pubs, n)
    ensures OpenAll(k, w, pubs, k.secrets[i], p.Vid(i), SealedInbox(p, k, w, pubs, n, p.Vid(i))) ==
            Some(p.Inbox(n, p.Vid(i)))
  {
    hide Part1Step, Part2Step, Config.Valid, Plan.Second, OpenOne, OpenAll, Posted, CanSeal, Crypto.Lawful, Wire.Lawful;
    var to := p.Vid(i);
    if n == 0 {
      OpenNothing(k, w, pubs, k.secrets[i], to);
    } else {
      OpenedIsInbox(p, k, w, pubs, n - 1, i);
      var before := SealedInbox(p, k, w, pubs, n - 1, to);
      var sent := p.Second(n - 1).1.value;
      var posted := Posted(k, w, pubs, k.secrets[n - 1], p.Vid(n - 1), sent, to);
      if to in sent {
        PostedOpens(p, k, w, pubs, n - 1, i, sent);
        OpenOneMore(k, w, pubs, k.secrets[i], to, before, posted[0]);
        assert posted == [posted[0]];
      } else {
        NothingPosted(k, w, pubs, k.secrets[n - 1], p.Vid(n - 1), sent, to);
        assert before + [] == before;
      }
    }
  }

  lemma {:induction false} OpenNothing<W>(k: Sealing, w: Wire<W>, pubs: PublicKeys, secret: Secret, me: VerifierId)
    ensures OpenAll(k, w, pubs, secret, me, []) == Some(map[])
  {
  }

  lemma {:induction false} NothingPosted<W>(k: Sealing, w: Wire<W>, pubs: PublicKeys, secret: Secret,
                                            sender: VerifierId, sent: map<VerifierId, Round2Package>, to: VerifierId)
    requires to !in sent
    ensures Posted(k, w, pubs, secret, sender, sent, to) == []
  {
  }

  lemma {:induction false} OpenOneMore<W>(k: Sealing, w: Wire<W>, pubs: PublicKeys, secret: Secret, me: VerifierId,
                                          packages: seq<(VerifierId, W)>, last: (VerifierId, W))
    requires OpenAll(k, w, pubs, secret, me, packages).Some? && OpenOne(k, w, pubs, secret, me, last.0, last.1).Some?
    ensures OpenAll(k, w, pubs, secret, me, packages + [last]) ==
            (var before := OpenAll(k, w, pubs, secret, me, packages).value;
             Some(before[last.0 := OpenOne(k, w, pubs, secret, me, last.0, last.1).value]))
  {
    hide OpenOne;
    var all := packages + [last];
    assert all[..|all| - 1] == packages;
  }

  lemma {:induction false} PostedOpens<W>(p: Plan, k: Sealing, w: Wire<W>, pubs: PublicKeys, from: nat, i: nat,
                                          sent: map<VerifierId, Round2Package>)
    requires k.crypto.Lawful() && w.Lawful() && KeysMatch(p, k, pubs) && from < |p.configs| && i < |p.configs|
    requires p.Vid(i) in sent && CanSeal(k, pubs, k.secrets[from], p.Vid(from), sent)
    ensures var posted := Posted(k, w, pubs, k.secrets[from], p.Vid(from), sent, p.Vid(i));
            && |posted| == 1 && posted[0].0 == p.Vid(from)
            && OpenOne(k, w, pubs, k.secrets[i], p.Vid(i), p.Vid(from), posted[0].1) == Some(sent[p.Vid(i)])
  {
    hide EncryptPackage, DecryptPackage;
    var from', to := p.Vid(from), p.Vid(i);
    SealedPackageOpens(k.crypto, sent[to], k.ceremony, k.secrets[from], from', k.secrets[i], to, k.nonces(from', to),
                       k.ceremony, from', to);
  }

  /**
   * What is posted to `to` is one envelope, filed under its sender, that names this ceremony, sender and recipient and
   * carries the nonce drawn for this pair; nobody else can open it as anything else.
   */
  lemma {:induction false} PostedLabels<W>(k: Sealing, w: Wire<W>, pubs: PublicKeys, secret: Secret, sender: VerifierId,
                                           sent: map<VerifierId, Round2Package>, to: VerifierId)
    requires w.Lawful() && CanSeal(k, pubs, secret, sender, sent) && to in sent
    ensures var posted := Posted(k, w, pubs, secret, sender, sent, to);
            && |posted| == 1 && posted[0].0 == sender && w.decode(posted[0].1).Some?
            && var e := w.decode(posted[0].1).value;
               && e.version == 1 && e.ceremony == k.ceremony && e.sender == sender && e.recipient == to
               && e.nonce == k.nonces(sender, to)
               && forall c, key, pub, from, me :: (c, from, me) != (k.ceremony, sender, to) ==>
                    DecryptPackage(k.crypto, e, key, pub, c, from, me).None?
  {
  }

  lemma {:induction false} NothingSealed<W>(p: Plan, k: Sealing, w: Wire<W>, pubs: PublicKeys)
    requires p.Valid() && |k.secrets| == |p.configs| && p.SecondOk(0)
    ensures forall to :: Mailbox(map[], to) == SealedInbox(p, k, w, pubs, 0, to)
  {
  }

  lemma {:induction false} NextSealed<W>(p: Plan, k: Sealing, w: Wire<W>, pubs: PublicKeys, i: nat,
                                         before: map<VerifierId, seq<(VerifierId, W)>>,
                                         after: map<VerifierId, seq<(VerifierId, W)>>)
    requires p.Valid() && |k.secrets| == |p.configs| && i < |p.configs| && p.SecondOk(i + 1)
    requires forall to :: Mailbox(before, to) == SealedInbox(p, k, w, pubs, i, to)
    requires var secret, sent := k.secrets[i], p.Second(i).1.value;
             forall to :: Mailbox(after, to) == Mailbox(before, to) + Posted(k, w, pubs, secret, p.Vid(i), sent, to)
    ensures forall to :: Mailbox(after, to) == SealedInbox(p, k, w, pubs, i + 1, to)
  {
    hide Part1Step, Part2Step, Config.Valid, Plan.Second, Posted, Mailbox;
  }

  /** Parts 1 and 2 of every node, with each round-2 package sealed for its recipient. */
  method SealedRounds<W>(p: Plan, k: Sealing, w: Wire<W>, pubs: PublicKeys, nodes: seq<FrostDkgNode>)
    returns (r: Result<map<VerifierId, seq<(VerifierId, W)>>, CeremonyError>)
    requires Seats(p, nodes) && |k.secrets| == |nodes|
    modifies nodes
    ensures r.Ok? <==> old(AllInitial(nodes)) && p.SecondOk(|nodes|) && AllSealed(p, k, pubs, |nodes|)
    ensures r.Ok? ==>
              DoneSecond(p, nodes) && forall to :: Mailbox(r.value, to) == SealedInbox(p, k, w, pubs, |nodes|, to)
  {
    hide Part1Step, Part2Step, Config.Valid, Plan.First, Plan.Second, Plan.Broadcast, Posted, SealedInbox, Mailbox,
      AllInitial, CanSeal;
    var broadcasts := CollectBroadcasts(p, nodes);
    if broadcasts.Err? { return Err(Node(broadcasts.error)); }
    var boxes: map<VerifierId, seq<(VerifierId, W)>> := map[];
    NothingSealed(p, k, w, pubs);
    for i := 0 to |nodes|
      invariant p.SecondOk(i) && AllSealed(p, k, pubs, i)
      invariant forall to :: Mailbox(boxes, to) == SealedInbox(p, k, w, pubs, i, to)
      invariant forall j :: 0 <= j < i ==> nodes[j].state == p.Second(j).0
      invariant forall j :: i <= j < |nodes| ==> nodes[j].state == p.First(j).0
    {
      var sent := SecondTurn(p, nodes[i], i, broadcasts.value);
      if sent.Err? { return Err(Node(sent.error)); }
      var posted := Post(k, w, pubs, k.secrets[i], nodes[i].config.vid, sent.value, boxes);
      if posted.Err? { return posted; }
      NextSealed(p, k, w, pubs, i, boxes, posted.value);
      boxes := posted.value;
    }
    return Ok(boxes);
  }

  /** With a key for every node and a cipher that never refuses, a lawful library's packages can all be sealed. */
  lemma {:induction false} SealableByAll(p: Plan, k: Sealing, pubs: PublicKeys)
    requires p.frost.Lawful() && p.Valid() && |k.secrets| == |p.configs| && p.SecondOk(|p.configs|)
    requires forall i :: 0 <= i < |p.configs| ==> p.Vid(i) in pubs
    requires forall key, nonce, message, aad :: k.crypto.seal(key, nonce, message, aad).Some?
    ensures AllSealed(p, k, pubs, |p.configs|)
  {
    hide Part1Step, Part2Step, Config.Valid, Plan.Second, Frost.Lawful;
    BroadcastIs(p, |p.configs|);
    forall i | 0 <= i < |p.configs| ensures CanSeal(k, pubs, k.secrets[i], p.Vid(i), p.Second(i).1.value) {
      SentToOthers(p, i);
    }
  }

  /** Part 3 of one node from the sealed packages delivered to it. */
  method Part3FromDelivery<W>(p: Plan, k: Sealing, w: Wire<W>, pubs: PublicKeys, node: FrostDkgNode, secret: Secret,
                              packages: seq<(VerifierId, W)>)
    returns (r: Result<(Share, GroupKey), CeremonyError>)
    modifies node
    ensures var plain := OpenAll(k, w, pubs, secret, node.config.vid, packages);
            && (plain.None? ==> r == Err(Cipher) && node.state == old(node.state))
            && (plain.Some? && node.config.Valid() ==>
                  var o := Part3Step(p.frost, node.config, old(node.state), plain.value);
                  node.state == o.0 && r == (if o.1.Ok? then Ok(o.1.value) else Err(Node(o.1.error))))
  {
    hide Part3Step, OpenAll;
    var plain := OpenInbox(k, w, pubs, secret, node.config.vid, packages);
    if plain.None? { return Err(Cipher); }
    var out := node.Part3(p.frost, plain.value);
    r := if out.Ok? then Ok(out.value) else Err(Node(out.error));
  }

  /** What node `i` opens of everything the senders posted to it. */
  ghost function Opened<W>(p: Plan, k: Sealing, w: Wire<W>, pubs: PublicKeys, i: nat)
    : Option<map<VerifierId, Round2Package>>
    requires p.Valid() && i < |p.configs| && |k.secrets| == |p.configs| && p.SecondOk(|p.configs|)
  {
    OpenAll(k, w, pubs, k.secrets[i], p.Vid(i), SealedInbox(p, k, w, pubs, |p.configs|, p.Vid(i)))
  }

  /** What node `i` ends with: part 3 on what it opens, or a refusal if it cannot open everything. */
  ghost function Received<W>(p: Plan, k: Sealing, w: Wire<W>, pubs: PublicKeys, i: nat): Option<(Share, GroupKey)>
    requires p.Valid() && i < |p.configs| && |k.secrets| == |p.configs| && p.SecondOk(|p.configs|)
  {
    var plain := Opened(p, k, w, pubs, i);
    if plain.None? then None
    else
      var out := Part3Step(p.frost, p.configs[i], p.Second(i).0, plain.value).1;
      if out.Ok? then Some(out.value) else None
  }

  ghost predicate AllReceived<W>(p: Plan, k: Sealing, w: Wire<W>, pubs: PublicKeys, n: nat)
    requires p.Valid() && n <= |p.configs| && |k.secrets| == |p.configs| && p.SecondOk(|p.configs|)
  {
    forall i :: 0 <= i < n ==> Received(p, k, w, pubs, i).Some?
  }

  /** With matching keys every node receives exactly what the ceremony in the clear gives it. */
  lemma {:induction false} ReceivedIsThird<W>(p: Plan, k: Sealing, w: Wire<W>, pubs: PublicKeys, i: nat)
    requires k.crypto.Lawful() && w.Lawful() && p.Valid() && KeysMatch(p, k, pubs) && i < |p.configs|
    requires p.SecondOk(|p.configs|) && AllSealed(p, k, pubs, |p.configs|)
    ensures Received(p, k, w, pubs, i) == (if p.Third(i).1.Ok? then Some(p.Third(i).1.value) else None)
  {
    hide Part1Step, Part2Step, Part3Step, Config.Valid, Plan.Second, Plan.Inbox, OpenAll, SealedInbox, AllSealed,
      Crypto.Lawful, Wire.Lawful, KeysMatch;
    OpenedIsInbox(p, k, w, pubs, |p.configs|, i);
  }

  /** Part 3 of node `i` from its mailbox. */
  method ReceiveTurn<W>(p: Plan, k: Sealing, w: Wire<W>, pubs: PublicKeys, node: FrostDkgNode, i: nat,
                        packages: seq<(VerifierId, W)>)
    returns (output: Result<(Share, GroupKey), CeremonyError>)
    requires p.Valid() && i < |p.configs| && |k.secrets| == |p.configs| && p.SecondOk(|p.configs|)
    requires node.config == p.configs[i] && node.state == p.Second(i).0
    requires packages == SealedInbox(p, k, w, pubs, |p.configs|, p.Vid(i))
    modifies node
    ensures output.Ok? <==> Received(p, k, w, pubs, i).Some?
    ensures output.Ok? ==> output.value == Received(p, k, w, pubs, i).value && node.state == Completed
  {
    hide Part1Step, Part2Step, Plan.Second, OpenAll, SealedInbox;
    output := Part3FromDelivery(p, k, w, pubs, node, k.secrets[i], packages);
  }

  /** Part 3 of every node, each opening its own mailbox. */
  method FinishSealed<W>(p: Plan, k: Sealing, w: Wire<W>, pubs: PublicKeys, nodes: seq<FrostDkgNode>,
                         boxes: map<VerifierId, seq<(VerifierId, W)>>)
    returns (r: Result<seq<(Share, GroupKey)>, CeremonyError>)
    requires |k.secrets| == |nodes|
    requires DoneSecond(p, nodes) && forall to :: Mailbox(boxes, to) == SealedInbox(p, k, w, pubs, |nodes|, to)
    modifies nodes
    ensures r.Ok? <==> AllReceived(p, k, w, pubs, |nodes|)
    ensures r.Ok? ==> |r.value| == |nodes| && forall i :: 0 <= i < |nodes| ==>
                        nodes[i].state == Completed && Some(r.value[i]) == Received(p, k, w, pubs, i)
  {
    hide Part1Step, Part2Step, Config.Valid, Plan.Second, Received, SealedInbox, Mailbox;
    var outputs: seq<(Share, GroupKey)> := [];
    for i := 0 to |nodes|
      invariant AllReceived(p, k, w, pubs, i) && |outputs| == i
      invariant forall j :: 0 <= j < i ==> nodes[j].state == Completed && Some(outputs[j]) == Received(p, k, w, pubs, j)
      invariant forall j :: i <= j < |nodes| ==> nodes[j].state == p.Second(j).0
    {
      var output := ReceiveTurn(p, k, w, pubs, nodes[i], i, Mailbox(boxes, nodes[i].config.vid));
      if output.Err? { return Err(output.error); }
      outputs := outputs + [output.value];
    }
    return Ok(outputs);
  }

  /** The public keys of the first `n` nodes, by node. */
  ghost function PubsOf(p: Plan, k: Sealing, n: nat): PublicKeys
    requires n <= |p.configs| && |k.secrets| == |p.configs|
  {
    if n == 0 then map[] else PubsOf(p, k, n - 1)[p.Vid(n - 1) := k.crypto.publicOf(k.secrets[n - 1])]
  }

  lemma {:induction false} PubsMatch(p: Plan, k: Sealing, n: nat)
    requires p.Valid() && n <= |p.configs| && |k.secrets| == |p.configs|
    ensures forall i :: 0 <= i < n ==>
              p.Vid(i) in PubsOf(p, k, n) && PubsOf(p, k, n)[p.Vid(i)] == k.crypto.publicOf(k.secrets[i])
  {
    hide Config.Valid;
    if n > 0 { PubsMatch(p, k, n - 1); }
  }

  /** The public halves of the nodes' keys, by node. */
  method PublicMap(p: Plan, k: Sealing, nodes: seq<FrostDkgNode>) returns (pubs: PublicKeys)
    requires Seats(p, nodes) && |k.secrets| == |nodes|
    ensures pubs == PubsOf(p, k, |nodes|) && KeysMatch(p, k, pubs)
  {
    hide Config.Valid;
    pubs := map[];
    for i := 0 to |nodes|
      invariant pubs == PubsOf(p, k, i)
    {
      pubs := pubs[nodes[i].config.vid := k.crypto.publicOf(k.secrets[i])];
    }
    PubsMatch(p, k, |nodes|);
  }

  /** Every package of the plan can be sealed for its recipient. */
  ghost predicate Sealable(p: Plan, k: Sealing)
    requires p.Valid()
  {
    |k.secrets| == |p.configs| && p.SecondOk(|p.configs|) && AllSealed(p, k, PubsOf(p, k, |p.configs|), |p.configs|)
  }

  lemma {:induction false} ReceivedOutputs<W>(p: Plan, k: Sealing, w: Wire<W>, pubs: PublicKeys)
    requires k.crypto.Lawful() && w.Lawful() && p.Valid() && KeysMatch(p, k, pubs)
    requires p.SecondOk(|p.configs|) && AllSealed(p, k, pubs, |p.configs|)
    ensures AllReceived(p, k, w, pubs, |p.configs|) <==> p.ThirdOk(|p.configs|)
    ensures p.ThirdOk(|p.configs|) ==>
              forall i :: 0 <= i < |p.configs| ==> Received(p, k, w, pubs, i) == Some(p.Outputs()[i])
  {
    hide Part1Step, Part2Step, Part3Step, Config.Valid, Plan.Third, Plan.Second, Received, AllSealed, Crypto.Lawful,
      Wire.Lawful;
    forall i | 0 <= i < |p.configs|
      ensures Received(p, k, w, pubs, i) == (if p.Third(i).1.Ok? then Some(p.Third(i).1.value) else None)
    {
      ReceivedIsThird(p, k, w, pubs, i);
    }
  }

  /** The encrypted ceremony: same result as the ceremony in the clear, for every plan whose packages can be sealed. */
  method RunDkgCeremonyEncrypted(p: Plan, k: Sealing, nodes: seq<FrostDkgNode>)
    returns (r: Result<(seq<Share>, GroupKey), CeremonyError>)
    requires Seats(p, nodes) && k.crypto.Lawful()
    modifies nodes
    ensures if old(AllInitial(nodes)) && Sealable(p, k) then CeremonyResult(p, r) else r.Err?
    ensures r.Ok? ==> forall i :: 0 <= i < |nodes| ==> nodes[i].state == Completed
  {
    hide Part1Step, Part2Step, Part3Step, Config.Valid, Plan.Broadcast, Plan.Inbox, Plan.First, Plan.Second, Plan.Third,
      SealedInbox, Received, AllSealed, KeysMatch, Crypto.Lawful, AllInitial;
    if |nodes| == 0 { return Err(NoNodes); }
    if |k.secrets| != |nodes| { return Err(WrongKeyCount); }
    var pubs := PublicMap(p, k, nodes);
    var boxes := SealedRounds(p, k, IN_MEMORY, pubs, nodes);
    if boxes.Err? { return Err(boxes.error); }
    ReceivedOutputs(p, k, IN_MEMORY, pubs);
    var outputs := FinishSealed(p, k, IN_MEMORY, pubs, nodes, boxes.value);
    if outputs.Err? { return Err(outputs.error); }
    assert outputs.value == p.Outputs();
    r := Conclude(p, outputs.value);
  }

  datatype Round2Delivery = Round2Delivery(
    ceremony: CeremonyId, recipient: VerifierId, packages: seq<(VerifierId, seq<byte>)>)

  /** The round-2 messages of a network ceremony, by recipient. */
  method BuildDeliveries(p: Plan, k: Sealing, json: Wire<seq<byte>>, pubs: PublicKeys, nodes: seq<FrostDkgNode>)
    returns (r: Result<map<VerifierId, Round2Delivery>, CeremonyError>)
    requires Seats(p, nodes) && |k.secrets| == |nodes|
    modifies nodes
    ensures r.Ok? <==> old(AllInitial(nodes)) && p.SecondOk(|nodes|) && AllSealed(p, k, pubs, |nodes|)
    ensures r.Ok? ==>
              && DoneSecond(p, nodes)
              && (forall to :: to in r.value ==> r.value[to].ceremony == k.ceremony && r.value[to].recipient == to)
              && (forall to :: PackagesFor(r.value, to) == SealedInbox(p, k, json, pubs, |nodes|, to))
  {
    hide SealedInbox, Config.Valid, Plan.Second, Plan.First, AllInitial, AllSealed;
    var boxes := SealedRounds(p, k, json, pubs, nodes);
    if boxes.Err? { return Err(boxes.error); }
    var out := map to | to in boxes.value :: Round2Delivery(k.ceremony, to, boxes.value[to]);
    forall to ensures PackagesFor(out, to) == SealedInbox(p, k, json, pubs, |nodes|, to) {
      assert Mailbox(boxes.value, to) == SealedInbox(p, k, json, pubs, |nodes|, to);
    }
    return Ok(out);
  }

  function PackagesFor(messages: map<VerifierId, Round2Delivery>, to: VerifierId): seq<(VerifierId, seq<byte>)> {
    if to in messages then messages[to].packages else []
  }

  /**
   * Builds the messages, carries each to its recipient, and runs part 3 there. Every node ends with part 3 on
   * what it opens; when the announced keys are the nodes' own, that is the ceremony in the clear.
   */
  method RunNetworkCeremony(p: Plan, k: Sealing, json: Wire<seq<byte>>, pubs: PublicKeys, nodes: seq<FrostDkgNode>)
    returns (r: Result<seq<(Share, GroupKey)>, CeremonyError>)
    requires Seats(p, nodes) && |k.secrets| == |nodes|
    modifies nodes
    ensures r.Ok? <==>
            && old(AllInitial(nodes)) && p.SecondOk(|nodes|) && AllSealed(p, k, pubs, |nodes|)
            && AllReceived(p, k, json, pubs, |nodes|)
    ensures r.Ok? ==> |r.value| == |nodes| && forall i :: 0 <= i < |nodes| ==>
                        nodes[i].state == Completed && Some(r.value[i]) == Received(p, k, json, pubs, i)
    ensures k.crypto.Lawful() && json.Lawful() && KeysMatch(p, k, pubs) ==>
              && (r.Ok? ==> p.ThirdOk(|nodes|) && r.value == p.Outputs())
              && (old(AllInitial(nodes)) && p.ThirdOk(|nodes|) && AllSealed(p, k, pubs, |nodes|) ==> r.Ok?)
  {
    hide SealedInbox, Crypto.Lawful, Wire.Lawful, Config.Valid, Plan.Second, Plan.First, Plan.Third, AllInitial,
      AllSealed, Received, KeysMatch;
    if k.crypto.Lawful() && json.Lawful() && KeysMatch(p, k, pubs) && p.SecondOk(|nodes|) &&
       AllSealed(p, k, pubs, |nodes|) {
      ReceivedOutputs(p, k, json, pubs);
    }
    var messages := BuildDeliveries(p, k, json, pubs, nodes);
    if messages.Err? { return Err(messages.error); }
    var boxes := map to | to in messages.value :: messages.value[to].packages;
    forall to ensures Mailbox(boxes, to) == SealedInbox(p, k, json, pubs, |nodes|, to) {
      assert PackagesFor(messages.value, to) == SealedInbox(p, k, json, pubs, |nodes|, to);
    }
    r := FinishSealed(p, k, json, pubs, nodes, boxes);
  }
}
