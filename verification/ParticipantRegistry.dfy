/** The versioned participant registry and its history of changes. */
module ParticipantRegistry {
  import opened Bytes
  import opened Wrappers
  import opened Ids
  import opened Canonical
  import opened Quorum
  import opened Threshold

  datatype Status = Active | Revoked | Retired

  datatype Entry = Entry(vid: VerifierId, key: Key, status: Status, since: u64)

  datatype Snapshot = Snapshot(epoch: u64, participants: map<VerifierId, Entry>) {
    /** There are entries, each filed under its own identity. */
    ghost predicate Valid() {
      participants != map[] && forall v :: v in participants ==> participants[v].vid == v
    }
  }

  /** The fields are private, so every registry is one that the operations below made. */
  type Registry = s: Snapshot | s.Valid() witness Single(Entry(Zeros(32), [], Active, 0))

  function Single(e: Entry): (s: Snapshot)
    ensures s.Valid()
  {
    var entries := map[e.vid := e];
    assert e.vid in entries;
    Snapshot(0, entries)
  }

  datatype RegistryError =
    | UnknownParticipant(id: VerifierId)
    | RevokedParticipant(id: VerifierId)
    | RetiredParticipant(id: VerifierId)
    | EpochMismatch(expected: u64, actual: u64)
    | DuplicateParticipant(id: VerifierId)
    | EmptyRegistry
    | StaleRotationEpoch(current: u64, next: u64)
    | RevocationTargetUnknown(id: VerifierId)
    | AlreadyRevoked(id: VerifierId)
    | RotationTargetUnknown(id: VerifierId)

  ghost function VidsOf(entries: seq<Entry>): (ids: seq<VerifierId>)
    ensures |ids| == |entries| && forall i :: 0 <= i < |ids| ==> ids[i] == entries[i].vid
  {
    seq(|entries|, i requires 0 <= i < |entries| => entries[i].vid)
  }

  method New(epoch: u64, entries: seq<Entry>) returns (r: Result<Registry, RegistryError>)
    ensures r.Ok? <==> entries != [] && NoDuplicates(VidsOf(entries))
    ensures r.Err? && entries != [] ==>
              exists i :: 0 <= i < |entries| && r.error == DuplicateParticipant(entries[i].vid)
    ensures entries == [] ==> r == Err(EmptyRegistry)
    ensures r.Ok? ==> r.value.epoch == epoch && |r.value.participants| == |entries|
    ensures r.Ok? ==> forall i :: 0 <= i < |entries| ==>
            entries[i].vid in r.value.participants && r.value.participants[entries[i].vid] == entries[i]
  {
    hide NoDuplicates, SetOf;
    ghost var ids := VidsOf(entries);
    var participants: map<VerifierId, Entry> := map[];
    NoneYet(ids);
    for i := 0 to |entries|
      invariant NoDuplicates(ids[..i]) && participants.Keys == SetOf(ids[..i])
      invariant forall j :: 0 <= j < i ==> ids[j] in participants && participants[ids[j]] == entries[j]
      invariant forall v :: v in participants ==> participants[v].vid == v
    {
      NextDistinct(ids, i);
      var v := entries[i].vid;
      if v in participants { return Err(DuplicateParticipant(v)); }
      participants := participants[v := entries[i]];
    }
    assert ids[..|entries|] == ids;
    DistinctSize(ids);
    assert |participants| == |participants.Keys|;
    if participants == map[] { return Err(EmptyRegistry); }
    return Ok(Snapshot(epoch, participants));
  }

  lemma {:induction false} NoneYet(ids: seq<VerifierId>)
    ensures NoDuplicates(ids[..0]) && SetOf(ids[..0]) == {}
  {
  }

  function GetActive(r: Registry, id: VerifierId): Result<Entry, RegistryError> {
    if id !in r.participants then Err(UnknownParticipant(id))
    else match r.participants[id].status
      case Active => Ok(r.participants[id])
      case Revoked => Err(RevokedParticipant(id))
      case Retired => Err(RetiredParticipant(id))
  }

  ghost predicate IsActive(r: Registry, id: VerifierId) {
    id in r.participants && r.participants[id].status == Active
  }

  /** `e` says why `id` is not active. */
  ghost predicate Refusal(r: Registry, id: VerifierId, e: RegistryError) {
    || (e == UnknownParticipant(id) && id !in r.participants)
    || (id in r.participants && e == RevokedParticipant(id) && r.participants[id].status == Revoked)
    || (id in r.participants && e == RetiredParticipant(id) && r.participants[id].status == Retired)
  }

  /** Admission: the epoch must be the snapshot's own and everyone must be active. */
  method CheckCeremonyAdmission(reg: Registry, expected: u64, ids: seq<VerifierId>)
    returns (r: Result<(), RegistryError>)
    ensures r.Ok? <==> expected == reg.epoch && forall i :: 0 <= i < |ids| ==> IsActive(reg, ids[i])
    ensures r.Err? && expected != reg.epoch ==> r.error == EpochMismatch(expected, reg.epoch)
    ensures r.Err? && expected == reg.epoch ==>
              exists i :: 0 <= i < |ids| && Refusal(reg, ids[i], r.error) &&
                forall j :: 0 <= j < i ==> IsActive(reg, ids[j])
  {
    if expected != reg.epoch { return Err(EpochMismatch(expected, reg.epoch)); }
    for i := 0 to |ids|
      invariant forall j :: 0 <= j < i ==> IsActive(reg, ids[j])
    {
      var a := GetActive(reg, ids[i]);
      if a.Err? {
        assert Refusal(reg, ids[i], a.error);
        return Err(a.error);
      }
    }
    return Ok(());
  }

  // ---- Changes ----

  function Set(r: Registry, e: Entry, epoch: u64): Registry {
    Snapshot(epoch, r.participants[e.vid := e.(since := epoch)])
  }

  function WithRevocation(r: Registry, target: VerifierId, epoch: u64): Result<Registry, RegistryError> {
    if epoch <= r.epoch then Err(StaleRotationEpoch(r.epoch, epoch))
    else if target !in r.participants then Err(RevocationTargetUnknown(target))
    else if r.participants[target].status == Revoked then Err(AlreadyRevoked(target))
    else Ok(Set(r, r.participants[target].(vid := target, status := Revoked), epoch))
  }

  function WithRetirement(r: Registry, target: VerifierId, epoch: u64): Result<Registry, RegistryError> {
    if epoch <= r.epoch then Err(StaleRotationEpoch(r.epoch, epoch))
    else if target !in r.participants then Err(RevocationTargetUnknown(target))
    else Ok(Set(r, r.participants[target].(vid := target, status := Retired), epoch))
  }

  function WithKeyRotation(r: Registry, target: VerifierId, key: Key, epoch: u64): Result<Registry, RegistryError> {
    if epoch <= r.epoch then Err(StaleRotationEpoch(r.epoch, epoch))
    else if target !in r.participants then Err(RotationTargetUnknown(target))
    else Ok(Set(r, Entry(target, key, Active, epoch), epoch))
  }

  datatype Change =
    | Revoke(target: VerifierId, epoch: u64)
    | Retire(target: VerifierId, epoch: u64)
    | Rotate(target: VerifierId, key: Key, epoch: u64)

  function Apply(r: Registry, c: Change): Result<Registry, RegistryError> {
    match c
    case Revoke(t, e) => WithRevocation(r, t, e)
    case Retire(t, e) => WithRetirement(r, t, e)
    case Rotate(t, k, e) => WithKeyRotation(r, t, k, e)
  }

  /** A history: each snapshot comes from the one before by an accepted change. */
  ghost predicate History(regs: seq<Registry>, changes: seq<Change>) {
    && |regs| == |changes| + 1
    && forall i :: 0 <= i < |changes| ==> Apply(regs[i], changes[i]) == Ok(regs[i + 1])
  }

  lemma {:induction false} OneChange(r: Registry, c: Change)
    ensures Apply(r, c).Ok? <==>
            r.epoch < c.epoch && c.target in r.participants &&
            (c.Revoke? ==> r.participants[c.target].status != Revoked)
    ensures Apply(r, c).Ok? ==>
            var n := Apply(r, c).value;
            && r.epoch < n.epoch == c.epoch && c.target in r.participants
            && n.participants.Keys == r.participants.Keys
            && (forall v :: v in r.participants && v != c.target ==> n.participants[v] == r.participants[v])
            && n.participants[c.target].vid == c.target && n.participants[c.target].since == c.epoch
            && n.participants[c.target].status == Outcome(c)
            && n.participants[c.target].key == (if c.Rotate? then c.key else r.participants[c.target].key)
    ensures Apply(r, c).Err? ==>
              match Apply(r, c).error
              case StaleRotationEpoch(current, next) => current == r.epoch && next == c.epoch && next <= current
              case RevocationTargetUnknown(id) => !c.Rotate? && id == c.target && id !in r.participants
              case RotationTargetUnknown(id) => c.Rotate? && id == c.target && id !in r.participants
              case AlreadyRevoked(id) => c.Revoke? && id == c.target && !IsActive(r, id)
              case _ => false
  {
    match c {
      case Revoke(t, e) =>
      case Retire(t, e) =>
      case Rotate(t, k, e) =>
    }
  }

  /** The status a change gives its target. */
  function Outcome(c: Change): Status {
    match c
    case Revoke(_, _) => Revoked
    case Retire(_, _) => Retired
    case Rotate(_, _, _) => Active
  }

  /** The last change in a history that names `t`. */
  function LastFor(changes: seq<Change>, t: VerifierId): Option<Change> {
    if changes == [] then None
    else
      var c := changes[|changes| - 1];
      if c.target == t then Some(c) else LastFor(changes[..|changes| - 1], t)
  }

  /** The last key rotation of `t`. */
  function LastKey(changes: seq<Change>, t: VerifierId): Option<Key> {
    if changes == [] then None
    else
      var c := changes[|changes| - 1];
      if c.Rotate? && c.target == t then Some(c.key) else LastKey(changes[..|changes| - 1], t)
  }

  lemma {:induction false} HistoryPrefix(regs: seq<Registry>, changes: seq<Change>, n: nat)
    requires History(regs, changes) && n <= |changes|
    ensures History(regs[..n + 1], changes[..n])
  {
    hide Apply;
  }

  /**
   * Every history: later snapshots have strictly higher epochs and the same participants, and a
   * participant's status and key are those of the last change that set them.
   */
  lemma {:induction false} EveryHistory(regs: seq<Registry>, changes: seq<Change>, t: VerifierId)
    requires History(regs, changes)
    ensures var last := regs[|changes|];
            && last.participants.Keys == regs[0].participants.Keys
            && (forall i :: 0 <= i < |changes| ==> regs[i].epoch < last.epoch)
            && (t in last.participants ==>
                  && last.participants[t].status ==
                     (if LastFor(changes, t).Some? then Outcome(LastFor(changes, t).value)
                      else regs[0].participants[t].status)
                  && last.participants[t].since ==
                     (if LastFor(changes, t).Some? then LastFor(changes, t).value.epoch
                      else regs[0].participants[t].since)
                  && last.participants[t].key ==
                     (if LastKey(changes, t).Some? then LastKey(changes, t).value else regs[0].participants[t].key))
    decreases |changes|
  {
    hide Apply;
    if changes != [] {
      var n := |changes| - 1;
      HistoryPrefix(regs, changes, n);
      EveryHistory(regs[..n + 1], changes[..n], t);
      assert regs[..n + 1][n] == regs[n] && regs[..n + 1][0] == regs[0];
      OneChange(regs[n], changes[n]);
      forall i | 0 <= i < |changes| ensures regs[i].epoch < regs[n + 1].epoch {
        if i < n { assert regs[..n + 1][i].epoch < regs[n].epoch; }
      }
    }
  }

  lemma {:induction false} HistoryTo(regs: seq<Registry>, changes: seq<Change>, n: nat, t: VerifierId)
    requires History(regs, changes) && n <= |changes|
    ensures regs[n].participants.Keys == regs[0].participants.Keys
    ensures t in regs[0].participants && LastFor(changes[..n], t).Some? ==>
              regs[n].participants[t].status == Outcome(LastFor(changes[..n], t).value)
  {
    hide Apply, LastFor, LastKey;
    HistoryPrefix(regs, changes, n);
    EveryHistory(regs[..n + 1], changes[..n], t);
    assert regs[..n + 1][n] == regs[n] && regs[..n + 1][0] == regs[0];
  }

  /** A revoked or retired participant stays refused until its key is rotated, and exactly until then. */
  lemma {:induction false} RefusedUntilRotated(regs: seq<Registry>, changes: seq<Change>, i: nat, j: nat)
    requires History(regs, changes) && i < j <= |changes| && !changes[i].Rotate?
    ensures var t := changes[i].target;
            IsActive(regs[j], t) <==> LastFor(changes[i + 1..j], t).Some? && LastFor(changes[i + 1..j], t).value.Rotate?
  {
    var t := changes[i].target;
    assert Apply(regs[i], changes[i]) == Ok(regs[i + 1]);
    HistoryTo(regs, changes, i, t);
    HistoryTo(regs, changes, j, t);
    hide History;
    OneChange(regs[i], changes[i]);
    hide *;
    LastAfter(changes, i, j);
    OutcomeActive(LastFor(changes[..j], t).value);
    OutcomeActive(changes[i]);
    ActiveStatus(regs[j], t);
  }

  lemma {:induction false} OutcomeActive(c: Change)
    ensures Outcome(c) == Active <==> c.Rotate?
  {
  }

  lemma {:induction false} ActiveStatus(r: Registry, t: VerifierId)
    requires t in r.participants
    ensures IsActive(r, t) <==> r.participants[t].status == Active
  {
  }

  lemma {:induction false} LastAfter(changes: seq<Change>, i: nat, j: nat)
    requires i < j <= |changes|
    ensures var later := LastFor(changes[i + 1..j], changes[i].target);
            LastFor(changes[..j], changes[i].target) == (if later.Some? then later else Some(changes[i]))
  {
    var upTo := changes[..i + 1];
    assert upTo[|upTo| - 1] == changes[i];
    assert changes[..j] == upTo + changes[i + 1..j];
    LastOfConcat(upTo, changes[i + 1..j], changes[i].target);
  }

  lemma {:induction false} LastOfConcat(a: seq<Change>, b: seq<Change>, t: VerifierId)
    ensures LastFor(a + b, t) == (if LastFor(b, t).Some? then LastFor(b, t) else LastFor(a, t))
    decreases |b|
  {
    if b == [] {
      assert a + b == a;
    } else {
      assert (a + b)[..|a + b| - 1] == a + b[..|b| - 1];
      LastOfConcat(a, b[..|b| - 1], t);
    }
  }
}
