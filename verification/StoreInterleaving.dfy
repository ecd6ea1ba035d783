/** The session store under concurrent callers: any interleaving of critical sections. */
module StoreInterleaving {
  import opened Wrappers
  import opened Ids
  import opened Session
  import opened SessionStore

  // ---- Concurrent callers: any interleaving of the sections ----

  /** One critical section taken by some caller; `call` numbers the `record_approval` calls. */
  datatype Event =
    | InsertEv(record: SessionRecord)
    | UpdateEv(id: SessionId, state: SessionState)
    | CheckEv(call: nat, id: SessionId, v: VerifierId)
    | CommitEv(call: nat, id: SessionId, v: VerifierId)
    | RemoveEv(id: SessionId)

  datatype Call = Call(call: nat, id: SessionId, v: VerifierId)

  /** One successful approval: of which session, in which of its insertions, by whom. */
  datatype Entry = Entry(id: SessionId, generation: nat, v: VerifierId)

  datatype World = World(
    store: Store,
    pending: set<Call>,                // calls between their two sections
    generations: map<SessionId, nat>,  // successful insertions so far
    log: seq<Entry>)                   // successful approvals so far

  const EMPTY: World := World(Store(map[], map[]), {}, map[], [])

  function Generation(w: World, id: SessionId): nat {
    if id in w.generations then w.generations[id] else 0
  }

  function Step(w: World, e: Event): World {
    match e
    case InsertEv(r) =>
      var (s, out) := InsertStep(w.store, r);
      var id := r.context.sessionId;
      if out.Err? then w else w.(store := s, generations := w.generations[id := Generation(w, id) + 1])
    case UpdateEv(id, state) => w.(store := UpdateStep(w.store, id, state).0)
    case CheckEv(c, id, v) =>
      if CheckOpen(w.store, id).Ok? then w.(pending := w.pending + {Call(c, id, v)}) else w
    case CommitEv(c, id, v) =>
      if Call(c, id, v) !in w.pending then w
      else
        var (s, out) := AddApproval(w.store, id, v);
        var log := if out.Ok? then w.log + [Entry(id, Generation(w, id), v)] else w.log;
        World(s, w.pending - {Call(c, id, v)}, w.generations, log)
    case RemoveEv(id) => w.(store := RemoveStep(w.store, id))
  }

  function Run(w: World, es: seq<Event>): World
    decreases es
  {
    if es == [] then w else Run(Step(w, es[0]), es[1..])
  }

  // ---- What every interleaving keeps ----

  ghost predicate Inv(w: World) {
    && w.store.sessions.Keys == w.store.approvals.Keys
    && (forall id :: id in w.store.approvals ==>
          w.store.approvals[id] == set e | e in w.log && e.id == id && e.generation == Generation(w, id) :: e.v)
    && (forall e :: e in w.log ==> e.generation <= Generation(w, e.id))
    && (forall i, j :: 0 <= i < j < |w.log| ==> w.log[i] != w.log[j])
  }

  lemma {:induction false} StepKeepsInv(w: World, e: Event)
    requires Inv(w)
    ensures Inv(Step(w, e))
  {
    var w' := Step(w, e);
    if e.CommitEv? && Call(e.call, e.id, e.v) in w.pending && AddApproval(w.store, e.id, e.v).1.Ok? {
      CommitKeepsInv(w, w', e.id, e.v);
    } else if e.InsertEv? && InsertStep(w.store, e.record).1.Ok? {
      InsertKeepsInv(w, w', e.record.context.sessionId);
    } else {
      assert w'.store.sessions.Keys == w'.store.approvals.Keys;
      SameHistoryKeepsInv(w, w');
    }
  }

  lemma {:induction false} SameHistoryKeepsInv(w: World, w': World)
    requires Inv(w) && w'.log == w.log && w'.generations == w.generations
    requires w'.store.sessions.Keys == w'.store.approvals.Keys
    requires forall id :: id in w'.store.approvals ==>
             id in w.store.approvals && w'.store.approvals[id] == w.store.approvals[id]
    ensures Inv(w')
  {
  }

  lemma {:induction false} InsertKeepsInv(w: World, w': World, id: SessionId)
    requires Inv(w) && id !in w.store.sessions
    requires w'.store.sessions.Keys == w.store.sessions.Keys + {id} && w'.store.approvals == w.store.approvals[id := {}]
    requires w'.log == w.log && w'.generations == w.generations[id := Generation(w, id) + 1]
    ensures Inv(w')
  {
    forall x | x in w'.store.approvals
      ensures w'.store.approvals[x] == set e | e in w'.log && e.id == x && e.generation == Generation(w', x) :: e.v
    {
      if x != id { assert x in w.store.approvals; }
    }
  }

  lemma {:induction false} CommitKeepsInv(w: World, w': World, id: SessionId, v: VerifierId)
    requires Inv(w) && id in w.store.approvals && v !in w.store.approvals[id]
    requires w'.store == w.store.(approvals := w.store.approvals[id := w.store.approvals[id] + {v}])
    requires w'.generations == w.generations && w'.log == w.log + [Entry(id, Generation(w, id), v)]
    ensures Inv(w')
  {
    var n := Entry(id, Generation(w, id), v);
    assert n !in w.log;
    forall x | x in w'.store.approvals
      ensures w'.store.approvals[x] == set e | e in w'.log && e.id == x && e.generation == Generation(w', x) :: e.v
    {
      var before := set e | e in w.log && e.id == x && e.generation == Generation(w, x) :: e.v;
      assert w.store.approvals[x] == before;
      if x == id { assert w'.log[|w.log|] == n; }
    }
  }

  /** Session and approval keys agree, and no verifier is recorded twice for one insertion of a session. */
  lemma {:induction false} EveryInterleaving(w: World, es: seq<Event>)
    requires Inv(w)
    ensures Inv(Run(w, es))
    decreases es
  {
    if es != [] {
      StepKeepsInv(w, es[0]);
      EveryInterleaving(Step(w, es[0]), es[1..]);
    }
  }

  /** The same, spelled out for every state reachable from the empty store. */
  lemma {:induction false} Reachable(es: seq<Event>)
    ensures var w := Run(EMPTY, es);
            && w.store.sessions.Keys == w.store.approvals.Keys
            && (forall i, j :: 0 <= i < j < |w.log| ==> w.log[i] != w.log[j])
            && (forall id, v :: id in w.store.approvals ==>
                  (v in w.store.approvals[id] <==> Entry(id, Generation(w, id), v) in w.log))
  {
    EveryInterleaving(EMPTY, es);
    var w := Run(EMPTY, es);
    forall id, v | id in w.store.approvals
      ensures v in w.store.approvals[id] <==> Entry(id, Generation(w, id), v) in w.log
    {
      assert w.store.approvals[id] == set e | e in w.log && e.id == id && e.generation == Generation(w, id) :: e.v;
    }
  }

  /** A terminal session keeps its record until it is removed. */
  lemma {:induction false} TerminalIsForever(w: World, es: seq<Event>, id: SessionId)
    requires id in w.store.sessions && IsTerminal(w.store.sessions[id].state)
    requires RemoveEv(id) !in es
    ensures id in Run(w, es).store.sessions && Run(w, es).store.sessions[id] == w.store.sessions[id]
    decreases es
  {
    if es != [] {
      TerminalIsForever(Step(w, es[0]), es[1..], id);
    }
  }

  // ---- When the two sections act as one ----

  ghost predicate Closed(s: Store, id: SessionId) {
    id in s.sessions && IsTerminal(s.sessions[id].state)
  }

  /** The second section alone does what the whole call would do now, exactly unless the session has become terminal. */
  lemma {:induction false} CommitIsAtomic(w: World, id: SessionId, v: VerifierId)
    requires Inv(w)
    ensures AddApproval(w.store, id, v) == RecordStep(w.store, id, v) <==> !Closed(w.store, id)
  {
  }

  /** An event that can close the session or drop it. */
  ghost predicate Closes(e: Event, id: SessionId) {
    (e.UpdateEv? && e.id == id && IsTerminal(e.state)) || e == RemoveEv(id)
  }

  lemma {:induction false} StaysOpen(w: World, es: seq<Event>, id: SessionId)
    requires CheckOpen(w.store, id).Ok?
    requires forall i :: 0 <= i < |es| ==> !Closes(es[i], id)
    ensures CheckOpen(Run(w, es).store, id).Ok?
    decreases es
  {
    if es != [] {
      assert !Closes(es[0], id);
      StaysOpen(Step(w, es[0]), es[1..], id);
    }
  }

  /** A call whose session nobody closes or removes between its two sections is one atomic step. */
  lemma {:induction false} UndisturbedCallIsAtomic(w: World, es: seq<Event>, id: SessionId, v: VerifierId)
    requires Inv(w) && CheckOpen(w.store, id).Ok?
    requires forall i :: 0 <= i < |es| ==> !Closes(es[i], id)
    ensures var s := Run(w, es).store;
            AddApproval(s, id, v) == RecordStep(s, id, v)
  {
    EveryInterleaving(w, es);
    StaysOpen(w, es, id);
  }

  /** One caller finalises between another's sections: the approval lands on a finalised session. */
  lemma {:induction false} LateApproval(r: SessionRecord, v: VerifierId)
    requires !IsTerminal(r.state)
    ensures var id := r.context.sessionId;
            var w := Run(EMPTY, [InsertEv(r), CheckEv(0, id, v), UpdateEv(id, Finalized)]);
            var w' := Step(w, CommitEv(0, id, v));
            && Closed(w.store, id) && RecordStep(w.store, id, v).1 == Err(SessionTerminated)
            && Closed(w'.store, id) && id in w'.store.approvals && v in w'.store.approvals[id]
  {
    var id := r.context.sessionId;
    var a, b, c := InsertEv(r), CheckEv(0, id, v), UpdateEv(id, Finalized);
    var w1 := Step(EMPTY, a);
    var w2 := Step(w1, b);
    var w3 := Step(w2, c);
    assert [a, b, c][1..] == [b, c] && [b, c][1..] == [c] && [c][1..] == [];
    assert Run(w3, []) == w3;
    assert Run(w2, [c]) == w3;
    assert Run(w1, [b, c]) == w3;
    assert Run(EMPTY, [a, b, c]) == w3;
  }

  // ---- Linearisation ----

  /** The sequential calls that take effect. */
  datatype Op =
    | InsertOp(record: SessionRecord)
    | UpdateOp(id: SessionId, state: SessionState)
    | RecordOp(id: SessionId, v: VerifierId)
    | RemoveOp(id: SessionId)

  /** The store after one whole call, and what the call returns. */
  function Apply(s: Store, op: Op): (Store, Outcome) {
    match op
    case InsertOp(r) => InsertStep(s, r)
    case UpdateOp(id, state) => UpdateStep(s, id, state)
    case RecordOp(id, v) => RecordStep(s, id, v)
    case RemoveOp(id) => (RemoveStep(s, id), Ok(()))
  }

  /** Whole calls one after the other: the final store and every call's return value. */
  function ApplyAll(s: Store, ops: seq<Op>): (Store, seq<Outcome>)
    decreases ops
  {
    if ops == [] then (s, [])
    else
      var (t, out) := Apply(s, ops[0]);
      var (last, outs) := ApplyAll(t, ops[1..]);
      (last, [out] + outs)
  }

  /** The call that returns at an event, if any: an approval returns at its refused check or at its commit. */
  function Returning(w: World, e: Event): Option<Op> {
    match e
    case InsertEv(r) => Some(InsertOp(r))
    case UpdateEv(id, state) => Some(UpdateOp(id, state))
    case CheckEv(_, id, v) => if CheckOpen(w.store, id).Err? then Some(RecordOp(id, v)) else None
    case CommitEv(c, id, v) => if Call(c, id, v) in w.pending then Some(RecordOp(id, v)) else None
    case RemoveEv(id) => Some(RemoveOp(id))
  }

  /** What that call returns to its caller. */
  function Returned(w: World, e: Event): Outcome {
    match e
    case InsertEv(r) => InsertStep(w.store, r).1
    case UpdateEv(id, state) => UpdateStep(w.store, id, state).1
    case CheckEv(_, id, _) => CheckOpen(w.store, id)
    case CommitEv(_, id, v) => AddApproval(w.store, id, v).1
    case RemoveEv(_) => Ok(())
  }

  /** The calls of an interleaving in the order in which they return. */
  function Linearise(w: World, es: seq<Event>): seq<Op>
    decreases es
  {
    if es == [] then []
    else
      var op := Returning(w, es[0]);
      (if op.Some? then [op.value] else []) + Linearise(Step(w, es[0]), es[1..])
  }

  /** What the callers of an interleaving see, in the same order. */
  function Seen(w: World, es: seq<Event>): seq<Outcome>
    decreases es
  {
    if es == [] then []
    else (if Returning(w, es[0]).Some? then [Returned(w, es[0])] else []) + Seen(Step(w, es[0]), es[1..])
  }

  /** No call in `es` commits on a session that has meanwhile become terminal. */
  ghost predicate NoLateCommit(w: World, es: seq<Event>)
    decreases es
  {
    es != [] ==>
      && (es[0].CommitEv? && Call(es[0].call, es[0].id, es[0].v) in w.pending ==> !Closed(w.store, es[0].id))
      && NoLateCommit(Step(w, es[0]), es[1..])
  }

  /** One event does to the store what the call that returns at it would do whole, and returns the same. */
  lemma {:induction false} EventIsCall(w: World, e: Event)
    requires Inv(w)
    requires e.CommitEv? && Call(e.call, e.id, e.v) in w.pending ==> !Closed(w.store, e.id)
    ensures Returning(w, e).Some? ==> (Step(w, e).store, Returned(w, e)) == Apply(w.store, Returning(w, e).value)
    ensures Returning(w, e).None? ==> Step(w, e).store == w.store
  {
    if e.CommitEv? { CommitIsAtomic(w, e.id, e.v); }
  }

  /**
   * Without late commits every interleaving is linearisable: running its calls whole, in the order in which
   * they return, ends in the same store and gives every caller the same answer.
   */
  lemma {:induction false} Linearisable(w: World, es: seq<Event>)
    requires Inv(w) && NoLateCommit(w, es)
    ensures (Run(w, es).store, Seen(w, es)) == ApplyAll(w.store, Linearise(w, es))
    decreases es
  {
    hide Inv, Step, Returning, Returned, Apply;
    if es != [] {
      var e, w' := es[0], Step(w, es[0]);
      StepKeepsInv(w, e);
      Linearisable(w', es[1..]);
      EventIsCall(w, e);
      var op, rest := Returning(w, e), Linearise(w', es[1..]);
      if op.Some? {
        assert ([op.value] + rest)[0] == op.value && ([op.value] + rest)[1..] == rest;
      } else {
        assert [] + rest == rest && [] + Seen(w', es[1..]) == Seen(w', es[1..]);
      }
    }
  }

  // ---- Sessions do not interfere ----

  function EventId(e: Event): SessionId {
    if e.InsertEv? then e.record.context.sessionId else e.id
  }

  /** All that callers working on `id` can see or affect. */
  datatype Slice = Slice(record: Option<SessionRecord>, approvals: Option<set<VerifierId>>, pending: set<Call>)

  function SliceOf(w: World, id: SessionId): Slice {
    Slice(if id in w.store.sessions then Some(w.store.sessions[id]) else None,
          if id in w.store.approvals then Some(w.store.approvals[id]) else None,
          set c | c in w.pending && c.id == id)
  }

  function Only(es: seq<Event>, id: SessionId): seq<Event> {
    if es == [] then [] else (if EventId(es[0]) == id then [es[0]] else []) + Only(es[1..], id)
  }

  lemma {:induction false} OthersLeaveAlone(w: World, e: Event, id: SessionId)
    requires EventId(e) != id
    ensures SliceOf(Step(w, e), id) == SliceOf(w, id)
  {
  }

  lemma {:induction false} SameSliceSameStep(w: World, u: World, e: Event, id: SessionId)
    requires EventId(e) == id && SliceOf(w, id) == SliceOf(u, id)
    ensures SliceOf(Step(w, e), id) == SliceOf(Step(u, e), id)
  {
    forall c ensures c in SliceOf(Step(w, e), id).pending <==> c in SliceOf(Step(u, e), id).pending {
      assert c in SliceOf(w, id).pending <==> c in SliceOf(u, id).pending;
    }
    if e.CommitEv? {
      var c := Call(e.call, e.id, e.v);
      assert c in SliceOf(w, id).pending <==> c in SliceOf(u, id).pending;
    }
  }

  /** What happens to a session depends only on the events that concern it. */
  lemma {:induction false} Isolation(w: World, u: World, es: seq<Event>, id: SessionId)
    requires SliceOf(w, id) == SliceOf(u, id)
    ensures SliceOf(Run(w, es), id) == SliceOf(Run(u, Only(es, id)), id)
    decreases es
  {
    if es != [] {
      var e := es[0];
      if EventId(e) == id {
        SameSliceSameStep(w, u, e, id);
        Isolation(Step(w, e), Step(u, e), es[1..], id);
        assert Only(es, id)[1..] == Only(es[1..], id);
      } else {
        OthersLeaveAlone(w, e, id);
        Isolation(Step(w, e), u, es[1..], id);
        assert Only(es, id) == Only(es[1..], id);
      }
    }
  }
}
