/** The in-memory session store: its lock-protected sections as steps on a value, and the object that takes them. */
module SessionStore {
  import opened Wrappers
  import opened Ids
  import opened Session

  // ---- The store's lock-protected sections, as steps on a value ----

  datatype StorageError = AlreadyExists | NotFound | SessionTerminated | DuplicateApproval

  type Outcome = Result<(), StorageError>

  datatype Store = Store(sessions: map<SessionId, SessionRecord>, approvals: map<SessionId, set<VerifierId>>)

  function InsertStep(s: Store, r: SessionRecord): (Store, Outcome) {
    var id := r.context.sessionId;
    if id in s.sessions then (s, Err(AlreadyExists))
    else
      var approvals := if id in s.approvals then s.approvals else s.approvals[id := {}];
      (Store(s.sessions[id := r], approvals), Ok(()))
  }

  function UpdateStep(s: Store, id: SessionId, state: SessionState): (Store, Outcome) {
    if id !in s.sessions then (s, Err(NotFound))
    else if IsTerminal(s.sessions[id].state) then (s, Err(SessionTerminated))
    else (s.(sessions := s.sessions[id := s.sessions[id].(state := state)]), Ok(()))
  }

  /** First section of `record_approval`, under the sessions read lock. */
  function CheckOpen(s: Store, id: SessionId): Outcome {
    if id !in s.sessions then Err(NotFound)
    else if IsTerminal(s.sessions[id].state) then Err(SessionTerminated)
    else Ok(())
  }

  /** Second section of `record_approval`, under the approvals write lock. */
  function AddApproval(s: Store, id: SessionId, v: VerifierId): (Store, Outcome) {
    if id !in s.approvals then (s, Err(NotFound))
    else if v in s.approvals[id] then (s, Err(DuplicateApproval))
    else (s.(approvals := s.approvals[id := s.approvals[id] + {v}]), Ok(()))
  }

  /** `record_approval` with nothing happening between its two sections. */
  function RecordStep(s: Store, id: SessionId, v: VerifierId): (Store, Outcome) {
    var open := CheckOpen(s, id);
    if open.Err? then (s, open) else AddApproval(s, id, v)
  }

  function RemoveStep(s: Store, id: SessionId): Store {
    Store(s.sessions - {id}, s.approvals - {id})
  }

  /**
   * A removed session is as good as never inserted: nothing else changes, every use of it is refused, and it can
   * be inserted again with nobody's approval.
   */
  lemma {:induction false} RemoveForgets(s: Store, id: SessionId)
    ensures var t := RemoveStep(s, id);
            && id !in t.sessions && id !in t.approvals
            && t.sessions.Keys == s.sessions.Keys - {id} && t.approvals.Keys == s.approvals.Keys - {id}
            && (forall k :: k in t.sessions ==> t.sessions[k] == s.sessions[k])
            && (forall k :: k in t.approvals ==> t.approvals[k] == s.approvals[k])
            && (forall state :: UpdateStep(t, id, state) == (t, Err(NotFound)))
            && (forall v :: RecordStep(t, id, v) == (t, Err(NotFound)) && AddApproval(t, id, v) == (t, Err(NotFound)))
    ensures forall r: SessionRecord :: r.context.sessionId == id ==>
              var o := InsertStep(RemoveStep(s, id), r);
              o.1.Ok? && o.0.sessions[id] == r && o.0.approvals[id] == {}
  {
  }

  /** The store object; each method is one caller's uninterrupted call. */
  class InMemorySessionStore {
    var sessions: map<SessionId, SessionRecord>
    var approvals: map<SessionId, set<VerifierId>>
    /** Every state ever written, in order. */
    ghost var trace: seq<(SessionId, SessionState)>

    /** Every session has an approval set, and only sessions do. */
    ghost predicate Valid()
      reads this
    {
      sessions.Keys == approvals.Keys
    }

    ghost function View(): Store
      reads this
    {
      Store(sessions, approvals)
    }

    constructor ()
      ensures Valid() && View() == Store(map[], map[]) && trace == []
    {
      sessions, approvals, trace := map[], map[], [];
    }

    method Insert(r: SessionRecord) returns (out: Outcome)
      modifies this
      ensures (View(), out) == InsertStep(old(View()), r) && (old(Valid()) ==> Valid())
      ensures trace == old(trace) + if out.Ok? then [(r.context.sessionId, r.state)] else []
    {
      var id := r.context.sessionId;
      if id in sessions { return Err(AlreadyExists); }
      if id !in approvals { approvals := approvals[id := {}]; }
      sessions := sessions[id := r];
      trace := trace + [(id, r.state)];
      out := Ok(());
    }

    method UpdateState(id: SessionId, state: SessionState) returns (out: Outcome)
      modifies this
      ensures (View(), out) == UpdateStep(old(View()), id, state) && (old(Valid()) ==> Valid())
      ensures trace == old(trace) + if out.Ok? then [(id, state)] else []
    {
      if id !in sessions { return Err(NotFound); }
      if IsTerminal(sessions[id].state) { return Err(SessionTerminated); }
      sessions := sessions[id := sessions[id].(state := state)];
      trace := trace + [(id, state)];
      out := Ok(());
    }

    method RecordApproval(id: SessionId, v: VerifierId) returns (out: Outcome)
      modifies this`approvals
      ensures (View(), out) == RecordStep(old(View()), id, v) && (old(Valid()) ==> Valid())
    {
      if id !in sessions { return Err(NotFound); }
      if IsTerminal(sessions[id].state) { return Err(SessionTerminated); }
      if id !in approvals { return Err(NotFound); }
      if v in approvals[id] { return Err(DuplicateApproval); }
      approvals := approvals[id := approvals[id] + {v}];
      out := Ok(());
    }

    method HasApproved(id: SessionId, v: VerifierId) returns (b: bool)
      ensures b <==> id in approvals && v in approvals[id]
    {
      b := id in approvals && v in approvals[id];
    }

    method Remove(id: SessionId)
      modifies this`sessions, this`approvals
      ensures View() == RemoveStep(old(View()), id) && (old(Valid()) ==> Valid())
      ensures id !in sessions && id !in approvals
      ensures sessions.Keys == old(sessions.Keys) - {id} && approvals.Keys == old(approvals.Keys) - {id}
    {
      sessions, approvals := sessions - {id}, approvals - {id};
    }
  }
}
