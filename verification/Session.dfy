/** The session state machine. */
module Session {
  import A = Attestation

  datatype SessionState = Pending | Active | Attesting | Collecting | Finalized | Expired | Failed(reason: string)

  predicate IsTerminal(s: SessionState) {
    s.Finalized? || s.Expired? || s.Failed?
  }

  predicate CanTransition(s: SessionState, next: SessionState) {
    if IsTerminal(s) then false
    else
      || (s.Pending? && next.Active?)
      || (s.Active? && next.Attesting?)
      || (s.Attesting? && next.Collecting?)
      || (s.Collecting? && next.Finalized?)
      || next.Expired?
      || next.Failed?
  }

  /** A run of the state machine from its initial state. */
  ghost predicate IsPath(p: seq<SessionState>) {
    p != [] && p[0] == Pending && forall i :: 0 <= i < |p| - 1 ==> CanTransition(p[i], p[i + 1])
  }

  const STAGES: seq<SessionState> := [Pending, Active, Attesting, Collecting, Finalized]

  /** Every run walks the stages in order, possibly cut short by one expiry or failure. */
  lemma {:induction false} PathShape(p: seq<SessionState>)
    requires IsPath(p)
    ensures |p| <= 5
    ensures p == STAGES[..|p|] ||
            (|p| >= 2 && p[..|p| - 1] == STAGES[..|p| - 1] && (p[|p| - 1].Expired? || p[|p| - 1].Failed?))
  {
    var n := |p| - 1;
    if n > 0 {
      PathShape(p[..n]);
      assert CanTransition(p[n - 1], p[n]);
      assert p == p[..n] + [p[n]];
      if p[..n] == STAGES[..n] {
        assert p[n - 1] == STAGES[n - 1];
      }
    }
  }

  /** A walk through the stages, possibly cut short by one expiry or failure. */
  ghost predicate IsWalk(p: seq<SessionState>) {
    1 <= |p| <= 5 &&
    (p == STAGES[..|p|] ||
     (|p| >= 2 && p[..|p| - 1] == STAGES[..|p| - 1] && (p[|p| - 1].Expired? || p[|p| - 1].Failed?)))
  }

  /** The runs of the state machine are exactly these walks. */
  lemma {:induction false} PathsExactly(p: seq<SessionState>)
    ensures IsPath(p) <==> IsWalk(p)
  {
    if IsPath(p) { PathShape(p); }
    if IsWalk(p) {
      forall i | 0 <= i < |p| - 1 ensures CanTransition(p[i], p[i + 1]) {
        assert p[i] == STAGES[i];
        if i + 1 < |p| - 1 || p == STAGES[..|p|] { assert p[i + 1] == STAGES[i + 1]; }
      }
    }
  }

  datatype SessionRecord = SessionRecord(context: A.SessionContext, state: SessionState)

  class LiveSession {
    const context: A.SessionContext
    var state: SessionState

    constructor (context: A.SessionContext)
      ensures this.context == context && state == Pending
    {
      this.context := context;
      state := Pending;
    }

    method Transition(next: SessionState) returns (ok: bool)
      modifies this
      ensures ok == CanTransition(old(state), next)
      ensures state == if ok then next else old(state)
    {
      ok := CanTransition(state, next);
      if ok { state := next; }
    }

    method Expire()
      modifies this
      ensures state == if IsTerminal(old(state)) then old(state) else Expired
    {
      if !IsTerminal(state) { state := Expired; }
    }

    method Fail(reason: string)
      modifies this
      ensures state == if IsTerminal(old(state)) then old(state) else Failed(reason)
    {
      if !IsTerminal(state) { state := Failed(reason); }
    }
  }
}
