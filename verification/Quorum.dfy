/** Quorum specifications and when they are satisfied. */
module Quorum {
  import opened Wrappers
  import opened Ids

  datatype QuorumSpec = QuorumSpec(verifiers: seq<VerifierId>, threshold: nat)

  function New(verifiers: seq<VerifierId>, threshold: nat): Result<QuorumSpec, string> {
    if verifiers == [] then Err("verifier set must not be empty")
    else if threshold == 0 then Err("threshold must be at least 1")
    else if threshold > |verifiers| then Err("threshold exceeds verifier count")
    else Ok(QuorumSpec(verifiers, threshold))
  }

  /** How many positions of `verifiers` hold an approver. */
  function Count(verifiers: seq<VerifierId>, approvers: set<VerifierId>): nat {
    if verifiers == [] then 0
    else (if verifiers[0] in approvers then 1 else 0) + Count(verifiers[1..], approvers)
  }

  function SetOf(s: seq<VerifierId>): set<VerifierId> {
    set v | v in s
  }

  predicate IsSatisfiedBy(q: QuorumSpec, approvers: seq<VerifierId>) {
    Count(q.verifiers, SetOf(approvers)) >= q.threshold
  }

  /** How many distinct eligible verifiers approved. */
  function Eligible(q: QuorumSpec, approvers: seq<VerifierId>): set<VerifierId> {
    SetOf(q.verifiers) * SetOf(approvers)
  }

  ghost predicate NoDuplicates(s: seq<VerifierId>) {
    forall i, j :: 0 <= i < j < |s| ==> s[i] != s[j]
  }

  // ---- Position counts against set sizes ----

  lemma {:induction false} SetOfCons(s: seq<VerifierId>, a: set<VerifierId>)
    requires s != []
    ensures SetOf(s) == {s[0]} + SetOf(s[1..])
    ensures SetOf(s) * a == (if s[0] in a then {s[0]} else {}) + SetOf(s[1..]) * a
  {
    assert s == [s[0]] + s[1..];
  }

  lemma {:induction false} CountBounds(s: seq<VerifierId>, a: set<VerifierId>)
    ensures |SetOf(s) * a| <= Count(s, a) <= |s|
    ensures Count(s, a) >= 1 ==> |SetOf(s) * a| >= 1
  {
    if s != [] {
      CountBounds(s[1..], a);
      SetOfCons(s, a);
      hide SetOf;
      if s[0] in a { assert s[0] in SetOf(s) * a; }
    }
  }

  lemma {:induction false} CountDistinct(s: seq<VerifierId>, a: set<VerifierId>)
    requires NoDuplicates(s)
    ensures Count(s, a) == |SetOf(s) * a|
  {
    if s != [] {
      CountDistinct(s[1..], a);
      SetOfCons(s, a);
      assert s[0] !in SetOf(s[1..]);
    }
  }

  /** A repeated approving verifier is counted at least twice. */
  lemma {:induction false} CountGap(s: seq<VerifierId>, a: set<VerifierId>, i: nat, j: nat)
    requires i < j < |s| && s[i] == s[j] && s[i] in a
    ensures |SetOf(s) * a| < Count(s, a)
  {
    SetOfCons(s, a);
    if i == 0 {
      CountBounds(s[1..], a);
      assert s[1..][j - 1] == s[0];
      assert SetOf(s) * a == SetOf(s[1..]) * a;
    } else {
      CountGap(s[1..], a, i - 1, j - 1);
    }
  }

  lemma {:induction false} CountAll(s: seq<VerifierId>, a: set<VerifierId>)
    requires SetOf(s) <= a
    ensures Count(s, a) == |s|
  {
    if s != [] {
      SetOfCons(s, a);
      CountAll(s[1..], a);
    }
  }

  /** What one more position does to a duplicate-free prefix. */
  lemma {:induction false} NextDistinct(s: seq<VerifierId>, i: nat)
    requires i < |s| && NoDuplicates(s[..i])
    ensures SetOf(s[..i + 1]) == SetOf(s[..i]) + {s[i]}
    ensures s[i] !in SetOf(s[..i]) ==> NoDuplicates(s[..i + 1])
    ensures s[i] in SetOf(s[..i]) ==> !NoDuplicates(s)
  {
    assert s[..i + 1] == s[..i] + [s[i]];
    if s[i] in SetOf(s[..i]) {
      var j :| 0 <= j < i && s[..i][j] == s[i];
      assert s[j] == s[i];
    }
  }

  /** A list has as many members as positions exactly when nothing repeats. */
  lemma {:induction false} DistinctSize(s: seq<VerifierId>)
    ensures |SetOf(s)| == |s| <==> NoDuplicates(s)
  {
    CountAll(s, SetOf(s));
    assert SetOf(s) * SetOf(s) == SetOf(s);
    if NoDuplicates(s) {
      CountDistinct(s, SetOf(s));
    } else {
      var i, j :| 0 <= i < j < |s| && s[i] == s[j];
      CountGap(s, SetOf(s), i, j);
    }
  }

  /** A quorum is accepted exactly when all its verifiers together satisfy it and nobody does not. */
  lemma {:induction false} NewExactly(verifiers: seq<VerifierId>, threshold: nat)
    ensures var q := QuorumSpec(verifiers, threshold);
            && (New(verifiers, threshold).Ok? <==> IsSatisfiedBy(q, verifiers) && !IsSatisfiedBy(q, []))
            && (New(verifiers, threshold).Ok? ==> New(verifiers, threshold).value == q)
  {
    CountAll(verifiers, SetOf(verifiers));
    CountBounds(verifiers, SetOf([]));
    CountNone(verifiers);
  }

  lemma {:induction false} CountNone(s: seq<VerifierId>)
    ensures Count(s, SetOf([])) == 0
  {
    if s != [] { CountNone(s[1..]); }
  }

  /** For a duplicate-free quorum, satisfaction is exactly `threshold` distinct eligible approvers. */
  lemma {:induction false} SatisfiedIsDistinct(q: QuorumSpec, approvers: seq<VerifierId>)
    requires NoDuplicates(q.verifiers)
    ensures IsSatisfiedBy(q, approvers) <==> |Eligible(q, approvers)| >= q.threshold
  {
    CountDistinct(q.verifiers, SetOf(approvers));
  }

  /** The quorum check counts each verifier at most once, for this list of approvers. */
  ghost predicate CountsOnce(q: QuorumSpec, approvers: seq<VerifierId>) {
    IsSatisfiedBy(q, approvers) <==> |Eligible(q, approvers)| >= q.threshold
  }

  /** `[a, a]` with threshold 2 is accepted as a quorum and satisfied by one approver. */
  lemma {:induction false} DuplicateCounterexample(a: VerifierId)
    ensures var q := QuorumSpec([a, a], 2);
            New(q.verifiers, 2) == Ok(q) && IsSatisfiedBy(q, [a]) && |Eligible(q, [a])| == 1
  {
    var s := [a, a];
    assert SetOf([a]) == {a} && SetOf(s) == {a};
    assert s[1..] == [a] && [a][1..] == [];
    assert Count([a], {a}) == 1;
    assert Count(s, {a}) == 2;
    assert SetOf(s) * SetOf([a]) == {a};
  }

  /**
   * Set semantics holds for every list of approvers exactly when the verifier list has no
   * duplicates, or the threshold is trivial or out of reach.
   */
  lemma {:induction false} CountsOnceExactly(q: QuorumSpec)
    ensures (forall approvers :: CountsOnce(q, approvers)) <==>
            NoDuplicates(q.verifiers) || q.threshold <= 1 || q.threshold > |q.verifiers|
  {
    if NoDuplicates(q.verifiers) || q.threshold <= 1 || q.threshold > |q.verifiers| {
      forall approvers ensures CountsOnce(q, approvers) {
        CountBounds(q.verifiers, SetOf(approvers));
        if NoDuplicates(q.verifiers) { CountDistinct(q.verifiers, SetOf(approvers)); }
      }
    } else {
      var i, j :| 0 <= i < j < |q.verifiers| && q.verifiers[i] == q.verifiers[j];
      var approvers := Overcounted(q, i, j, |q.verifiers|);
      assert !CountsOnce(q, approvers);
    }
  }

  /** Adding verifiers one at a time, the first list that is enough by position is one short by identity. */
  lemma {:induction false} Overcounted(q: QuorumSpec, i: nat, j: nat, m: nat) returns (approvers: seq<VerifierId>)
    requires i < j < |q.verifiers| && q.verifiers[i] == q.verifiers[j]
    requires 2 <= q.threshold <= |q.verifiers| && m <= |q.verifiers|
    requires m == |q.verifiers| || IsSatisfiedBy(q, [q.verifiers[i]] + q.verifiers[..m])
    ensures IsSatisfiedBy(q, approvers) && |Eligible(q, approvers)| < q.threshold
  {
    hide *;
    var vs, a := q.verifiers, q.verifiers[i];
    approvers := [a] + vs[..m];
    if m == |vs| { AllApprove(q, a); }
    if m == 0 {
      OnlyOne(q, a);
    } else {
      var fewer := [a] + vs[..m - 1];
      if IsSatisfiedBy(q, fewer) {
        approvers := Overcounted(q, i, j, m - 1);
      } else {
        OneShort(q, fewer, i, j);
        OneMore(q, fewer, vs[m - 1]);
        assert approvers == fewer + [vs[m - 1]];
      }
    }
  }

  lemma {:induction false} AllApprove(q: QuorumSpec, a: VerifierId)
    requires q.threshold <= |q.verifiers|
    ensures IsSatisfiedBy(q, [a] + q.verifiers[..|q.verifiers|])
  {
    CountAll(q.verifiers, SetOf([a] + q.verifiers[..|q.verifiers|]));
  }

  lemma {:induction false} OnlyOne(q: QuorumSpec, a: VerifierId)
    ensures |Eligible(q, [a] + q.verifiers[..0])| <= 1
  {
    SubsetSize(Eligible(q, [a] + q.verifiers[..0]), {a});
  }

  lemma {:induction false} OneShort(q: QuorumSpec, approvers: seq<VerifierId>, i: nat, j: nat)
    requires i < j < |q.verifiers| && q.verifiers[i] == q.verifiers[j] && q.verifiers[i] in approvers
    requires !IsSatisfiedBy(q, approvers)
    ensures |Eligible(q, approvers)| + 1 < q.threshold
  {
    CountGap(q.verifiers, SetOf(approvers), i, j);
  }

  lemma {:induction false} OneMore(q: QuorumSpec, approvers: seq<VerifierId>, v: VerifierId)
    ensures |Eligible(q, approvers + [v])| <= |Eligible(q, approvers)| + 1
  {
    SubsetSize(Eligible(q, approvers + [v]), Eligible(q, approvers) + {v});
  }

  lemma {:induction false} SubsetSize<T>(a: set<T>, b: set<T>)
    requires a <= b
    ensures |a| <= |b|
  {
    assert b == a + (b - a);
  }
}
