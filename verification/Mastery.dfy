/** Practice mastery: the fold over attempts, its independent validators, and the sequential gate. */
module Mastery {
  import opened Slices
  import opened Text

  datatype Stage = Explain | Trace | Rebuild | Debug | Defend
  datatype Outcome = Pass | NeedsWork
  datatype Status = Captured | InPractice | InterviewReady

  const STAGES: seq<Stage> := [Explain, Trace, Rebuild, Debug, Defend]

  function Rank(s: Stage): (r: nat)
    ensures r < |STAGES| && STAGES[r] == s
  {
    match s
    case Explain => 0
    case Trace => 1
    case Rebuild => 2
    case Debug => 3
    case Defend => 4
  }

  /** The part of an attempt that mastery looks at. */
  datatype Try = Try(caseId: string, stage: Stage, outcome: Outcome)

  datatype Snapshot = Snapshot(
    results: map<Stage, Option<Outcome>>, passed: seq<Stage>, next: Option<Stage>, status: Status, ready: bool)

  // --- the fold ---

  /** The outcome of the last attempt at a stage. */
  function Latest(log: seq<Try>, s: Stage): Option<Outcome>
    decreases |log|
  {
    if log == [] then None
    else if log[|log| - 1].stage == s then Some(log[|log| - 1].outcome)
    else Latest(log[..|log| - 1], s)
  }

  /** The stages among the first k whose result is a pass. */
  function Passed(results: map<Stage, Option<Outcome>>, k: nat): seq<Stage>
    requires k <= |STAGES| && forall s: Stage :: s in results
    decreases k
  {
    if k == 0 then []
    else Passed(results, k - 1) + (if results[STAGES[k - 1]] == Some(Pass) then [STAGES[k - 1]] else [])
  }

  /** The first stage from rank k whose result is not a pass. */
  function NextFrom(results: map<Stage, Option<Outcome>>, k: nat): Option<Stage>
    requires k <= |STAGES| && forall s: Stage :: s in results
    decreases |STAGES| - k
  {
    if k == |STAGES| then None
    else if results[STAGES[k]] != Some(Pass) then Some(STAGES[k])
    else NextFrom(results, k + 1)
  }

  /** The validators of `MasterySnapshot`, which do not mention the attempts. */
  predicate Validates(m: Snapshot) {
    && (forall s: Stage :: s in m.results)
    && m.passed == Passed(m.results, |STAGES|)
    && m.next == NextFrom(m.results, 0)
    && m.status == (if |m.passed| == |STAGES| then InterviewReady
                    else if exists s: Stage :: m.results[s].Some? then InPractice
                    else Captured)
    && m.ready == (|m.passed| == |STAGES|)
  }

  lemma {:induction false} PassedMembers(results: map<Stage, Option<Outcome>>, k: nat)
    requires k <= |STAGES| && forall s: Stage :: s in results
    ensures |Passed(results, k)| <= k
    ensures |Passed(results, k)| == k <==> forall i | 0 <= i < k :: results[STAGES[i]] == Some(Pass)
    ensures forall s :: s in Passed(results, k) <==> Rank(s) < k && results[s] == Some(Pass)
    decreases k
  {
    if k > 0 {
      PassedMembers(results, k - 1);
      assert Rank(STAGES[k - 1]) == k - 1;
    }
  }

  lemma {:induction false} NextIsFirstOpen(results: map<Stage, Option<Outcome>>, k: nat)
    requires k <= |STAGES| && forall s: Stage :: s in results
    ensures NextFrom(results, k).None? <==> forall i | k <= i < |STAGES| :: results[STAGES[i]] == Some(Pass)
    ensures NextFrom(results, k).Some? ==>
              var s := NextFrom(results, k).value;
              k <= Rank(s) && results[s] != Some(Pass)
                && forall i | k <= i < Rank(s) :: results[STAGES[i]] == Some(Pass)
    decreases |STAGES| - k
  {
    if k < |STAGES| { NextIsFirstOpen(results, k + 1); }
  }

  /** The loop of `derive_mastery`; an attempt of another case raises. */
  method StageResults(caseId: string, log: seq<Try>) returns (r: Option<map<Stage, Option<Outcome>>>)
    ensures r.Some? <==> forall i | 0 <= i < |log| :: log[i].caseId == caseId
    ensures r.Some? ==> forall s: Stage :: s in r.value && r.value[s] == Latest(log, s)
  {
    var results: map<Stage, Option<Outcome>> :=
      map[Explain := None, Trace := None, Rebuild := None, Debug := None, Defend := None];
    var i := 0;
    forall s: Stage ensures s in results && results[s] == Latest(log[..0], s) { assert STAGES[Rank(s)] == s; }
    while i < |log|
      invariant i <= |log| && forall j | 0 <= j < i :: log[j].caseId == caseId
      invariant forall s: Stage :: s in results && results[s] == Latest(log[..i], s)
    {
      if log[i].caseId != caseId { return None; }
      results := results[log[i].stage := Some(log[i].outcome)];
      assert log[..i + 1][..i] == log[..i];
      i := i + 1;
    }
    TakeAll(log);
    return Some(results);
  }

  predicate AllOf(caseId: string, log: seq<Try>) {
    forall i | 0 <= i < |log| :: log[i].caseId == caseId
  }

  /** The stage results are the latest outcomes, and every validator holds. */
  predicate Derives(m: Snapshot, log: seq<Try>) {
    Validates(m) && forall s: Stage :: m.results[s] == Latest(log, s)
  }

  /** `derive_mastery`. */
  method DeriveMastery(caseId: string, log: seq<Try>) returns (r: Option<Snapshot>)
    ensures r.Some? <==> AllOf(caseId, log)
    ensures r.Some? ==> Derives(r.value, log)
  {
    hide Latest, Passed, NextFrom;
    var folded := StageResults(caseId, log);
    if folded.None? { return None; }
    var results := folded.value;
    var passed := PassedStages(results);
    var next := FirstOpen(results);
    PassedMembers(results, |STAGES|);
    NextIsFirstOpen(results, 0);
    var ready := next.None?;
    var status := InPractice;
    if ready {
      status := InterviewReady;
    } else if forall k | 0 <= k < |STAGES| :: results[STAGES[k]].None? {
      status := Captured;
      forall s: Stage ensures results[s].None? { assert STAGES[Rank(s)] == s; }
    }
    r := Some(Snapshot(results, passed, next, status, ready));
  }

  method PassedStages(results: map<Stage, Option<Outcome>>) returns (passed: seq<Stage>)
    requires forall s: Stage :: s in results
    ensures passed == Passed(results, |STAGES|)
  {
    passed := [];
    var k := 0;
    while k < |STAGES|
      invariant k <= |STAGES| && passed == Passed(results, k)
    {
      if results[STAGES[k]] == Some(Pass) { passed := passed + [STAGES[k]]; }
      k := k + 1;
    }
  }

  method FirstOpen(results: map<Stage, Option<Outcome>>) returns (next: Option<Stage>)
    requires forall s: Stage :: s in results
    ensures next == NextFrom(results, 0)
  {
    var k := 0;
    while k < |STAGES|
      invariant k <= |STAGES| && NextFrom(results, 0) == NextFrom(results, k)
    {
      if results[STAGES[k]] != Some(Pass) { return Some(STAGES[k]); }
      k := k + 1;
    }
    return None;
  }

  // --- the sequential gate ---

  /** `record_attempt`: a pass needs every earlier stage's latest result to be a pass. */
  predicate GateOpen(log: seq<Try>, t: Try) {
    t.outcome == Pass ==> forall s: Stage | Rank(s) < Rank(t.stage) :: Latest(log, s) == Some(Pass)
  }

  /** Every attempt was let through by the gate when it was appended. */
  predicate Gated(log: seq<Try>) {
    forall k | 0 <= k < |log| :: GateOpen(log[..k], log[k])
  }

  /** The loop of `record_attempt` that lists the missing prerequisites. */
  method MissingPrerequisites(results: map<Stage, Option<Outcome>>, stage: Stage) returns (missing: seq<Stage>)
    requires forall s: Stage :: s in results
    ensures forall s :: s in missing <==> Rank(s) < Rank(stage) && results[s] != Some(Pass)
    ensures forall i, j | 0 <= i < j < |missing| :: Rank(missing[i]) < Rank(missing[j])
  {
    missing := [];
    var k := 0;
    while k < Rank(stage)
      invariant k <= Rank(stage)
      invariant forall s :: s in missing <==> Rank(s) < k && results[s] != Some(Pass)
      invariant forall i, j | 0 <= i < j < |missing| :: Rank(missing[i]) < Rank(missing[j])
    {
      if results[STAGES[k]] != Some(Pass) {
        assert forall i | 0 <= i < |missing| :: missing[i] in missing;
        missing := missing + [STAGES[k]];
      }
      k := k + 1;
    }
  }

  lemma {:induction false} LatestIsAnAttempt(log: seq<Try>, s: Stage)
    requires Latest(log, s).Some?
    ensures exists i :: 0 <= i < |log| && log[i].stage == s && Some(log[i].outcome) == Latest(log, s)
    decreases |log|
  {
    if log[|log| - 1].stage != s {
      LatestIsAnAttempt(log[..|log| - 1], s);
      var i :| 0 <= i < |log| - 1 && log[..|log| - 1][i].stage == s
        && Some(log[..|log| - 1][i].outcome) == Latest(log, s);
      assert log[i].stage == s;
    }
  }

  predicate PassAt(log: seq<Try>, k: int, s: Stage) {
    0 <= k < |log| && log[k].stage == s && log[k].outcome == Pass
  }

  /** In every gated log each pass is preceded by a pass of every earlier stage: first passes come in stage order. */
  lemma {:induction false} PassesComeInStageOrder(log: seq<Try>, k: nat, s: Stage)
    requires Gated(log) && k < |log| && log[k].outcome == Pass && Rank(s) < Rank(log[k].stage)
    ensures exists i :: 0 <= i < k && PassAt(log, i, s)
  {
    assert GateOpen(log[..k], log[k]);
    LatestIsAnAttempt(log[..k], s);
    var i :| 0 <= i < k && log[..k][i].stage == s && Some(log[..k][i].outcome) == Latest(log[..k], s);
    assert PassAt(log, i, s);
  }

  /** Interview readiness of a gated log needs a pass of every stage, in order. */
  lemma {:induction false} ReadyNeedsEveryStage(log: seq<Try>, s: Stage)
    requires Gated(log) && Latest(log, Defend) == Some(Pass)
    ensures exists i :: 0 <= i < |log| && PassAt(log, i, s)
  {
    LatestIsAnAttempt(log, Defend);
    var k :| 0 <= k < |log| && log[k].stage == Defend && Some(log[k].outcome) == Latest(log, Defend);
    if s == Defend {
      assert PassAt(log, k, s);
    } else {
      PassesComeInStageOrder(log, k, s);
    }
  }

  // --- when the passed stages are a prefix ---

  /** No stage is passed while an earlier one is open. */
  predicate IsPrefix(log: seq<Try>) {
    forall s: Stage, t: Stage | Rank(s) < Rank(t) && Latest(log, t) == Some(Pass) :: Latest(log, s) == Some(Pass)
  }

  /** The attempt reopens a stage while a later one is passed. */
  predicate LeavesGap(log: seq<Try>, t: Try) {
    t.outcome == NeedsWork && exists u: Stage :: Rank(u) > Rank(t.stage) && Latest(log, u) == Some(Pass)
  }

  lemma {:induction false} LatestSnoc(log: seq<Try>, t: Try, s: Stage)
    ensures Latest(log + [t], s) == if t.stage == s then Some(t.outcome) else Latest(log, s)
  {
    assert (log + [t])[..|log|] == log;
  }

  /** Exactly which accepted attempts break the prefix: those that reopen a stage below a passed one. */
  lemma {:induction false} PrefixStep(log: seq<Try>, t: Try)
    requires IsPrefix(log) && GateOpen(log, t)
    ensures IsPrefix(log + [t]) <==> !LeavesGap(log, t)
  {
    forall s: Stage ensures Latest(log + [t], s) == if t.stage == s then Some(t.outcome) else Latest(log, s) {
      LatestSnoc(log, t, s);
    }
    hide Latest;
    if LeavesGap(log, t) {
      var u: Stage :| Rank(u) > Rank(t.stage) && Latest(log, u) == Some(Pass);
      assert Latest(log + [t], u) == Some(Pass) && Latest(log + [t], t.stage) != Some(Pass);
    }
  }

  /** Over a whole gated log: the passed stages are a prefix at all times exactly when no attempt leaves a gap. */
  lemma {:induction false} AlwaysPrefixIffNoGap(log: seq<Try>)
    requires Gated(log)
    ensures (forall k | 0 <= k <= |log| :: IsPrefix(log[..k]))
        <==> (forall k | 0 <= k < |log| :: !LeavesGap(log[..k], log[k]))
    decreases |log|
  {
    hide IsPrefix, LeavesGap, GateOpen;
    if log == [] {
      assert log[..0] == [];
      NothingIsPrefix();
    } else {
      var n := |log| - 1;
      var front := log[..n];
      forall k | 0 <= k < n ensures front[..k] == log[..k] && front[k] == log[k] { TakeTake(log, k, n); }
      forall k | 0 <= k <= n ensures front[..k] == log[..k] { TakeTake(log, k, n); }
      AlwaysPrefixIffNoGap(front);
      TakeAll(log);
      TakeSnoc(log, |log|);
      assert front[..n] == front;
      if forall k | 0 <= k < n :: !LeavesGap(front[..k], front[k]) {
        assert IsPrefix(front[..n]);
        PrefixStep(front, log[n]);
        assert log[..n] == front;
      } else {
        var k :| 0 <= k <= n && !IsPrefix(front[..k]);
        assert !IsPrefix(log[..k]);
      }
    }
  }

  lemma {:induction false} NothingIsPrefix()
    ensures IsPrefix([])
  {
  }

  /** The gap that attempt k left is still open: its stage was not passed again, and some later stage stays passed. */
  predicate GapOpen(log: seq<Try>, k: nat)
    requires k < |log|
  {
    && LeavesGap(log[..k], log[k])
    && Latest(log, log[k].stage) != Some(Pass)
    && exists u: Stage :: Rank(u) > Rank(log[k].stage) && Latest(log, u) == Some(Pass)
  }

  /** The passed stages of a gated log are a prefix exactly when every gap left on the way was closed again. */
  lemma {:induction false} PrefixIffGapsClosed(log: seq<Try>)
    requires Gated(log)
    ensures IsPrefix(log) <==> forall k | 0 <= k < |log| :: !GapOpen(log, k)
  {
    hide LeavesGap, GateOpen;
    forall s: Stage, t: Stage | Rank(s) < Rank(t) && Latest(log, t) == Some(Pass) && Latest(log, s) != Some(Pass)
      ensures exists k :: 0 <= k < |log| && GapOpen(log, k)
    {
      var k := LastReopening(log, s, t);
      assert GapOpen(log, k);
    }
  }

  /** The last attempt at a stage. */
  lemma {:induction false} LastAttempt(log: seq<Try>, s: Stage) returns (k: nat)
    requires Latest(log, s).Some?
    ensures k < |log| && log[k].stage == s && Some(log[k].outcome) == Latest(log, s)
    ensures forall n | k < n <= |log| :: Latest(log[..n], s) == Latest(log, s)
    decreases |log|
  {
    var last := |log| - 1;
    TakeAll(log);
    if log[last].stage == s {
      k := last;
    } else {
      k := LastAttempt(log[..last], s);
      forall n | k < n <= |log| ensures Latest(log[..n], s) == Latest(log, s) {
        if n <= last { TakeTake(log, n, last); }
      }
    }
  }

  /** A stage open below a passed one was reopened after that pass. */
  lemma {:induction false} LastReopening(log: seq<Try>, s: Stage, t: Stage) returns (k: nat)
    requires Gated(log) && Rank(s) < Rank(t) && Latest(log, t) == Some(Pass) && Latest(log, s) != Some(Pass)
    ensures k < |log| && log[k].stage == s && LeavesGap(log[..k], log[k])
  {
    var passed := LastAttempt(log, t);
    assert GateOpen(log[..passed], log[passed]);
    assert Latest(log[..passed], s) == Some(Pass);
    PassKnown(log, passed, s);
    k := LastAttempt(log, s);
    TakeSnoc(log, passed + 1);
    LatestSnoc(log[..passed], log[passed], s);
    assert Latest(log[..passed + 1], s) == Some(Pass);
    assert k > passed;
    assert Latest(log[..k], t) == Some(Pass);
  }

  lemma {:induction false} PassKnown(log: seq<Try>, k: nat, s: Stage)
    requires k <= |log| && Latest(log[..k], s).Some?
    ensures Latest(log, s).Some?
    decreases |log|
  {
    TakeAll(log);
    if k < |log| {
      TakeTake(log, k, |log| - 1);
      PassKnown(log[..|log| - 1], k, s);
    }
  }

  /** No needs-work attempt follows a pass of its own stage. */
  predicate NeverRevoked(log: seq<Try>) {
    forall i, k | 0 <= i < k < |log| && PassAt(log, i, log[k].stage) :: log[k].outcome == Pass
  }

  /** In particular the passed stages are closed under earlier stages if no pass was revoked. */
  lemma {:induction false} PassedIsPrefix(log: seq<Try>, s: Stage, t: Stage)
    requires Gated(log) && NeverRevoked(log) && Latest(log, t) == Some(Pass) && Rank(s) < Rank(t)
    ensures Latest(log, s) == Some(Pass)
  {
    forall k | 0 <= k < |log| ensures !LeavesGap(log[..k], log[k]) {
      if u: Stage :| Rank(u) > Rank(log[k].stage) && Latest(log[..k], u) == Some(Pass) {
        var m := LastAttempt(log[..k], u);
        PassesComeInStageOrder(log, m, log[k].stage);
      }
    }
    hide LeavesGap, Gated, NeverRevoked;
    PrefixIffGapsClosed(log);
  }

  /** With a revoked pass they need not be: Explain is open again while Trace stays passed. */
  lemma {:induction false} RevokedPassLeavesGap()
    ensures var log := [Try("case", Explain, Pass), Try("case", Trace, Pass), Try("case", Explain, NeedsWork)];
            && Gated(log) && Latest(log, Trace) == Some(Pass) && Latest(log, Explain) == Some(NeedsWork)
            && !IsPrefix(log)
  {
    var log := [Try("case", Explain, Pass), Try("case", Trace, Pass), Try("case", Explain, NeedsWork)];
    assert log[..1] == [log[0]];
    assert log[..2] == [log[0], log[1]];
    assert log[..2][..1] == [log[0]];
    assert Latest([log[0]], Explain) == Some(Pass);
    assert Latest(log[..2], Trace) == Some(Pass);
    forall k | 0 <= k < |log| ensures GateOpen(log[..k], log[k]) {
      if k == 1 {
        forall s: Stage | Rank(s) < Rank(log[k].stage) ensures Latest(log[..k], s) == Some(Pass) {
          assert s == Explain;
        }
      }
    }
  }
}
