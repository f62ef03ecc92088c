/** How the hit budget is spent: evenly over the rounds, and over the queries of a round, when the store has enough. */
module HitBudget {
  import opened Collections
  import opened Neighbors
  import opened Queries
  import opened Retrieval
  import opened RetrievalLoop
  import opened Slices
  import opened Spans
  import opened Text

  // --- dividing a total into even parts ---

  /** Part i of a total divided as evenly as possible, larger parts first. */
  function EvenPart(total: nat, parts: nat, i: nat): nat
    requires parts > 0
  {
    total / parts + if i < total % parts then 1 else 0
  }

  function PartSum(total: nat, parts: nat, n: nat): nat
    requires parts > 0
  {
    if n == 0 then 0 else PartSum(total, parts, n - 1) + EvenPart(total, parts, n - 1)
  }

  lemma {:induction false} QuotientIs(n: nat, d: nat, q: nat, r: nat)
    requires n == d * q + r && r < d
    ensures n / d == q && n % d == r
  {
    QuotientAtMost(n, d, q);
    var p := n / d;
    assert n == d * p + n % d;
    if p < q { ProductGrows(d, p + 1, q); }
  }

  /** The ceiling share is the least q with b shares of q covering a. */
  lemma {:induction false} CeilDivIsLeast(a: nat, b: nat, q: nat)
    requires b > 0
    ensures b * q >= a <==> q >= CeilDiv(a, b)
  {
    var c := CeilDiv(a, b);
    assert a + b - 1 == b * c + (a + b - 1) % b;
    if q >= c {
      ProductGrows(b, c, q);
    } else {
      ProductGrows(b, q + 1, c);
    }
  }

  lemma {:induction false} FirstPart(total: nat, parts: nat)
    requires parts > 0
    ensures CeilDiv(total, parts) == EvenPart(total, parts, 0)
  {
    var q, r := total / parts, total % parts;
    assert total == parts * q + r;
    if r == 0 {
      QuotientIs(total + parts - 1, parts, q, parts - 1);
    } else {
      QuotientIs(total + parts - 1, parts, q + 1, r - 1);
    }
  }

  lemma {:induction false} PartIsWithin(total: nat, parts: nat)
    requires parts > 0
    ensures EvenPart(total, parts, 0) <= total
    ensures parts == 1 ==> EvenPart(total, parts, 0) == total
    ensures total > 0 ==> EvenPart(total, parts, 0) > 0
  {
    FirstPart(total, parts);
    if total > 0 { ShareIsWithin(total, parts); } else { QuotientIs(0, parts, 0, 0); }
    if parts == 1 { QuotientIs(total, 1, total, 0); }
  }

  /** After the first part, what is left divides into the other parts. */
  lemma {:induction false} LaterParts(total: nat, parts: nat, i: nat)
    requires parts > 1 && EvenPart(total, parts, 0) <= total
    ensures EvenPart(total - EvenPart(total, parts, 0), parts - 1, i) == EvenPart(total, parts, i + 1)
  {
    var q, r := total / parts, total % parts;
    assert total == parts * q + r;
    assert parts * q == (parts - 1) * q + q;
    if r == 0 {
      QuotientIs(total - q, parts - 1, q, 0);
    } else {
      QuotientIs(total - q - 1, parts - 1, q, r - 1);
    }
  }

  // --- one round ---

  /** The store returned as many different chunks as the search asked for. */
  predicate Full(s: Step) {
    |s.returned| >= s.requested && Distinct(s.returned[..s.requested])
  }

  predicate FullFrom(steps: seq<Step>, from: nat) {
    forall i | from <= i < |steps| :: Full(steps[i])
  }

  predicate AllIn(steps: seq<Step>, from: nat, round: nat) {
    forall i | from <= i < |steps| :: steps[i].round == round
  }

  predicate IsStep(s: Step, round: nat, query: string, accepted: nat) {
    s.round == round && s.query == query && |s.accepted| == accepted
  }

  /** From the given one on, the steps are searches of these queries in this round, which accept even parts. */
  predicate EvenSteps(steps: seq<Step>, from: nat, round: nat, queries: seq<string>, k: nat, left: nat)
    requires k <= |queries|
  {
    var n := |queries| - k;
    && |steps| == from + Min(left, n)
    && forall i | 0 <= i < Min(left, n) :: IsStep(steps[from + i], round, queries[k + i], EvenPart(left, n, i))
  }

  /** What one full search adds: exactly its limit. */
  lemma {:induction false} FullSearch(
      cfg: Config, tools: Tools, run: Run, round: nat, query: string, queryLimit: nat)
    requires GoodRun(cfg, tools.fold, run) && queryLimit >= 1 && |run.order| + queryLimit <= cfg.maxHits
    requires tools.fold(query) !in FoldAll(tools.fold, run.executed)
    ensures var r := Searched(cfg, tools, run, round, query, queryLimit);
            r.Done? ==>
              && |r.run.steps| == |run.steps| + 1 && r.run.steps[..|run.steps|] == run.steps
              && var s := r.run.steps[|run.steps|];
                 && s.round == round && s.query == query
                 && (Full(s) ==> |s.accepted| == queryLimit && |r.run.order| == |run.order| + queryLimit)
  {
    var r := Searched(cfg, tools, run, round, query, queryLimit);
    if r.Done? {
      SearchedIsGood(cfg, tools, run, round, query, queryLimit);
      hide TakeHits, Consistent, FoldDistinct, FoldAll, Keeps;
      var s := r.run.steps[|run.steps|];
      assert r.run.steps == run.steps + [s];
      LogSnoc(cfg, run.steps, s);
    }
  }

  lemma {:induction false} PrefixOf(steps: seq<Step>, mid: seq<Step>, all: seq<Step>)
    requires |steps| < |mid| && mid[..|steps|] == steps
    requires |mid| <= |all| && all[..|mid|] == mid
    ensures all[..|steps|] == steps && all[|steps|] == mid[|steps|]
    ensures FullFrom(all, |steps|) ==> FullFrom(all, |mid|) && Full(mid[|steps|])
  {
  }

  lemma {:induction false} AllInBoth(mid: seq<Step>, all: seq<Step>, from: nat, round: nat)
    requires |mid| <= |all| && all[..|mid|] == mid && AllIn(mid, from, round) && AllIn(all, |mid|, round)
    ensures AllIn(all, from, round)
  {
    forall i | from <= i < |all| ensures all[i].round == round {
      if i < |mid| { assert all[i] == mid[i]; }
    }
  }

  lemma {:induction false} OneMoreEven(
      all: seq<Step>, from: nat, round: nat, queries: seq<string>, k: nat, left: nat)
    requires k < |queries| && left > 0 && from < |all|
    requires IsStep(all[from], round, queries[k], EvenPart(left, |queries| - k, 0))
    requires EvenPart(left, |queries| - k, 0) <= left
    requires EvenSteps(all, from + 1, round, queries, k + 1, left - EvenPart(left, |queries| - k, 0))
    ensures EvenSteps(all, from, round, queries, k, left)
  {
    var n := |queries| - k;
    var rest := left - EvenPart(left, n, 0);
    PartIsWithin(left, n);
    LeavesEnough(left, n);
    forall i | 0 <= i < Min(left, n)
      ensures IsStep(all[from + i], round, queries[k + i], EvenPart(left, n, i))
    {
      if i > 0 {
        LaterParts(left, n, i - 1);
        var j := i - 1;
        assert IsStep(all[from + 1 + j], round, queries[k + 1 + j], EvenPart(rest, n - 1, j));
      }
    }
  }

  lemma {:induction false} LeavesEnough(left: nat, n: nat)
    requires n > 0 && left > 0 && EvenPart(left, n, 0) <= left
    ensures Min(left - EvenPart(left, n, 0), n - 1) + 1 == Min(left, n)
  {
    FirstPart(left, n);
    if left >= n {
      ShareLeavesOneEach(left, n);
    } else {
      QuotientIs(left, n, 0, left);
    }
  }

  /** If every search of a round is full, its budget is spent to the last hit, divided evenly over its queries. */
  lemma {:induction false} FullRoundIsEven(
      cfg: Config, tools: Tools, run: Run, round: nat, queries: seq<string>, k: nat, goal: nat, executed: seq<string>)
    requires k <= |queries| && GoodRun(cfg, tools.fold, run) && Fresh(tools.fold, queries, executed)
    requires run.executed == executed + queries[..k] && |run.order| <= goal <= cfg.maxHits
    ensures var r := SearchedFrom(cfg, tools, run, round, queries, k, goal);
            r.Done? ==>
              && |run.steps| <= |r.run.steps| && r.run.steps[..|run.steps|] == run.steps
              && AllIn(r.run.steps, |run.steps|, round)
              && (k < |queries| && |run.order| < goal ==> |run.steps| < |r.run.steps|)
              && (FullFrom(r.run.steps, |run.steps|) ==>
                   && EvenSteps(r.run.steps, |run.steps|, round, queries, k, goal - |run.order|)
                   && |r.run.order| == if k < |queries| then goal else |run.order|)
    decreases |queries| - k
  {
    hide GoodRun, Fresh, FoldAll, Searched, EvenSteps;
    var r := SearchedFrom(cfg, tools, run, round, queries, k, goal);
    if k < |queries| && |run.order| < goal {
      var left, n := goal - |run.order|, |queries| - k;
      var share := Share(left, n);
      ShareLeaves(left, n);
      FirstPart(left, n);
      PartIsWithin(left, n);
      FreshStep(tools.fold, queries, k, executed);
      SearchedIsGood(cfg, tools, run, round, queries[k], share);
      FullSearch(cfg, tools, run, round, queries[k], share);
      var next := Searched(cfg, tools, run, round, queries[k], share);
      assert next.Done? ==> AllIn(next.run.steps, |run.steps|, round);
      hide EvenPart, CeilDiv, Full, FullFrom, AllIn;
      if next.Done? {
        TakeSnoc(queries, k + 1);
        ConcatAssociates(executed, queries[..k], [queries[k]]);
        FullRoundIsEven(cfg, tools, next.run, round, queries, k + 1, goal, executed);
        if r.Done? {
          PrefixOf(run.steps, next.run.steps, r.run.steps);
          AllInBoth(next.run.steps, r.run.steps, |run.steps|, round);
          if FullFrom(r.run.steps, |run.steps|) {
            OneMoreEven(r.run.steps, |run.steps|, round, queries, k, left);
          }
        }
      }
    } else {
      TakeAll(run.steps);
      NoMoreEven(run.steps, round, queries, k, goal - |run.order|);
    }
  }

  lemma {:induction false} NoMoreEven(steps: seq<Step>, round: nat, queries: seq<string>, k: nat, left: nat)
    requires k <= |queries| && (k == |queries| || left == 0)
    ensures EvenSteps(steps, |steps|, round, queries, k, left)
  {
  }

  // --- all rounds ---

  /** How many chunks the steps of one round accepted. */
  function AcceptedIn(steps: seq<Step>, round: nat): nat
    decreases |steps|
  {
    if steps == [] then 0 else
    var last := steps[|steps| - 1];
    AcceptedIn(steps[..|steps| - 1], round) + if last.round == round then |last.accepted| else 0
  }

  function LastRound(steps: seq<Step>): nat {
    if steps == [] then 0 else steps[|steps| - 1].round
  }

  lemma {:induction false} RoundAdds(steps: seq<Step>, from: nat, round: nat)
    requires from <= |steps| && AllIn(steps, from, round)
    ensures |AcceptedIds(steps[..from])| <= |AcceptedIds(steps)|
    ensures AcceptedIn(steps, round)
         == AcceptedIn(steps[..from], round) + |AcceptedIds(steps)| - |AcceptedIds(steps[..from])|
    ensures forall j: nat | j != round :: AcceptedIn(steps, j) == AcceptedIn(steps[..from], j)
    decreases |steps|
  {
    if from == |steps| {
      TakeAll(steps);
    } else {
      var front := steps[..|steps| - 1];
      TakeTake(steps, from, |steps| - 1);
      RoundAdds(front, from, round);
    }
  }

  lemma {:induction false} LastIsIn(steps: seq<Step>, from: nat, round: nat)
    requires from < |steps| && AllIn(steps, from, round)
    ensures LastRound(steps) == round
  {
  }

  /** What one full round adds. */
  lemma {:induction false} FullRound(cfg: Config, tools: Tools, run: Run, round: nat, queries: seq<string>)
    requires ValidConfig(cfg) && GoodRun(cfg, tools.fold, run) && queries != []
    requires 1 <= round <= cfg.maxRounds && |run.order| < cfg.maxHits
    requires Fresh(tools.fold, queries, run.executed)
    ensures var r := SearchedFrom(cfg, tools, run, round, queries, 0, RoundGoal(cfg, run, round));
            var budget := EvenPart(cfg.maxHits - |run.order|, cfg.maxRounds - round + 1, 0);
            r.Done? ==>
              && |run.steps| <= |r.run.steps| && r.run.steps[..|run.steps|] == run.steps
              && AllIn(r.run.steps, |run.steps|, round) && LastRound(r.run.steps) == round
              && (FullFrom(r.run.steps, |run.steps|) ==>
                   && |r.run.order| == |run.order| + budget
                   && EvenSteps(r.run.steps, |run.steps|, round, queries, 0, budget)
                   && AcceptedIn(r.run.steps, round) == AcceptedIn(run.steps, round) + budget
                   && forall j: nat | j != round :: AcceptedIn(r.run.steps, j) == AcceptedIn(run.steps, j))
  {
    var free, rounds, goal := cfg.maxHits - |run.order|, cfg.maxRounds - round + 1, RoundGoal(cfg, run, round);
    FirstPart(free, rounds);
    PartIsWithin(free, rounds);
    assert queries[..0] == [];
    ConcatEmpty(run.executed);
    hide EvenSteps, GoodRun, SearchedFrom;
    RoundIsGood(cfg, tools, run, round, queries);
    FullRoundIsEven(cfg, tools, run, round, queries, 0, goal, run.executed);
    var r := SearchedFrom(cfg, tools, run, round, queries, 0, goal);
    if r.Done? {
      assert GoodRun(cfg, tools.fold, r.run);
      hide Fresh, RoundKeeps, AllIn, CeilDiv, EvenPart, FullFrom, AcceptedIn, LastRound;
      RoundAccepted(cfg, tools.fold, run, r.run, round);
      LastIsIn(r.run.steps, |run.steps|, round);
    }
  }

  lemma {:induction false} RoundAccepted(cfg: Config, fold: Casefold, before: Run, after: Run, round: nat)
    requires GoodRun(cfg, fold, before) && GoodRun(cfg, fold, after)
    requires |before.steps| <= |after.steps| && after.steps[..|before.steps|] == before.steps
    requires AllIn(after.steps, |before.steps|, round)
    ensures AcceptedIn(after.steps, round) == AcceptedIn(before.steps, round) + |after.order| - |before.order|
    ensures forall j: nat | j != round :: AcceptedIn(after.steps, j) == AcceptedIn(before.steps, j)
  {
    hide AllIn, AcceptedIn, Consistent, FoldDistinct, LogOk;
    RoundAdds(after.steps, |before.steps|, round);
  }

  /** All chunks that rounds from this one on accepted, and the run they started from. */
  predicate EvenRounds(cfg: Config, before: Run, after: Run, round: nat)
    requires 1 <= round && |before.order| <= cfg.maxHits
  {
    && LastRound(after.steps) <= cfg.maxRounds
    && (forall j | round <= j <= LastRound(after.steps) ::
          AcceptedIn(after.steps, j) == EvenPart(cfg.maxHits - |before.order|, cfg.maxRounds - round + 1, j - round))
    && (forall j: nat | j < round :: AcceptedIn(after.steps, j) == AcceptedIn(before.steps, j))
    && (round <= LastRound(after.steps) == cfg.maxRounds ==> |after.order| == cfg.maxHits)
  }

  lemma {:induction false} EvenRoundsStep(cfg: Config, before: Run, middle: Run, after: Run, round: nat)
    requires 1 <= round < cfg.maxRounds && |before.order| <= cfg.maxHits
    requires var budget := EvenPart(cfg.maxHits - |before.order|, cfg.maxRounds - round + 1, 0);
             && |middle.order| == |before.order| + budget <= cfg.maxHits
             && AcceptedIn(middle.steps, round) == budget
    requires forall j: nat | j != round :: AcceptedIn(middle.steps, j) == AcceptedIn(before.steps, j)
    requires EvenRounds(cfg, middle, after, round + 1)
    ensures EvenRounds(cfg, before, after, round)
  {
    var free, rounds := cfg.maxHits - |before.order|, cfg.maxRounds - round + 1;
    forall j | round < j <= LastRound(after.steps)
      ensures AcceptedIn(after.steps, j) == EvenPart(free, rounds, j - round)
    {
      LaterParts(free, rounds, j - round - 1);
    }
    hide EvenPart, AcceptedIn, LastRound;
  }

  lemma {:induction false} NoRounds(cfg: Config, run: Run, round: nat)
    requires 1 <= round <= cfg.maxRounds + 1 && |run.order| <= cfg.maxHits && LastRound(run.steps) < round
    ensures EvenRounds(cfg, run, run, round)
  {
  }

  lemma {:induction false} OneRound(cfg: Config, before: Run, after: Run, round: nat)
    requires 1 <= round <= cfg.maxRounds && |before.order| <= cfg.maxHits && LastRound(after.steps) == round
    requires var budget := EvenPart(cfg.maxHits - |before.order|, cfg.maxRounds - round + 1, 0);
             |after.order| == |before.order| + budget && AcceptedIn(after.steps, round) == budget
    requires forall j: nat | j != round :: AcceptedIn(after.steps, j) == AcceptedIn(before.steps, j)
    ensures EvenRounds(cfg, before, after, round)
  {
    PartIsWithin(cfg.maxHits - |before.order|, cfg.maxRounds - round + 1);
    hide EvenPart, AcceptedIn, LastRound;
  }

  /** No step belongs to this round or a later one. */
  predicate EndsBefore(steps: seq<Step>, round: nat) {
    forall i | 0 <= i < |steps| :: steps[i].round < round
  }

  lemma {:induction false} NothingIn(steps: seq<Step>, round: nat)
    requires EndsBefore(steps, round)
    ensures AcceptedIn(steps, round) == 0 && (round > 0 ==> LastRound(steps) < round)
    decreases |steps|
  {
    if steps != [] { NothingIn(steps[..|steps| - 1], round); }
  }

  lemma {:induction false} EndsLater(before: seq<Step>, after: seq<Step>, round: nat)
    requires EndsBefore(before, round) && |before| <= |after| && after[..|before|] == before
    requires AllIn(after, |before|, round)
    ensures EndsBefore(after, round + 1)
  {
    forall i | 0 <= i < |after| ensures after[i].round < round + 1 {
      if i < |before| { assert after[i] == before[i]; }
    }
  }

  lemma {:induction false} LaterSteps(before: seq<Step>, middle: seq<Step>, after: seq<Step>)
    requires |before| <= |middle| <= |after| && middle[..|before|] == before && after[..|middle|] == middle
    ensures after[..|before|] == before
    ensures FullFrom(after, |before|) ==> FullFrom(middle, |before|) && FullFrom(after, |middle|)
  {
    TakeTake(after, |before|, |middle|);
    assert forall i | 0 <= i < |middle| :: middle[i] == after[i];
  }

  lemma {:induction false} GoodRunFits(cfg: Config, tools: Tools, run: Run)
    requires GoodRun(cfg, tools.fold, run)
    ensures |run.order| <= cfg.maxHits
  {
    hide Consistent, LogOk, FoldDistinct;
  }

  /**
   * If every search of a run is full, each round accepts its even part of the free hits, larger parts first; so when
   * the last round is reached, the hit budget is spent to the last hit.
   */
  lemma {:induction false} RunIsEven(cfg: Config, tools: Tools, run: Run, pending: seq<string>, round: nat)
    requires ValidConfig(cfg) && 1 <= round <= cfg.maxRounds + 1 && GoodRun(cfg, tools.fold, run)
    requires Fresh(tools.fold, pending, run.executed) && |pending| <= cfg.maxQueries && EndsBefore(run.steps, round)
    ensures var r := RetrievedFrom(cfg, tools, run, pending, round);
            r.Done? ==>
              && |run.steps| <= |r.run.steps| && r.run.steps[..|run.steps|] == run.steps
              && (FullFrom(r.run.steps, |run.steps|) ==>
                   && |run.order| <= cfg.maxHits && EvenRounds(cfg, run, r.run, round)
                   && (pending != [] && round <= cfg.maxRounds && |run.order| < cfg.maxHits ==>
                        round <= LastRound(r.run.steps)))
    decreases cfg.maxRounds + 1 - round
  {
    hide GoodRun, Fresh, Keeps, CeilDiv, SearchedFrom, NewQueries, FoldAll, Expand, EvenRounds, EvenSteps, EvenPart;
    hide FullFrom, AllIn, EndsBefore, AcceptedIn, LastRound;
    var r := RetrievedFrom(cfg, tools, run, pending, round);
    NothingIn(run.steps, round);
    GoodRunFits(cfg, tools, run);
    if round > cfg.maxRounds || pending == [] || |run.order| >= cfg.maxHits {
      NoRounds(cfg, run, round);
      TakeAll(run.steps);
    } else {
      RoundIsGood(cfg, tools, run, round, pending);
      FullRound(cfg, tools, run, round, pending);
      var after := SearchedFrom(cfg, tools, run, round, pending, 0, RoundGoal(cfg, run, round));
      var asked := after.Done? && Expand(after.run.order, after.run.hits, tools.store, round).Expanded?;
      if asked && tools.cover(round).Some? {
        var coverage := tools.cover(round).value;
        var next := NewQueries(cfg, tools, coverage.additional, FoldAll(tools.fold, after.run.executed));
        if coverage.finish || next == [] || round == cfg.maxRounds || |after.run.order| >= cfg.maxHits {
          if FullFrom(after.run.steps, |run.steps|) { OneRound(cfg, run, after.run, round); }
        } else {
          NewQueriesAreFresh(
            cfg, tools, coverage.additional, FoldAll(tools.fold, after.run.executed), after.run.executed);
          EndsLater(run.steps, after.run.steps, round);
          RunIsEven(cfg, tools, after.run, next, round + 1);
          if r.Done? {
            LaterSteps(run.steps, after.run.steps, r.run.steps);
            if FullFrom(r.run.steps, |run.steps|) { EvenRoundsStep(cfg, run, after.run, r.run, round); }
          }
        }
      }
    }
  }

  /** Each round up to the last searched accepted its even part of the whole hit budget, and all rounds the whole. */
  predicate IsEven(cfg: Config, run: Run) {
    && 1 <= LastRound(run.steps) <= cfg.maxRounds
    && (forall j | 1 <= j <= LastRound(run.steps) ::
          AcceptedIn(run.steps, j) == EvenPart(cfg.maxHits, cfg.maxRounds, j - 1))
    && (LastRound(run.steps) == cfg.maxRounds ==> |run.order| == cfg.maxHits)
  }

  /** The same from the first queries to the answer. */
  lemma {:induction false} RetrievalIsEven(cfg: Config, tools: Tools, proposed: seq<string>)
    requires ValidConfig(cfg)
    ensures var r := RetrievalOf(cfg, tools, proposed);
            r.Retrieved? && FullFrom(r.run.steps, 0) ==> IsEven(cfg, r.run)
  {
    EmptyRunIsGood(cfg, tools.fold);
    assert FoldAll(tools.fold, []) == {};
    NewQueriesAreFresh(cfg, tools, proposed, {}, []);
    hide GoodRun, Fresh, NewQueries, RetrievedFrom, FullFrom, AcceptedIn, EvenPart, FoldAll, EvenRounds, LastRound;
    hide Expand, IsEven;
    var queries := NewQueries(cfg, tools, proposed, {});
    RunIsEven(cfg, tools, NOTHING, queries, 1);
    var r := RetrievedFrom(cfg, tools, NOTHING, queries, 1);
    if queries != [] && r.Done? && FullFrom(r.run.steps, 0) { EvenFromStart(cfg, r.run); }
  }

  lemma {:induction false} EvenFromStart(cfg: Config, run: Run)
    requires EvenRounds(cfg, NOTHING, run, 1) && 1 <= LastRound(run.steps)
    ensures IsEven(cfg, run)
  {
    hide AcceptedIn, EvenPart, LastRound;
  }

  // --- why a run ends ---

  /** Another round was asked for after this one. */
  predicate WentOn(tools: Tools, round: nat) {
    tools.cover(round).Some? && !tools.cover(round).value.finish
  }

  /** The rounds ended early only because the reasoner was done, or proposed nothing new after the last round. */
  predicate StoppedByReasoner(cfg: Config, tools: Tools, run: Run, round: nat) {
    match tools.cover(round)
    case None => false
    case Some(c) => c.finish || NewQueries(cfg, tools, c.additional, FoldAll(tools.fold, run.executed)) == []
  }

  /**
   * A run that ends before the last round, with hits to spare, was ended by the reasoner, and no round follows one that
   * the reasoner called the last.
   */
  lemma {:induction false} RunEndsForAReason(cfg: Config, tools: Tools, run: Run, pending: seq<string>, round: nat)
    requires ValidConfig(cfg) && 1 <= round <= cfg.maxRounds && GoodRun(cfg, tools.fold, run) && pending != []
    requires Fresh(tools.fold, pending, run.executed) && |pending| <= cfg.maxQueries && |run.order| < cfg.maxHits
    ensures var r := RetrievedFrom(cfg, tools, run, pending, round);
            r.Done? ==>
              var last := LastRound(r.run.steps);
              && round <= last <= cfg.maxRounds
              && (last < cfg.maxRounds && |r.run.order| < cfg.maxHits ==> StoppedByReasoner(cfg, tools, r.run, last))
              && forall j | round <= j < last :: WentOn(tools, j)
    decreases cfg.maxRounds + 1 - round
  {
    hide GoodRun, Fresh, Keeps, CeilDiv, SearchedFrom, NewQueries, FoldAll, Expand, EvenSteps, EvenPart, LastRound;
    hide FullFrom, AllIn, AcceptedIn;
    var r := RetrievedFrom(cfg, tools, run, pending, round);
    RoundIsGood(cfg, tools, run, round, pending);
    FullRound(cfg, tools, run, round, pending);
    var after := SearchedFrom(cfg, tools, run, round, pending, 0, RoundGoal(cfg, run, round));
    var asked := after.Done? && Expand(after.run.order, after.run.hits, tools.store, round).Expanded?;
    if asked && tools.cover(round).Some? {
      var coverage := tools.cover(round).value;
      var next := NewQueries(cfg, tools, coverage.additional, FoldAll(tools.fold, after.run.executed));
      if !(coverage.finish || next == [] || round == cfg.maxRounds || |after.run.order| >= cfg.maxHits) {
        NewQueriesAreFresh(
          cfg, tools, coverage.additional, FoldAll(tools.fold, after.run.executed), after.run.executed);
        RunEndsForAReason(cfg, tools, after.run, next, round + 1);
      }
    }
  }

  // --- one search ---

  const EMPTY: Intake := Intake([], map[], map[], [])

  /** Distinct results are all taken, in their order, up to the limit. */
  lemma {:induction false} DistinctAreTaken(results: seq<SearchHit>, limit: nat, query: string, k: nat)
    requires k <= limit && k <= |results| && Distinct(HitIds(results[..k]))
    ensures var t := TakeHits(EMPTY, results, limit, query, k);
            t.Intake? && t.order == HitIds(results[..k]) && t.accepted == HitIds(results[..k]) && Consistent(t)
    decreases k
  {
    if k == 0 {
      assert HitIds(results[..0]) == [];
    } else {
      MoreIds(results, k);
      DistinctAreTaken(results, limit, query, k - 1);
      hide HitIds, Distinct;
      var t := TakeHits(EMPTY, results, limit, query, k - 1);
      TakesNew(t, results[k - 1], limit, query);
    }
  }

  lemma {:induction false} TakesNew(t: Intake, hit: SearchHit, limit: nat, query: string)
    requires Consistent(t) && |t.accepted| < limit && hit.chunkId !in t.order
    ensures var u := TakeHit(t, hit, limit, query);
            && u.Intake? && Consistent(u)
            && u.order == t.order + [hit.chunkId] && u.accepted == t.accepted + [hit.chunkId]
  {
    hide MergeHit, AddFocus;
    TakeHitAppends(t, hit, limit, query);
  }

  lemma {:induction false} MoreIds(results: seq<SearchHit>, k: nat)
    requires 0 < k <= |results| && Distinct(HitIds(results[..k]))
    ensures HitIds(results[..k]) == HitIds(results[..k - 1]) + [results[k - 1].chunkId]
    ensures Distinct(HitIds(results[..k - 1])) && results[k - 1].chunkId !in HitIds(results[..k - 1])
  {
    var ids := HitIds(results[..k]);
    assert ids[..k - 1] == HitIds(results[..k - 1]);
    assert ids == ids[..k - 1] + [results[k - 1].chunkId];
  }

  /** One round with one query takes the first `maxHits` chunks of a store that has as many. */
  lemma {:induction false} OneQueryTakesAll(cfg: Config, tools: Tools, query: string, results: seq<SearchHit>)
    requires cfg.maxRounds == 1 && 1 <= cfg.maxHits <= |results| && tools.search(0, query, cfg.maxHits) == Some(results)
    requires Distinct(HitIds(results[..cfg.maxHits]))
    ensures var r := SearchedFrom(cfg, tools, NOTHING, 1, [query], 0, RoundGoal(cfg, NOTHING, 1));
            r.Done? && r.run.order == HitIds(results[..cfg.maxHits])
  {
    FirstPart(cfg.maxHits, 1);
    PartIsWithin(cfg.maxHits, 1);
    hide CeilDiv, EvenPart, TakeHits, TakeHit, HitIds, Distinct, Consistent;
    DistinctAreTaken(results, cfg.maxHits, query, cfg.maxHits);
    TakeHitsStops(EMPTY, results, cfg.maxHits, query, cfg.maxHits, |results|);
    hide TakeHits;
    var next := Searched(cfg, tools, NOTHING, 1, query, cfg.maxHits);
    assert next.Done? && next.run.order == HitIds(results[..cfg.maxHits]);
  }

  /** What the log says of a search: its round and query, how many chunks it asked for, and the first ids returned. */
  lemma {:induction false} SearchIsLogged(
      cfg: Config, tools: Tools, run: Run, round: nat, query: string, queryLimit: nat)
    ensures var r := Searched(cfg, tools, run, round, query, queryLimit);
            r.Done? ==>
              && |r.run.steps| == |run.steps| + 1 && r.run.executed == run.executed + [query]
              && var s := r.run.steps[|run.steps|];
                 var results := tools.search(|run.steps|, query, |run.order| + queryLimit);
                 && s.round == round && s.query == query && s.requested == |run.order| + queryLimit
                 && results.Some? && |s.returned| == Min(|results.value|, cfg.maxHits)
                 && (forall i | 0 <= i < |s.returned| :: s.returned[i] == results.value[i].chunkId)
                 && (|s.accepted| <= queryLimit ==> |r.run.order| == |run.order| + |s.accepted|)
  {
    var found := tools.search(|run.steps|, query, |run.order| + queryLimit);
    if found.Some? {
      var start := Intake(run.order, run.hits, run.focus, []);
      hide TakeHits;
      TakeHitsAreBounded(start, found.value, queryLimit, query, |found.value|);
      FirstIds(found.value, cfg.maxHits);
      hide HitIds, Capped;
    }
  }

  lemma {:induction false} FirstIds(results: seq<SearchHit>, n: nat)
    ensures |Capped(HitIds(results), n)| == Min(|results|, n)
    ensures forall i | 0 <= i < |Capped(HitIds(results), n)| :: Capped(HitIds(results), n)[i] == results[i].chunkId
  {
  }
}
