/** The rounds of `BoundedEvidenceAgent.run`: one hit budget divided over rounds and queries by ceiling shares. */
module RetrievalLoop {
  import opened Collections
  import opened Neighbors
  import opened Queries
  import opened Retrieval
  import opened Slices
  import opened Text

  datatype Config = Config(maxRounds: nat, maxQueries: nat, maxHits: nat)

  /** The bounds that the agent's constructor enforces. */
  predicate ValidConfig(cfg: Config) {
    1 <= cfg.maxRounds <= 3 && 1 <= cfg.maxQueries <= 4 && 1 <= cfg.maxHits <= 12
  }

  datatype Coverage = Coverage(finish: bool, additional: seq<string>)

  /**
   * The knowledge store and the reasoner, free to answer each call differently: searches are numbered by the steps
   * taken before them, coverage decisions and neighbour expansions by their round, the expansion after the rounds by
   * 0. None stands for a raised exception.
   */
  datatype Tools = Tools(
    search: (nat, string, nat) -> Option<seq<SearchHit>>, store: Store, cover: nat -> Option<Coverage>, fold: Casefold)

  datatype Step = Step(round: nat, query: string, requested: nat, returned: seq<ChunkId>, accepted: seq<ChunkId>)

  datatype Run = Run(
    order: seq<ChunkId>, hits: map<ChunkId, SearchHit>, focus: map<ChunkId, seq<string>>, steps: seq<Step>,
    executed: seq<string>)

  datatype Outcome =
    | Done(run: Run)
    | SearchFailed
    | AmbiguousChunk
    | ExpansionFailed
    | AmbiguousExpansion
    | ReasonerFailed
    | NoUsableQuery

  /** What retrieval ends with: a run and its expansion, or one of the exits. */
  datatype Answer = Retrieved(run: Run, context: Expansion) | Stopped(outcome: Outcome)

  // --- what the step log says ---

  function AcceptedIds(steps: seq<Step>): seq<ChunkId>
    decreases |steps|
  {
    if steps == [] then [] else AcceptedIds(steps[..|steps| - 1]) + steps[|steps| - 1].accepted
  }

  function SearchedQueries(steps: seq<Step>): seq<string>
    decreases |steps|
  {
    if steps == [] then [] else SearchedQueries(steps[..|steps| - 1]) + [steps[|steps| - 1].query]
  }

  /**
   * A step taken with `before` chunks retrieved: it asks for its share on top of them, within the hit budget, accepts
   * at most its share, and accepts exactly its share when the store returns as many distinct chunks as asked for.
   */
  predicate StepOk(cfg: Config, before: nat, s: Step) {
    && before < s.requested <= cfg.maxHits
    && |s.accepted| <= s.requested - before
    && (|s.returned| >= s.requested && Distinct(s.returned[..s.requested]) ==> |s.accepted| == s.requested - before)
    && (|s.returned| < cfg.maxHits ==> forall id | id in s.accepted :: id in s.returned)
  }

  predicate LogOk(cfg: Config, steps: seq<Step>)
    decreases |steps|
  {
    steps == []
    || (LogOk(cfg, steps[..|steps| - 1])
        && StepOk(cfg, |AcceptedIds(steps[..|steps| - 1])|, steps[|steps| - 1]))
  }

  /** The invariant of the whole run. */
  ghost predicate GoodRun(cfg: Config, fold: Casefold, run: Run) {
    && Consistent(Intake(run.order, run.hits, run.focus, []))
    && |run.order| <= cfg.maxHits
    && run.order == AcceptedIds(run.steps)
    && run.executed == SearchedQueries(run.steps)
    && FoldDistinct(fold, run.executed)
    && LogOk(cfg, run.steps)
  }

  lemma {:induction false} LogSnoc(cfg: Config, steps: seq<Step>, s: Step)
    ensures AcceptedIds(steps + [s]) == AcceptedIds(steps) + s.accepted
    ensures SearchedQueries(steps + [s]) == SearchedQueries(steps) + [s.query]
    ensures LogOk(cfg, steps + [s]) <==> LogOk(cfg, steps) && StepOk(cfg, |AcceptedIds(steps)|, s)
  {
    hide StepOk;
    JoinCut(steps, [s]);
  }

  lemma {:induction false} FoldDistinctSnoc(fold: Casefold, queries: seq<string>, q: string)
    requires FoldDistinct(fold, queries) && fold(q) !in FoldAll(fold, queries)
    ensures FoldDistinct(fold, queries + [q])
  {
    forall i | 0 <= i < |queries| ensures fold(queries[i]) != fold(q) {
      assert queries[i] in queries;
    }
  }

  // --- one search ---

  /** One search for up to `queryLimit` new chunks: it asks for that many beyond the ones already retrieved. */
  function Searched(cfg: Config, tools: Tools, run: Run, round: nat, query: string, queryLimit: nat): Outcome {
    match tools.search(|run.steps|, query, |run.order| + queryLimit)
    case None => SearchFailed
    case Some(results) =>
      var t := TakeHits(Intake(run.order, run.hits, run.focus, []), results, queryLimit, query, |results|);
      if t.Ambiguous? then AmbiguousChunk
      else
        var step := Step(round, query, |run.order| + queryLimit, Capped(HitIds(results), cfg.maxHits), t.accepted);
        Done(Run(t.order, t.hits, t.focus, run.steps + [step], run.executed + [query]))
  }

  /** A search adds one good step, within its limit. */
  lemma {:induction false} SearchedIsGood(
      cfg: Config, tools: Tools, run: Run, round: nat, query: string, queryLimit: nat)
    requires GoodRun(cfg, tools.fold, run) && queryLimit >= 1 && |run.order| + queryLimit <= cfg.maxHits
    requires tools.fold(query) !in FoldAll(tools.fold, run.executed)
    ensures var r := Searched(cfg, tools, run, round, query, queryLimit);
            && !r.NoUsableQuery?
            && (r.Done? ==>
                 && GoodRun(cfg, tools.fold, r.run) && Keeps(run.hits, r.run.hits)
                 && |run.order| <= |r.run.order| <= |run.order| + queryLimit
                 && r.run.executed == run.executed + [query])
  {
    hide TakeHits;
    var r := Searched(cfg, tools, run, round, query, queryLimit);
    if r.Done? {
      var start := Intake(run.order, run.hits, run.focus, []);
      var results := tools.search(|run.steps|, query, |run.order| + queryLimit).value;
      var step := r.run.steps[|run.steps|];
      StepTaken(cfg, start, results, queryLimit, query, step);
      TakeHitsAppends(start, results, queryLimit, query, |results|);
      hide Consistent, Keeps, FoldDistinct, StepOk, FoldAll, LogOk;
      LogSnoc(cfg, run.steps, step);
      FoldDistinctSnoc(tools.fold, run.executed, query);
    }
  }

  /** The body of the query loop; the cap on the search limit never bites. */
  method RunQuery(cfg: Config, tools: Tools, run: Run, round: nat, query: string, queryLimit: nat)
    returns (r: Outcome)
    requires queryLimit >= 1 && |run.order| + queryLimit <= cfg.maxHits
    ensures r == Searched(cfg, tools, run, round, query, queryLimit)
  {
    var searchLimit := if cfg.maxHits < queryLimit + |run.order| then cfg.maxHits else queryLimit + |run.order|;
    var found := tools.search(|run.steps|, query, searchLimit);
    if found.None? {
      return SearchFailed;
    }
    var results := found.value;
    hide TakeHits;
    var intake := TakeSearchResults(Intake(run.order, run.hits, run.focus, []), results, queryLimit, query);
    if intake.Ambiguous? {
      return AmbiguousChunk;
    }
    var step := Step(round, query, searchLimit, Capped(HitIds(results), cfg.maxHits), intake.accepted);
    r := Done(Run(intake.order, intake.hits, intake.focus, run.steps + [step], run.executed + [query]));
  }

  lemma {:induction false} StepTaken(
      cfg: Config, start: Intake, results: seq<SearchHit>, limit: nat, query: string, s: Step)
    requires Consistent(start) && start.accepted == [] && limit >= 1 && |start.order| + limit <= cfg.maxHits
    requires s.requested == |start.order| + limit && s.returned == Capped(HitIds(results), cfg.maxHits)
    requires TakeHits(start, results, limit, query, |results|).Intake?
    requires s.accepted == TakeHits(start, results, limit, query, |results|).accepted
    ensures StepOk(cfg, |start.order|, s)
  {
    hide TakeHits, Consistent, Keeps;
    TakeHitsAppends(start, results, limit, query, |results|);
    TakeAll(results);
    if |s.returned| >= s.requested && Distinct(s.returned[..s.requested]) {
      assert HitIds(results[..s.requested]) == s.returned[..s.requested];
      EnoughResultsFillLimit(start, results, limit, query, s.requested);
    }
  }

  // --- one round ---

  /** None of these queries was searched, nor are two of them equal, up to case folding. */
  predicate Fresh(fold: Casefold, queries: seq<string>, executed: seq<string>) {
    FoldDistinct(fold, queries) && forall q | q in queries :: fold(q) !in FoldAll(fold, executed)
  }

  lemma {:induction false} FreshStep(fold: Casefold, queries: seq<string>, k: nat, executed: seq<string>)
    requires k < |queries| && Fresh(fold, queries, executed)
    ensures fold(queries[k]) !in FoldAll(fold, executed + queries[..k])
  {
    forall q | q in executed + queries[..k] ensures fold(q) != fold(queries[k]) {
      if q in queries[..k] {
        var i :| 0 <= i < k && queries[i] == q;
        assert fold(queries[i]) != fold(queries[k]);
      } else {
        assert fold(q) in FoldAll(fold, executed) && queries[k] in queries;
      }
    }
  }

  /** A query's ceiling share of what is left of the round. */
  function Share(left: nat, queries: nat): nat
    requires queries > 0
  {
    if CeilDiv(left, queries) < 1 then 1 else CeilDiv(left, queries)
  }

  /** The share is within what is left, and leaves one for each other query if there was one for every query. */
  lemma {:induction false} ShareLeaves(left: nat, queries: nat)
    requires queries > 0 && left > 0
    ensures 1 <= Share(left, queries) <= left
    ensures left >= queries ==> left - Share(left, queries) >= queries - 1
  {
    ShareIsWithin(left, queries);
    if left >= queries { ShareLeavesOneEach(left, queries); }
  }

  /** The searches of a round from its k-th query on, until `goal` chunks are retrieved. */
  function SearchedFrom(
      cfg: Config, tools: Tools, run: Run, round: nat, queries: seq<string>, k: nat, goal: nat): Outcome
    requires k <= |queries|
    decreases |queries| - k
  {
    if k == |queries| || |run.order| >= goal then Done(run)
    else
      var next := Searched(cfg, tools, run, round, queries[k], Share(goal - |run.order|, |queries| - k));
      if next.Done? then SearchedFrom(cfg, tools, next.run, round, queries, k + 1, goal) else next
  }

  /** Where a round stops: its ceiling share of the free hits, beyond what is retrieved. */
  function RoundGoal(cfg: Config, run: Run, round: nat): nat
    requires 1 <= round <= cfg.maxRounds && |run.order| < cfg.maxHits
  {
    |run.order| + CeilDiv(cfg.maxHits - |run.order|, cfg.maxRounds - round + 1)
  }

  /** Searching on from the k-th query keeps the run good and within the goal; with a hit to spare for every query, all
      queries are searched. */
  lemma {:induction false} SearchedFromIsGood(
      cfg: Config, tools: Tools, run: Run, round: nat, queries: seq<string>, k: nat, goal: nat, executed: seq<string>)
    requires k <= |queries| && GoodRun(cfg, tools.fold, run) && Fresh(tools.fold, queries, executed)
    requires run.executed == executed + queries[..k] && |run.order| <= goal <= cfg.maxHits
    ensures var r := SearchedFrom(cfg, tools, run, round, queries, k, goal);
            && !r.NoUsableQuery?
            && (r.Done? ==>
                 && GoodRun(cfg, tools.fold, r.run) && Keeps(run.hits, r.run.hits)
                 && |run.order| <= |r.run.order| <= goal
                 && IsPrefixRun(r.run.executed, executed, queries)
                 && (goal - |run.order| >= |queries| - k ==> r.run.executed == executed + queries))
    decreases |queries| - k
  {
    hide GoodRun, Fresh, Keeps, FoldAll, Searched, Share;
    KeepsSelf(run.hits);
    if k < |queries| && |run.order| < goal {
      var share := Share(goal - |run.order|, |queries| - k);
      ShareLeaves(goal - |run.order|, |queries| - k);
      FreshStep(tools.fold, queries, k, executed);
      SearchedIsGood(cfg, tools, run, round, queries[k], share);
      var next := Searched(cfg, tools, run, round, queries[k], share);
      if next.Done? {
        TakeSnoc(queries, k + 1);
        ConcatAssociates(executed, queries[..k], [queries[k]]);
        SearchedFromIsGood(cfg, tools, next.run, round, queries, k + 1, goal, executed);
        var r := SearchedFrom(cfg, tools, next.run, round, queries, k + 1, goal);
        if r.Done? { KeepsTransitive(run.hits, next.run.hits, r.run.hits); }
      }
    } else {
      TakeAll(queries);
    }
  }

  /** These queries were searched, then a first part of those. */
  ghost predicate IsPrefixRun(all: seq<string>, before: seq<string>, queries: seq<string>) {
    exists n: nat :: n <= |queries| && all == before + queries[..n]
  }

  /** A round accepts no more than its ceiling share of the free hits, so one hit is left for each later round when
      there was one for every round; and it runs every query when the share covers them. */
  lemma {:induction false} RoundIsGood(cfg: Config, tools: Tools, run: Run, round: nat, queries: seq<string>)
    requires ValidConfig(cfg) && GoodRun(cfg, tools.fold, run)
    requires 1 <= round <= cfg.maxRounds && |run.order| < cfg.maxHits
    requires Fresh(tools.fold, queries, run.executed)
    ensures |run.order| <= RoundGoal(cfg, run, round) <= cfg.maxHits
    ensures var r := SearchedFrom(cfg, tools, run, round, queries, 0, RoundGoal(cfg, run, round));
            !r.NoUsableQuery? && (r.Done? ==> RoundKeeps(cfg, tools.fold, run, r.run, round, queries))
  {
    var free, rounds := cfg.maxHits - |run.order|, cfg.maxRounds - round + 1;
    ShareIsWithin(free, rounds);
    if free >= rounds { ShareLeavesOneEach(free, rounds); }
    hide CeilDiv, GoodRun, Fresh, Keeps, FoldAll, SearchedFrom;
    assert queries[..0] == [];
    ConcatEmpty(run.executed);
    SearchedFromIsGood(cfg, tools, run, round, queries, 0, RoundGoal(cfg, run, round), run.executed);
  }

  /** What a completed round promises. */
  ghost predicate RoundKeeps(cfg: Config, fold: Casefold, before: Run, after: Run, round: nat, queries: seq<string>)
    requires 1 <= round <= cfg.maxRounds && |before.order| <= cfg.maxHits
  {
    var free, later := cfg.maxHits - |before.order|, cfg.maxRounds - round;
    && GoodRun(cfg, fold, after) && Keeps(before.hits, after.hits)
    && |before.order| <= |after.order| <= |before.order| + CeilDiv(free, later + 1)
    && (free >= later + 1 ==> cfg.maxHits - |after.order| >= later)
    && IsPrefixRun(after.executed, before.executed, queries)
    && (CeilDiv(free, later + 1) >= |queries| ==> after.executed == before.executed + queries)
  }

  lemma {:induction false} SearchedIsBounded(
      cfg: Config, tools: Tools, run: Run, round: nat, query: string, queryLimit: nat)
    ensures var r := Searched(cfg, tools, run, round, query, queryLimit);
            r.Done? ==> |run.order| <= |r.run.order| <= |run.order| + queryLimit
  {
    hide TakeHits;
    var found := tools.search(|run.steps|, query, |run.order| + queryLimit);
    if found.Some? {
      TakeHitsAreBounded(Intake(run.order, run.hits, run.focus, []), found.value, queryLimit, query, |found.value|);
    }
  }

  /** The query loop of a round. */
  method RunRound(cfg: Config, tools: Tools, run: Run, round: nat, queries: seq<string>) returns (r: Outcome)
    requires 1 <= round <= cfg.maxRounds && |run.order| < cfg.maxHits
    ensures r == SearchedFrom(cfg, tools, run, round, queries, 0, RoundGoal(cfg, run, round))
  {
    hide CeilDiv, Searched;
    var globalRemaining := cfg.maxHits - |run.order|;
    var roundsRemaining := cfg.maxRounds - round + 1;
    var roundBudget := CeilDiv(globalRemaining, roundsRemaining);
    ShareIsWithin(globalRemaining, roundsRemaining);
    ghost var goal := RoundGoal(cfg, run, round);
    var current := run;
    var k := 0;
    while k < |queries|
      invariant k <= |queries| && |run.order| <= |current.order| <= goal == |run.order| + roundBudget
      invariant SearchedFrom(cfg, tools, run, round, queries, 0, goal)
             == SearchedFrom(cfg, tools, current, round, queries, k, goal)
    {
      var acceptedThisRound := |current.order| - |run.order|;
      if acceptedThisRound >= roundBudget {
        return Done(current);
      }
      var remaining := roundBudget - acceptedThisRound;
      var remainingQueries := |queries| - k;
      var queryLimit := if CeilDiv(remaining, remainingQueries) < 1 then 1 else CeilDiv(remaining, remainingQueries);
      ShareLeaves(remaining, remainingQueries);
      var next := RunQuery(cfg, tools, current, round, queries[k], queryLimit);
      SearchedIsBounded(cfg, tools, current, round, queries[k], queryLimit);
      if !next.Done? {
        return next;
      }
      current := next.run;
      k := k + 1;
    }
    return Done(current);
  }

  lemma {:induction false} KeepsSelf(a: map<ChunkId, SearchHit>)
    ensures Keeps(a, a)
  {
  }

  lemma {:induction false} KeepsTransitive(
      a: map<ChunkId, SearchHit>, b: map<ChunkId, SearchHit>, c: map<ChunkId, SearchHit>)
    requires Keeps(a, b) && Keeps(b, c)
    ensures Keeps(a, c)
  {
  }

  // --- all rounds ---

  /** All rounds from the given one on. */
  function RetrievedFrom(cfg: Config, tools: Tools, run: Run, pending: seq<string>, round: nat): Outcome
    requires 1 <= round
    decreases cfg.maxRounds + 1 - round
  {
    if round > cfg.maxRounds || pending == [] || |run.order| >= cfg.maxHits then Done(run)
    else
      var after := SearchedFrom(cfg, tools, run, round, pending, 0, RoundGoal(cfg, run, round));
      if !after.Done? then after
      else
        match Expand(after.run.order, after.run.hits, tools.store, round)
        case NeighborsFailed => ExpansionFailed
        case AmbiguousNeighbor => AmbiguousExpansion
        case Expanded(_, _, _) =>
          match tools.cover(round)
          case None => ReasonerFailed
          case Some(coverage) =>
            var next := NewQueries(cfg, tools, coverage.additional, FoldAll(tools.fold, after.run.executed));
            if coverage.finish || next == [] || round == cfg.maxRounds || |after.run.order| >= cfg.maxHits then after
            else RetrievedFrom(cfg, tools, after.run, next, round + 1)
  }

  /** The expansion after the rounds. */
  function Concluded(tools: Tools, r: Outcome): Answer {
    if !r.Done? then Stopped(r)
    else
      match Expand(r.run.order, r.run.hits, tools.store, 0)
      case NeighborsFailed => Stopped(ExpansionFailed)
      case AmbiguousNeighbor => Stopped(AmbiguousExpansion)
      case Expanded(list, known, byPrimary) => Retrieved(r.run, Expanded(list, known, byPrimary))
  }

  /** Retrieval as a whole, from the proposed first queries. */
  function RetrievalOf(cfg: Config, tools: Tools, proposed: seq<string>): Answer {
    var queries := NewQueries(cfg, tools, proposed, {});
    if queries == [] then Stopped(NoUsableQuery)
    else Concluded(tools, RetrievedFrom(cfg, tools, NOTHING, queries, 1))
  }

  function NewQueries(cfg: Config, tools: Tools, queries: seq<string>, seen: set<string>): seq<string> {
    Capped(Usable(tools.fold, queries, seen, |queries|), cfg.maxQueries)
  }

  lemma {:induction false} NewQueriesAreFresh(
      cfg: Config, tools: Tools, queries: seq<string>, seen: set<string>, executed: seq<string>)
    requires seen == FoldAll(tools.fold, executed)
    ensures Fresh(tools.fold, NewQueries(cfg, tools, queries, seen), executed)
    ensures |NewQueries(cfg, tools, queries, seen)| <= cfg.maxQueries
  {
    UsableAreNew(tools.fold, queries, seen, |queries|);
    var all := Usable(tools.fold, queries, seen, |queries|);
    hide Usable;
    assert forall q | q in Capped(all, cfg.maxQueries) :: q in all;
  }

  /** The rounds from the given one on keep the run good, and search at most `maxQueries` queries each. */
  lemma {:induction false} RetrievedFromIsGood(cfg: Config, tools: Tools, run: Run, pending: seq<string>, round: nat)
    requires ValidConfig(cfg) && 1 <= round <= cfg.maxRounds + 1 && GoodRun(cfg, tools.fold, run)
    requires Fresh(tools.fold, pending, run.executed) && |pending| <= cfg.maxQueries
    ensures var r := RetrievedFrom(cfg, tools, run, pending, round);
            && !r.NoUsableQuery?
            && (r.Done? ==>
                 && GoodRun(cfg, tools.fold, r.run) && Keeps(run.hits, r.run.hits)
                 && |r.run.executed| <= |run.executed| + (cfg.maxRounds + 1 - round) * cfg.maxQueries)
    decreases cfg.maxRounds + 1 - round
  {
    hide GoodRun, Fresh, Keeps, CeilDiv, SearchedFrom, NewQueries, FoldAll, Expand;
    KeepsSelf(run.hits);
    if round <= cfg.maxRounds && pending != [] && |run.order| < cfg.maxHits {
      RoundIsGood(cfg, tools, run, round, pending);
      var after := SearchedFrom(cfg, tools, run, round, pending, 0, RoundGoal(cfg, run, round));
      RoundProduct(cfg.maxRounds, round, cfg.maxQueries);
      var asked := after.Done? && Expand(after.run.order, after.run.hits, tools.store, round).Expanded?;
      if asked && tools.cover(round).Some? {
        var queries := tools.cover(round).value.additional;
        var next := NewQueries(cfg, tools, queries, FoldAll(tools.fold, after.run.executed));
        NewQueriesAreFresh(cfg, tools, queries, FoldAll(tools.fold, after.run.executed), after.run.executed);
        RetrievedFromIsGood(cfg, tools, after.run, next, round + 1);
        var r := RetrievedFrom(cfg, tools, after.run, next, round + 1);
        if r.Done? { KeepsTransitive(run.hits, after.run.hits, r.run.hits); }
      }
    }
  }

  lemma {:induction false} RoundProduct(rounds: nat, round: nat, queries: nat)
    requires round <= rounds
    ensures (rounds + 1 - round) * queries == queries + (rounds + 1 - (round + 1)) * queries
    ensures (rounds + 1 - (round + 1)) * queries >= 0
  {
  }

  const NOTHING: Run := Run([], map[], map[], [], [])

  /** Whatever the store and the reasoner answer, a completed run satisfies the invariant: the hit budget holds, steps
      ask for and accept their shares, accepted ids are the retrieved ids in order, and no query repeats up to case
      folding. Its expansion lists the retrieved chunks and their neighbours, each once. */
  lemma {:induction false} RetrievalIsGood(cfg: Config, tools: Tools, proposed: seq<string>)
    requires ValidConfig(cfg)
    ensures var r := RetrievalOf(cfg, tools, proposed);
            r.Retrieved? ==>
              && GoodRun(cfg, tools.fold, r.run) && |r.run.executed| <= cfg.maxRounds * cfg.maxQueries
              && IsOrdered(r.run.order, r.run.hits)
              && r.context == Expand(r.run.order, r.run.hits, tools.store, 0)
              && IsExpansion(r.run.order, r.run.hits, tools.store, 0, r.context)
  {
    EmptyRunIsGood(cfg, tools.fold);
    assert FoldAll(tools.fold, []) == {};
    NewQueriesAreFresh(cfg, tools, proposed, {}, []);
    hide GoodRun, Fresh, NewQueries, RetrievedFrom, Expand, IsExpansion, IsOrdered;
    var queries := NewQueries(cfg, tools, proposed, {});
    RetrievedFromIsGood(cfg, tools, NOTHING, queries, 1);
    var r := RetrievedFrom(cfg, tools, NOTHING, queries, 1);
    if r.Done? {
      GoodRunIsOrdered(cfg, tools.fold, r.run);
      ExpandLists(r.run.order, r.run.hits, tools.store, 0);
    }
  }

  lemma {:induction false} GoodRunIsOrdered(cfg: Config, fold: Casefold, run: Run)
    requires GoodRun(cfg, fold, run)
    ensures IsOrdered(run.order, run.hits)
  {
    hide FoldDistinct, LogOk;
  }

  lemma {:induction false} EmptyRunIsGood(cfg: Config, fold: Casefold)
    ensures GoodRun(cfg, fold, NOTHING)
  {
  }

  // --- the coverage decisions ---

  /** The run that a coverage decision is asked about, and its round. */
  datatype Asking = Asking(run: Run, round: nat)

  /** The coverage decisions asked for from the given round on. */
  function Asked(cfg: Config, tools: Tools, run: Run, pending: seq<string>, round: nat): seq<Asking>
    requires 1 <= round
    decreases cfg.maxRounds + 1 - round
  {
    if round > cfg.maxRounds || pending == [] || |run.order| >= cfg.maxHits then []
    else
      var after := SearchedFrom(cfg, tools, run, round, pending, 0, RoundGoal(cfg, run, round));
      if !after.Done? || !Expand(after.run.order, after.run.hits, tools.store, round).Expanded? then []
      else
        match tools.cover(round)
        case None => [Asking(after.run, round)]
        case Some(coverage) =>
          var next := NewQueries(cfg, tools, coverage.additional, FoldAll(tools.fold, after.run.executed));
          if coverage.finish || next == [] || round == cfg.maxRounds || |after.run.order| >= cfg.maxHits
          then [Asking(after.run, round)]
          else [Asking(after.run, round)] + Asked(cfg, tools, after.run, next, round + 1)
  }

  /** The run is good, and its expansion in this round does not raise. */
  ghost predicate GoodAsking(cfg: Config, tools: Tools, a: Asking) {
    GoodRun(cfg, tools.fold, a.run) && Expand(a.run.order, a.run.hits, tools.store, a.round).Expanded?
  }

  /** Every coverage decision is asked for about a good run. */
  lemma {:induction false} AskedIsGood(cfg: Config, tools: Tools, run: Run, pending: seq<string>, round: nat)
    requires ValidConfig(cfg) && 1 <= round <= cfg.maxRounds + 1 && GoodRun(cfg, tools.fold, run)
    requires Fresh(tools.fold, pending, run.executed) && |pending| <= cfg.maxQueries
    ensures forall a | a in Asked(cfg, tools, run, pending, round) :: GoodAsking(cfg, tools, a)
    decreases cfg.maxRounds + 1 - round
  {
    hide GoodRun, Fresh, Keeps, CeilDiv, SearchedFrom, NewQueries, FoldAll, Expand;
    if round <= cfg.maxRounds && pending != [] && |run.order| < cfg.maxHits {
      RoundIsGood(cfg, tools, run, round, pending);
      var after := SearchedFrom(cfg, tools, run, round, pending, 0, RoundGoal(cfg, run, round));
      var asked := after.Done? && Expand(after.run.order, after.run.hits, tools.store, round).Expanded?;
      if asked && tools.cover(round).Some? {
        var queries := tools.cover(round).value.additional;
        var next := NewQueries(cfg, tools, queries, FoldAll(tools.fold, after.run.executed));
        NewQueriesAreFresh(cfg, tools, queries, FoldAll(tools.fold, after.run.executed), after.run.executed);
        AskedIsGood(cfg, tools, after.run, next, round + 1);
      }
    }
  }
}
