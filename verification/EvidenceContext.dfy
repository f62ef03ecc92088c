/** Retrieval, neighbour expansion and packing together: from the proposed queries to the context shown to the model. */
module EvidenceContext {
  import opened Collections
  import opened ContextBuilder
  import opened ContextPacking
  import opened JsonRecords
  import opened Neighbors
  import opened PackedRecords
  import opened Queries
  import opened Retrieval
  import opened RetrievalLoop
  import opened Slices
  import opened Utf8

  /** A hit as the packer sees it, given the queries that found it. */
  type View = (SearchHit, seq<string>) -> Hit

  ghost predicate KeepsIds(view: View) {
    forall hit, focus :: view(hit, focus).chunkId == hit.chunkId
  }

  /** A listed hit as the packer sees it, with the queries that found it. */
  function ViewOf(view: View, focus: map<Retrieval.ChunkId, seq<string>>, hit: SearchHit): Hit {
    view(hit, if hit.chunkId in focus then focus[hit.chunkId] else [])
  }

  function Viewed(view: View, focus: map<Retrieval.ChunkId, seq<string>>, hits: seq<SearchHit>): (r: seq<Hit>)
    ensures |r| == |hits|
  {
    seq(|hits|, i requires 0 <= i < |hits| => ViewOf(view, focus, hits[i]))
  }

  lemma {:induction false} ViewedIds(view: View, focus: map<Retrieval.ChunkId, seq<string>>, hits: seq<SearchHit>)
    requires KeepsIds(view)
    ensures Ids(Viewed(view, focus, hits)) == HitIds(hits)
  {
  }

  /** What an expansion lists can be packed exactly if no answer of the store repeats an id that is not a primary. */
  lemma {:induction false} PackableIffNoRepeats(run: Run, store: Store, call: nat, view: View)
    requires IsOrdered(run.order, run.hits) && Expand(run.order, run.hits, store, call).Expanded? && KeepsIds(view)
    ensures var e := Expand(run.order, run.hits, store, call);
            && Ids(Viewed(view, run.focus, e.hits)) == HitIds(e.hits) && Distinct(HitIds(e.hits))
            && (ValidExpansion(run.hits.Keys, e.byPrimary) <==>
                  forall id | id in run.order :: NoRepeats(store(call, id), run.hits.Keys))
  {
    hide Expand, NoRepeats, Distinct, IsOrdered, KeepsIds, HitIds, Ids, Viewed;
    var e := Expand(run.order, run.hits, store, call);
    ViewedIds(view, run.focus, e.hits);
    ListsRepeatIffAnswersDo(run.order, run.hits, store, call);
    assert Distinct(HitIds(e.hits)) by { ExpandLists(run.order, run.hits, store, call); }
  }

  /** The context shows all of these chunks or none of them. */
  predicate AllOrNone(shown: seq<Retrieval.ChunkId>, chunks: seq<Retrieval.ChunkId>) {
    (forall id | id in chunks :: id in shown) || (forall id | id in chunks :: id !in shown)
  }

  lemma {:induction false} BlockIsAllOrNone(
      order: seq<Retrieval.ChunkId>, required: seq<Hit>, profile: nat, bound: nat,
      records: seq<Record>)
    requires profile < PROFILE_COUNT && BlockAt(required, profile, bound) <= records
    requires forall i | |BlockAt(required, profile, bound)| <= i < |records| :: records[i].chunkId !in IdSet(required)
    requires forall id | id in order :: id in IdSet(required)
    ensures AllOrNone(RecordIds(records), order)
  {
    var block := BlockAt(required, profile, bound);
    if bound > 0 {
      CutRecordsAt(required, profile, bound, |required|);
      forall id | id in order ensures id in RecordIds(records) {
        var h :| h in required && h.chunkId == id;
        var i :| 0 <= i < |required| && required[i] == h;
        assert records[i] == block[i];
        assert RecordIds(records)[i] == id;
      }
    } else {
      assert forall i | 0 <= i < |records| :: RecordIds(records)[i] !in IdSet(required);
    }
  }

  lemma {:induction false} PrimariesAreRequired(
      hits: seq<Hit>, order: seq<Retrieval.ChunkId>, primaryIds: set<Retrieval.ChunkId>, required: seq<Hit>)
    requires forall id | id in order :: id in primaryIds && id in Ids(hits)
    requires forall h | h in hits && h.chunkId in primaryIds :: h in required
    ensures forall id | id in order :: id in IdSet(required)
  {
    forall id | id in order ensures id in IdSet(required) {
      InIds(hits, id);
      var h :| h in hits && h.chunkId == id;
    }
  }

  lemma {:induction false} ContextIds(run: Run, store: Store, call: nat, e: Expansion)
    requires IsOrdered(run.order, run.hits) && IsExpansion(run.order, run.hits, store, call, e)
    ensures forall id | id in run.order :: id in run.hits && id in HitIds(e.hits)
    ensures forall id | id in HitIds(e.hits) :: id in run.order || IsNeighbor(run.order, e.byPrimary, id)
  {
    hide Answered, IsNeighbor, Distinct;
    forall id | id in HitIds(e.hits) ensures id in e.known {
      var i :| 0 <= i < |e.hits| && HitIds(e.hits)[i] == id;
    }
  }

  datatype Context = Context(text: string, ids: seq<Retrieval.ChunkId>)

  /** The context is a list of records, and each shows its chunk as listed, with its own metadata and a part of its own
      excerpt, cut around the matches of its own queries. */
  ghost predicate ShowsListed(run: Run, known: map<Retrieval.ChunkId, SearchHit>, view: View, context: Context) {
    exists records: seq<Record> :: AreRecords(run, known, view, context, records)
  }

  ghost predicate AreRecords(
      run: Run, known: map<Retrieval.ChunkId, SearchHit>, view: View, context: Context, records: seq<Record>)
  {
    && context.text == JsonText(records) && context.ids == RecordIds(records)
    && forall i | 0 <= i < |records| ::
         var id := records[i].chunkId;
         && id in known
         && (id in run.focus ==> ShowsHit(view(known[id], run.focus[id]), records[i]))
         && (id !in run.focus ==> ShowsHit(view(known[id], []), records[i]))
  }

  lemma {:induction false} RecordsShowListed(
      run: Run, e: Expansion, view: View, records: seq<Record>, context: Context)
    requires KeepsIds(view) && e.Expanded? && Listed(e.hits, e.known)
    requires AllShow(Viewed(view, run.focus, e.hits), records)
    requires context.text == JsonText(records) && context.ids == RecordIds(records)
    ensures ShowsListed(run, e.known, view, context)
  {
    var hits := Viewed(view, run.focus, e.hits);
    hide ShowsHit, JsonText, Distinct, HitIds;
    forall i | 0 <= i < |records|
      ensures records[i].chunkId in e.known
          && ShowsHit(ViewOf(view, run.focus, e.known[records[i].chunkId]), records[i])
    {
      assert ShowsOneOf(hits, records[i]);
      RecordShowsListed(run, e, view, records[i]);
    }
    hide ViewOf, JsonText, RecordIds;
    ViewIs(run, e.known, view);
    assert AreRecords(run, e.known, view, context, records);
  }

  lemma {:induction false} ViewIs(run: Run, known: map<Retrieval.ChunkId, SearchHit>, view: View)
    requires forall id | id in known :: known[id].chunkId == id
    ensures forall id | id in known ::
              ViewOf(view, run.focus, known[id]) == view(known[id], if id in run.focus then run.focus[id] else [])
  {
  }

  lemma {:induction false} RecordShowsListed(run: Run, e: Expansion, view: View, r: Record)
    requires KeepsIds(view) && e.Expanded? && Listed(e.hits, e.known)
    requires ShowsOneOf(Viewed(view, run.focus, e.hits), r)
    ensures r.chunkId in e.known && ShowsHit(ViewOf(view, run.focus, e.known[r.chunkId]), r)
  {
    hide ShowsHit, Distinct, HitIds;
    var hits := Viewed(view, run.focus, e.hits);
    var h :| h in hits && ShowsHit(h, r);
    var j :| 0 <= j < |hits| && hits[j] == h;
    ShownIds(h, r);
    assert h == ViewOf(view, run.focus, e.hits[j]) && e.hits[j].chunkId == r.chunkId;
  }

  lemma {:induction false} ShownIds(h: Hit, r: Record)
    requires ShowsHit(h, r)
    ensures r.chunkId == h.chunkId
  {
  }

  /** The context is within its byte budget and shows only retrieved chunks and their neighbours, of the retrieved
      ones all or none; and no chunk twice, if no answer of the store repeats an id that is not a primary. */
  ghost predicate SoundContext(run: Run, store: Store, call: nat, view: View, context: Context, maxBytes: nat) {
    var e := Expand(run.order, run.hits, store, call);
    && e.Expanded? && ShowsListed(run, e.known, view, context)
    && (Size(context.text) <= maxBytes <==> maxBytes >= 2)
    && AllOrNone(context.ids, run.order)
    && (forall id | id in context.ids :: id in run.order || IsNeighbor(run.order, e.byPrimary, id))
    && ((forall id | id in run.order :: NoRepeats(store(call, id), run.hits.Keys)) ==> Distinct(context.ids))
  }

  /** Packing what an expansion of an ordered run lists. */
  method PackContext(
      run: Run, ghost store: Store, ghost call: nat, e: Expansion, view: View, excerptBudget: nat, maxBytes: nat)
    returns (context: Context)
    requires IsOrdered(run.order, run.hits) && e == Expand(run.order, run.hits, store, call) && e.Expanded?
    requires KeepsIds(view) && excerptBudget > 0 && maxBytes > 0
    ensures SoundContext(run, store, call, view, context, maxBytes)
  {
    ExpandLists(run.order, run.hits, store, call);
    PackableIffNoRepeats(run, store, call, view);
    ContextIds(run, store, call, e);
    hide Expand, IsOrdered, IsExpansion, NoRepeats, Distinct, KeepsIds, Viewed, RequiredBlock, ValidExpansion,
         IsNeighbor, IsPacked, ChosenProfile, BlockAt, AllOrNone;
    var hits := Viewed(view, run.focus, e.hits);
    var text, ids, records, profile, bound :=
      BuildContext(hits, run.hits.Keys, e.byPrimary, excerptBudget, maxBytes);
    ghost var required := RequiredBlock(hits, run.hits.Keys, e.byPrimary, |hits|).required;
    PrimariesAreRequired(hits, run.order, run.hits.Keys, required);
    BlockIsAllOrNone(run.order, required, profile, bound, records);
    context := Context(text, ids);
    RequiredBlockHolds(hits, run.hits.Keys, e.byPrimary, |hits|);
    PackedRecordsShowHits(records, hits, required, excerptBudget, maxBytes, profile, bound);
    hide AllShow, ShowsListed;
    RecordsShowListed(run, e, view, records, context);
  }

  /** One sound context for each coverage decision. */
  ghost predicate ShownFor(asked: seq<Asking>, store: Store, view: View, shown: seq<Context>, maxBytes: nat) {
    && |shown| == |asked|
    && forall i | 0 <= i < |asked| :: SoundContext(asked[i].run, store, asked[i].round, view, shown[i], maxBytes)
  }

  lemma {:induction false} OneMoreShown(
      asked: seq<Asking>, store: Store, view: View, shown: seq<Context>, maxBytes: nat, a: Asking, context: Context)
    requires ShownFor(asked, store, view, shown, maxBytes)
        && SoundContext(a.run, store, a.round, view, context, maxBytes)
    ensures ShownFor(asked + [a], store, view, shown + [context], maxBytes)
  {
    hide SoundContext;
  }

  /** What is asked for in one round, and after it. */
  lemma {:induction false} AskedInRound(cfg: Config, tools: Tools, run: Run, pending: seq<string>, round: nat)
    requires 1 <= round <= cfg.maxRounds && pending != [] && |run.order| < cfg.maxHits
    ensures var after := SearchedFrom(cfg, tools, run, round, pending, 0, RoundGoal(cfg, run, round));
            after.Done? && Expand(after.run.order, after.run.hits, tools.store, round).Expanded? ==>
              var asked, c := Asked(cfg, tools, run, pending, round), tools.cover(round);
              && asked != [] && asked[0] == Asking(after.run, round)
              && (c.Some? ==>
                   var next := NewQueries(cfg, tools, c.value.additional, FoldAll(tools.fold, after.run.executed));
                   asked[1..] ==
                     if c.value.finish || next == [] || round == cfg.maxRounds || |after.run.order| >= cfg.maxHits
                     then [] else Asked(cfg, tools, after.run, next, round + 1))
              && (c.None? ==> asked[1..] == [])
  {
    hide SearchedFrom, CeilDiv, Expand, NewQueries, FoldAll;
  }

  /** The loop over the rounds: searches, expansion, and a context packed for the coverage decision. */
  method RunRounds(
      cfg: Config, tools: Tools, queries: seq<string>, view: View, excerptBudget: nat, maxBytes: nat)
    returns (r: Outcome, shown: seq<Context>)
    requires ValidConfig(cfg) && Fresh(tools.fold, queries, []) && |queries| <= cfg.maxQueries
    requires KeepsIds(view) && excerptBudget > 0 && maxBytes > 0
    ensures r == RetrievedFrom(cfg, tools, NOTHING, queries, 1)
    ensures ShownFor(Asked(cfg, tools, NOTHING, queries, 1), tools.store, view, shown, maxBytes)
  {
    ghost var asked := Asked(cfg, tools, NOTHING, queries, 1);
    EmptyRunIsGood(cfg, tools.fold);
    AskedIsGood(cfg, tools, NOTHING, queries, 1);
    hide Asked, Usable, SearchedFrom, CeilDiv, Expand, KeepsIds, ShownFor, SoundContext, Fresh, GoodAsking, FoldAll;
    var run, pending := NOTHING, queries;
    var round := 1;
    shown := [];
    ghost var done: seq<Asking> := [];
    NothingShown(tools.store, view, maxBytes);
    ConcatEmpty(asked);
    while round <= cfg.maxRounds
      invariant 1 <= round <= cfg.maxRounds + 1
      invariant RetrievedFrom(cfg, tools, NOTHING, queries, 1) == RetrievedFrom(cfg, tools, run, pending, round)
      invariant asked == done + Asked(cfg, tools, run, pending, round)
          && ShownFor(done, tools.store, view, shown, maxBytes)
    {
      ConcatEmpty(done);
      if pending == [] || |run.order| >= cfg.maxHits {
        NothingAsked(cfg, tools, run, pending, round);
        return Done(run), shown;
      }
      var after := RunRound(cfg, tools, run, round, pending);
      if !after.Done? {
        return after, shown;
      }
      var context := ExpandContextHits(after.run.order, after.run.hits, tools.store, round);
      if context.NeighborsFailed? {
        return ExpansionFailed, shown;
      } else if context.AmbiguousNeighbor? {
        return AmbiguousExpansion, shown;
      }
      ghost var asking := Asking(after.run, round);
      AskedInRound(cfg, tools, run, pending, round);
      ghost var later := Asked(cfg, tools, run, pending, round)[1..];
      HeadTail(Asked(cfg, tools, run, pending, round));
      ConcatAssociates(done, [asking], later);
      assert asking in asked by { assert asked[|done|] == asking; }
      AskingIsOrdered(cfg, tools, asking);
      var packed := PackContext(after.run, tools.store, round, context, view, excerptBudget, maxBytes);
      OneMoreShown(done, tools.store, view, shown, maxBytes, asking, packed);
      shown := shown + [packed];
      done := done + [asking];
      var coverage := tools.cover(round);
      if coverage.None? {
        return ReasonerFailed, shown;
      }
      run := after.run;
      var next, _ := NormalizeQueries(tools.fold, coverage.value.additional, cfg.maxQueries, Members(run.executed));
      FoldSetOfMembers(tools.fold, run.executed);
      if coverage.value.finish || next == [] || round == cfg.maxRounds || |run.order| >= cfg.maxHits {
        return Done(run), shown;
      }
      pending := next;
      round := round + 1;
    }
    assert Asked(cfg, tools, run, pending, round) == [] by { NothingAsked(cfg, tools, run, pending, round); }
    ConcatEmpty(done);
    return Done(run), shown;
  }

  lemma {:induction false} NothingAsked(cfg: Config, tools: Tools, run: Run, pending: seq<string>, round: nat)
    requires round >= 1 && (round > cfg.maxRounds || pending == [] || |run.order| >= cfg.maxHits)
    ensures Asked(cfg, tools, run, pending, round) == []
  {
  }

  lemma {:induction false} NothingShown(store: Store, view: View, maxBytes: nat)
    ensures ShownFor([], store, view, [], maxBytes)
  {
  }

  lemma {:induction false} AskingIsOrdered(cfg: Config, tools: Tools, a: Asking)
    requires GoodAsking(cfg, tools, a)
    ensures IsOrdered(a.run.order, a.run.hits)
  {
    GoodRunIsOrdered(cfg, tools.fold, a.run);
  }

  /**
   * The part of `run` from the proposed queries to the context of the draft: every context packed on the way for a
   * coverage decision is sound, and so is the last one.
   */
  method RetrieveContext(
      cfg: Config, tools: Tools, proposed: seq<string>, view: View, excerptBudget: nat, maxBytes: nat)
    returns (r: Answer, shown: seq<Context>, context: Context)
    requires ValidConfig(cfg) && KeepsIds(view) && excerptBudget > 0 && maxBytes > 0
    ensures r == RetrievalOf(cfg, tools, proposed)
    ensures ShownFor(Asked(cfg, tools, NOTHING, NewQueries(cfg, tools, proposed, {}), 1), tools.store, view, shown,
        maxBytes)
    ensures r.Retrieved? ==> SoundContext(r.run, tools.store, 0, view, context, maxBytes)
  {
    RetrievalIsGood(cfg, tools, proposed);
    assert FoldAll(tools.fold, []) == {} == FoldSet(tools.fold, {});
    NewQueriesAreFresh(cfg, tools, proposed, {}, []);
    hide Usable, RetrievedFrom, Expand, SoundContext, KeepsIds, GoodRun, Fresh, IsExpansion, IsOrdered, FoldAll;
    context := Context("", []);
    var pending, _ := NormalizeQueries(tools.fold, proposed, cfg.maxQueries, {});
    if pending == [] {
      return Stopped(NoUsableQuery), [], context;
    }
    hide NewQueries, Asked, ShownFor;
    var rounds;
    rounds, shown := RunRounds(cfg, tools, pending, view, excerptBudget, maxBytes);
    if !rounds.Done? {
      return Stopped(rounds), shown, context;
    }
    var e := ExpandContextHits(rounds.run.order, rounds.run.hits, tools.store, 0);
    match e {
      case NeighborsFailed => return Stopped(ExpansionFailed), shown, context;
      case AmbiguousNeighbor => return Stopped(AmbiguousExpansion), shown, context;
      case Expanded(_, _, _) =>
        r := Retrieved(rounds.run, e);
        context := PackContext(rounds.run, tools.store, 0, e, view, excerptBudget, maxBytes);
    }
  }
}
