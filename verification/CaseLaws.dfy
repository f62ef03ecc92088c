/** Which case ids, receipts, appends and attempts there are, and how a case becomes ready. */
module CaseLaws {
  import opened AttemptLog
  import opened CaseArchive
  import opened CaseStore
  import opened Mastery
  import opened Slices
  import opened Text
  import opened Utf8

  // --- case ids ---

  /** Non-empty words of lower-case letters and digits, with one hyphen between neighbours. */
  function Hyphenated(words: seq<string>): string {
    if words == [] then ""
    else if |words| == 1 then words[0]
    else words[0] + "-" + Hyphenated(words[1..])
  }

  predicate IsIdWord(w: string) {
    w != "" && forall i | 0 <= i < |w| :: 'a' <= w[i] <= 'z' || '0' <= w[i] <= '9'
  }

  /** No hyphen at either end or next to another one, and no other punctuation. */
  predicate SingleInnerHyphens(s: string) {
    && s != "" && (forall i | 0 <= i < |s| :: IdChar(s[i]))
    && s[0] != '-' && s[|s| - 1] != '-'
    && (forall i | 0 <= i < |s| - 1 :: s[i] == '-' ==> s[i + 1] != '-')
  }

  function WordEnd(s: string): (n: nat)
    ensures n <= |s| && (forall i | 0 <= i < n :: s[i] != '-') && (n < |s| ==> s[n] == '-')
  {
    if s == "" || s[0] == '-' then 0 else
    var n := WordEnd(s[1..]);
    assert forall i | 1 <= i < n + 1 :: s[i] == s[1..][i - 1];
    n + 1
  }

  lemma {:induction false} FirstWord(s: string, n: nat)
    requires SingleInnerHyphens(s) && n == WordEnd(s) < |s|
    ensures IsIdWord(s[..n]) && n + 1 <= |s| && s == s[..n] + "-" + s[n + 1..] && SingleInnerHyphens(s[n + 1..])
  {
    var rest := s[n + 1..];
    assert n > 0 && n < |s| - 1;
    assert forall i | 0 <= i < |rest| :: rest[i] == s[n + 1 + i];
    assert rest[0] == s[n + 1] && rest[|rest| - 1] == s[|s| - 1];
  }

  lemma {:induction false} LastWord(s: string)
    requires SingleInnerHyphens(s) && WordEnd(s) == |s|
    ensures IsIdWord(s)
  {
  }

  lemma {:induction false} WordsOfId(s: string) returns (words: seq<string>)
    requires SingleInnerHyphens(s)
    ensures words != [] && s == Hyphenated(words) && forall k | 0 <= k < |words| :: IsIdWord(words[k])
    decreases |s|
  {
    hide SingleInnerHyphens, IsIdWord;
    var n := WordEnd(s);
    if n == |s| {
      LastWord(s);
      words := [s];
    } else {
      FirstWord(s, n);
      var later := WordsOfId(s[n + 1..]);
      words := [s[..n]] + later;
      assert words[1..] == later;
    }
  }

  lemma {:induction false} HyphenatedIsId(words: seq<string>)
    requires words != [] && forall k | 0 <= k < |words| :: IsIdWord(words[k])
    ensures SingleInnerHyphens(Hyphenated(words))
    decreases |words|
  {
    var w := words[0];
    if |words| > 1 {
      assert forall k | 0 <= k < |words[1..]| :: IsIdWord(words[1..][k]);
      HyphenatedIsId(words[1..]);
      var rest := Hyphenated(words[1..]);
      var s := w + "-" + rest;
      forall i | 0 <= i < |s| ensures IdChar(s[i]) && (i < |s| - 1 && s[i] == '-' ==> s[i + 1] != '-') {
        if i < |w| {
          assert s[i] == w[i];
        } else if i > |w| {
          assert s[i] == rest[i - |w| - 1];
          if i < |s| - 1 { assert s[i + 1] == rest[i - |w|]; }
        } else {
          assert s[i + 1] == rest[0];
        }
      }
      assert s[|s| - 1] == rest[|rest| - 1];
    }
  }

  /** A case id is 3 to 80 characters of such words. */
  lemma {:induction false} CaseIdIsHyphenated(id: string)
    ensures ValidCaseId(id) <==>
              && 3 <= |id| <= 80
              && exists words: seq<string> ::
                   words != [] && id == Hyphenated(words) && forall k | 0 <= k < |words| :: IsIdWord(words[k])
  {
    if ValidCaseId(id) { var words := WordsOfId(id); }
    if words: seq<string> :| words != [] && id == Hyphenated(words) && forall k | 0 <= k < |words| :: IsIdWord(words[k])
    {
      HyphenatedIsId(words);
    }
  }

  // --- receipt files ---

  /** A receipt file is reused exactly if the file of the plain name has the content's hash and size. */
  lemma {:induction false} ReusedIff(hash: Hash, dir: Directory, content: bytes)
    ensures var p, plain := Place(hash, dir, content), Plain(hash(content));
            && (!p.isNew <==> plain in dir && hash(dir[plain]) == hash(content) && |dir[plain]| == |content|)
            && (!p.isNew ==> p.name == plain)
            && (p.isNew && plain !in dir ==> p.name == plain)
  {
  }

  /** The same content placed twice takes one file, unless another file has the plain name of its hash. */
  lemma {:induction false} PlacedTwice(hash: Hash, dir: Directory, content: bytes)
    ensures var first := Place(hash, dir, content);
            var again := Place(hash, WithFile(dir, first, content), content);
            && (first.name == Plain(hash(content)) ==> again == Placed(first.name, false))
            && (first.name != Plain(hash(content)) ==> again.isNew)
  {
    ReusedIff(hash, dir, content);
    ReusedIff(hash, WithFile(dir, Place(hash, dir, content), content), content);
    hide Place;
  }

  /** The attempt that a call builds: its fields are the call's, the note stripped, and its receipt names a file with
      the hash and size of the given source. */
  lemma {:induction false} AttemptIsOfCall(t: Tools, f: CaseFiles, call: Call)
    requires call.Record? && (call.source.Some? ==> Readable(call.source.value))
    ensures var a, dir := NewAttempt(t, f, call), WithReceipt(t, f, call);
            && a.caseId == call.caseId && a.stage == call.stage && a.outcome == call.outcome
            && a.createdAt == call.createdAt
            && (a.note.None? <==> call.note.None?)
            && (call.note.Some? ==> a.note.value == Strip(call.note.value))
            && (a.receipt.None? <==> call.source.None?)
            && (call.source.Some? ==>
                 var r, content := a.receipt.value, call.source.value.content.value;
                 && r.receiptId == call.receiptId && r.sourcePath == call.source.value.path
                 && r.size == |content| && r.sha == t.hash(content)
                 && r.name in dir && |dir[r.name]| == |content| && t.hash(dir[r.name]) == t.hash(content)
                 && (r.name !in f.receiptDir ==> dir == f.receiptDir[r.name := content])
                 && (r.name in f.receiptDir ==> dir == f.receiptDir))
  {
    hide FirstFree, Strip;
  }

  // --- the write loop ---

  /** The bytes that the writes before the first one that takes nothing would take. */
  function TakenBytes(writes: seq<nat>): nat {
    if writes == [] || writes[0] == 0 then 0 else writes[0] + TakenBytes(writes[1..])
  }

  lemma {:induction false} ProgressIsTaken(total: nat, goal: nat, writes: seq<nat>)
    requires total <= goal
    ensures Progress(total, goal, writes)
         == if total + TakenBytes(writes) <= goal then total + TakenBytes(writes) else goal
    decreases |writes|
  {
    if total < goal && writes != [] && writes[0] > 0 {
      ProgressIsTaken(if total + writes[0] <= goal then total + writes[0] else goal, goal, writes[1..]);
    }
  }

  /** An append commits exactly if the writes take the whole record before one takes nothing, and the sync works. */
  lemma {:induction false} CommitsIff(encoded: bytes, disk: Disk)
    ensures Commits(encoded, disk) <==> TakenBytes(disk.writes) >= |encoded| && !disk.syncFails
  {
    ProgressIsTaken(0, |encoded|, disk.writes);
  }

  // --- the way to readiness ---

  /** A stage's result is the outcome of the last attempt at it. */
  lemma {:induction false} LatestIsLast(log: seq<Try>, s: Stage, o: Mastery.Outcome)
    ensures Latest(log, s) == Some(o) <==>
              exists i :: 0 <= i < |log| && IsLastAt(log, i, s) && log[i].outcome == o
    decreases |log|
  {
    if log != [] {
      var n := |log| - 1;
      var front := log[..n];
      LatestIsLast(front, s, o);
      if log[n].stage == s {
        assert IsLastAt(log, n, s);
      } else {
        forall i | 0 <= i < n ensures IsLastAt(front, i, s) <==> IsLastAt(log, i, s) {
          SameLast(log, i, s);
        }
        if i :| 0 <= i < |front| && IsLastAt(front, i, s) && front[i].outcome == o {
          assert IsLastAt(log, i, s) && log[i].outcome == o;
        }
        if i :| 0 <= i < |log| && IsLastAt(log, i, s) && log[i].outcome == o {
          assert i < n && IsLastAt(front, i, s) && front[i].outcome == o;
        }
      }
    }
  }

  /** Attempt i is at this stage, and no later one is. */
  predicate IsLastAt(log: seq<Try>, i: nat, s: Stage)
    requires i < |log|
  {
    log[i].stage == s && forall j | i < j < |log| :: log[j].stage != s
  }

  lemma {:induction false} SameLast(log: seq<Try>, i: nat, s: Stage)
    requires i < |log| - 1 && log[|log| - 1].stage != s
    ensures IsLastAt(log[..|log| - 1], i, s) <==> IsLastAt(log, i, s)
  {
    var front := log[..|log| - 1];
    assert forall j | 0 <= j < |front| :: front[j] == log[j];
  }

  /** A pass of a stage is accepted exactly if no earlier stage is open. */
  lemma {:induction false} PassAcceptedIff(log: seq<Try>, id: string, s: Stage)
    ensures GateOpen(log, Try(id, s, Pass)) <==> forall i | 0 <= i < Rank(s) :: Latest(log, STAGES[i]) == Some(Pass)
  {
    hide Latest;
    if forall i | 0 <= i < Rank(s) :: Latest(log, STAGES[i]) == Some(Pass) {
      forall t: Stage | Rank(t) < Rank(s) ensures Latest(log, t) == Some(Pass) {
        assert Latest(log, STAGES[Rank(t)]) == Some(Pass);
      }
    }
    assert forall i | 0 <= i < |STAGES| :: Rank(STAGES[i]) == i;
  }

  /** The passes of the first k stages, in order. */
  function Passes(id: string, k: nat): seq<Try>
    requires k <= |STAGES|
  {
    if k == 0 then [] else Passes(id, k - 1) + [Try(id, STAGES[k - 1], Pass)]
  }

  /** Whatever was attempted before, passing the stages in turn is always accepted and makes the case ready. */
  lemma {:induction false} FivePassesMakeReady(log: seq<Try>, id: string, k: nat)
    requires k <= |STAGES|
    ensures forall i | 0 <= i < k :: Latest(log + Passes(id, k), STAGES[i]) == Some(Pass)
    ensures k < |STAGES| ==> GateOpen(log + Passes(id, k), Try(id, STAGES[k], Pass))
    ensures k == |STAGES| ==> forall s: Stage :: Latest(log + Passes(id, k), s) == Some(Pass)
    decreases k
  {
    assert forall i | 0 <= i < |STAGES| :: Rank(STAGES[i]) == i;
    if k > 0 {
      FivePassesMakeReady(log, id, k - 1);
      var before, t := log + Passes(id, k - 1), Try(id, STAGES[k - 1], Pass);
      ConcatAssociates(log, Passes(id, k - 1), [t]);
      forall i | 0 <= i < k ensures Latest(log + Passes(id, k), STAGES[i]) == Some(Pass) {
        LatestSnoc(before, t, STAGES[i]);
      }
    }
    hide Latest, Passes;
    if k < |STAGES| { PassAcceptedIff(log + Passes(id, k), id, STAGES[k]); }
    if k == |STAGES| {
      forall s: Stage ensures Latest(log + Passes(id, k), s) == Some(Pass) { assert STAGES[Rank(s)] == s; }
    }
  }

  lemma {:induction false} AllStages(results: map<Stage, Option<Mastery.Outcome>>, log: seq<Try>)
    requires forall s: Stage :: s in results && results[s] == Latest(log, s)
    ensures (forall i | 0 <= i < |STAGES| :: results[STAGES[i]] == Some(Pass)) ==>
              forall s: Stage :: Latest(log, s) == Some(Pass)
    ensures (forall s: Stage :: Latest(log, s) == Some(Pass)) ==>
              forall i | 0 <= i < |STAGES| :: results[STAGES[i]] == Some(Pass)
  {
    hide Latest;
    if forall i | 0 <= i < |STAGES| :: results[STAGES[i]] == Some(Pass) {
      forall s: Stage ensures Latest(log, s) == Some(Pass) { assert results[STAGES[Rank(s)]] == Some(Pass); }
    }
    if forall s: Stage :: Latest(log, s) == Some(Pass) {
      forall i | 0 <= i < |STAGES| ensures results[STAGES[i]] == Some(Pass) {
        assert Latest(log, STAGES[i]) == Some(Pass);
      }
    }
  }

  /** What derived mastery says: ready exactly if every stage's last attempt passed, captured exactly if there is no
      attempt, and next the first stage whose last attempt did not pass. */
  lemma {:induction false} MasteryMeans(m: Snapshot, log: seq<Try>)
    requires Derives(m, log)
    ensures m.ready <==> forall s: Stage :: Latest(log, s) == Some(Pass)
    ensures m.status == InterviewReady <==> m.ready
    ensures m.status == Captured <==> log == []
    ensures forall s :: s in m.passed <==> Latest(log, s) == Some(Pass)
    ensures m.next.None? <==> m.ready
    ensures m.next.Some? ==>
              && Latest(log, m.next.value) != Some(Pass)
              && forall s: Stage | Rank(s) < Rank(m.next.value) :: Latest(log, s) == Some(Pass)
  {
    PassedMembers(m.results, |STAGES|);
    NextIsFirstOpen(m.results, 0);
    AllStages(m.results, log);
    StatusMeans(m, log);
    hide Passed, NextFrom, Latest;
    if m.next.Some? {
      forall s: Stage | Rank(s) < Rank(m.next.value) ensures Latest(log, s) == Some(Pass) {
        assert m.results[STAGES[Rank(s)]] == Some(Pass);
      }
    }
  }

  lemma {:induction false} StatusMeans(m: Snapshot, log: seq<Try>)
    requires Derives(m, log)
    ensures m.status == Captured <==> log == []
  {
    PassedMembers(m.results, |STAGES|);
    hide Passed, NextFrom;
    if log == [] {
      assert m.results[STAGES[0]] != Some(Pass);
    } else {
      assert Latest(log, log[|log| - 1].stage).Some?;
    }
  }

  // --- what is accepted ---

  /** An attempt is accepted exactly if the log is the case's own, a pass comes with a source and after a pass of every
      earlier stage, needs-work comes with a note that has text, and a source that is given has content. */
  lemma {:induction false} RecordAcceptedIff(log: seq<Attempt>, call: Call)
    requires call.Record?
    ensures RecordAccepted(log, call) <==>
              && (forall a | a in log :: a.caseId == call.caseId)
              && (call.outcome == Pass ==>
                   && call.source.Some?
                   && forall i | 0 <= i < Rank(call.stage) :: Latest(Tries(log), STAGES[i]) == Some(Pass))
              && (call.outcome == NeedsWork ==> call.note.Some? && !Blank(call.note.value))
              && (call.source.Some? ==> call.source.value.content.Some? && call.source.value.content.value != [])
  {
    PassAcceptedIff(Tries(log), call.caseId, call.stage);
    if call.note.Some? { StripIsTrimmed(call.note.value); }
    hide GateOpen, Latest, Strip, Blank, Tries;
    if forall i | 0 <= i < |log| :: log[i].caseId == call.caseId {
      forall a | a in log ensures a.caseId == call.caseId {
        var i :| 0 <= i < |log| && log[i] == a;
      }
    }
  }

  /** The evidence receipts of a new case: the i-th has the i-th id, and path, hash and size of the i-th source. */
  lemma {:induction false} EvidenceIsOfSources(
      hash: Hash, sources: seq<CaseArchive.Source>, ids: seq<ReceiptId>, k: nat)
    requires k <= |sources| == |ids| && forall i | 0 <= i < |sources| :: Readable(sources[i])
    ensures var receipts := ArchiveAll(hash, sources, ids, k).receipts;
            forall i | 0 <= i < k ::
              && receipts[i].receiptId == ids[i] && receipts[i].sourcePath == sources[i].path
              && receipts[i].sha == hash(sources[i].content.value)
              && receipts[i].size == |sources[i].content.value|
    decreases k
  {
    hide FirstFree;
    if k > 0 {
      EvidenceIsOfSources(hash, sources, ids, k - 1);
      var before, after := ArchiveAll(hash, sources, ids, k - 1), ArchiveAll(hash, sources, ids, k);
      assert forall i | 0 <= i < k - 1 :: after.receipts[i] == before.receipts[i];
    }
  }
}
