/** What the Casebook promises over whole histories of successful and failed calls. */
module CaseHistory {
  import opened AttemptLog
  import opened CaseArchive
  import opened CaseStore
  import opened Collections
  import opened JsonLines
  import opened Mastery
  import opened Slices
  import opened Text

  // --- the invariant of one case ---

  predicate ReceiptOk(t: Tools, f: CaseFiles, a: Attempt) {
    a.receipt.Some? ==> Verifies(t.hash, f.receiptDir, a.receipt.value)
  }

  /** Every receipt of the case and of its attempts verifies. */
  predicate Intact(t: Tools, f: CaseFiles, log: seq<Attempt>) {
    && (forall i | 0 <= i < |f.evidence| :: Verifies(t.hash, f.evidenceDir, f.evidence[i]))
    && (forall i | 0 <= i < |log| :: ReceiptOk(t, f, log[i]))
  }

  /** The attempts are the case's own, and passed their validators. */
  predicate OwnAttempts(id: string, log: seq<Attempt>) {
    forall i | 0 <= i < |log| :: log[i].caseId == id && ValidAttempt(log[i])
  }

  /** The log file is exactly these attempts, which are valid, the case's own and passed the gate. */
  predicate CaseOk(t: Tools, id: string, f: CaseFiles, log: seq<Attempt>) {
    && f.log == LogBytes(t.codec, log)
    && OwnAttempts(id, log)
    && Gated(Tries(log))
    && f.evidence != [] && Intact(t, f, log)
  }

  predicate AllPlain(log: seq<Attempt>) {
    forall i | 0 <= i < |log| :: PlainTexts(log[i])
  }

  /** What `record_attempt` builds from an accepted call passes every validator exactly if the receipt's path has
      text. */
  lemma {:induction false} BuiltAttemptIsValid(t: Tools, f: CaseFiles, log: seq<Attempt>, call: Call)
    requires call.Record? && ValidCaseId(call.caseId) && RecordAccepted(log, call)
    ensures ValidAttempt(NewAttempt(t, f, call)) <==> (call.source.Some? ==> HasText(call.source.value.path))
    ensures ReceiptBuilt(NewAttempt(t, f, call)) <==> (call.source.Some? ==> HasText(call.source.value.path))
  {
    hide ValidCaseId, GateOpen, Strip, Blank, Place, HasText;
    if call.note.Some? && Strip(call.note.value) != "" { NonBlankStrip(call.note.value); }
  }

  lemma {:induction false} NewCaseOk(t: Tools, cases: Cases, call: Call)
    requires call.Create? && CreateAccepted(cases, call)
    ensures CaseOk(t, call.caseId, NewCase(t, call), [])
  {
    ArchiveAllIsSound(t.hash, call.sources, call.ids, |call.sources|);
    hide ArchiveAll, Verifies;
  }

  lemma {:induction false} GatedSnoc(log: seq<Attempt>, a: Attempt)
    requires Gated(Tries(log)) && GateOpen(Tries(log), Try(a.caseId, a.stage, a.outcome))
    ensures Gated(Tries(log + [a]))
  {
    hide GateOpen;
    var s := Tries(log + [a]);
    assert s[..|log|] == Tries(log);
    forall k | 0 <= k < |s| ensures GateOpen(s[..k], s[k]) {
      if k < |log| {
        assert s[..k] == Tries(log)[..k];
        assert GateOpen(Tries(log)[..k], Tries(log)[k]);
      }
    }
  }

  /** A case's log can be read exactly if no note and no receipt path in it contains a line separator. */
  lemma {:induction false} ReplayOfLog(t: Tools, id: string, log: seq<Attempt>)
    requires GoodTools(t) && OwnAttempts(id, log)
    ensures Replay(t.codec, LogBytes(t.codec, log)) == if AllPlain(log) then Some(log) else None
  {
    OwnIsGood(t, id, log);
    hide GoodTools, OwnAttempts, AllGood, AllLineSafe, AllPlain, Replay, LogBytes;
    ReplayIsCommitted(t.codec, log);
  }

  lemma {:induction false} OwnIsGood(t: Tools, id: string, log: seq<Attempt>)
    requires GoodTools(t) && OwnAttempts(id, log)
    ensures AllGood(t.codec, log) && (AllLineSafe(t.codec, log) <==> AllPlain(log))
  {
    forall i | 0 <= i < |log|
      ensures GoodRecord(t.codec, log[i]) && (LineSafe(t.codec.render(log[i])) <==> PlainTexts(log[i]))
    {
      hide GoodRecord, LineSafe, PlainTexts, HasSeparator;
      assert ValidAttempt(log[i]);
      SafeIffNoSeparator(t.codec, log[i]);
    }
    hide GoodTools, OwnAttempts, GoodRecord, LineSafe, PlainTexts;
  }

  lemma {:induction false} LogSnoc(c: Codec<Attempt>, log: seq<Attempt>, a: Attempt)
    ensures LogBytes(c, log + [a]) == LogBytes(c, log) + AttemptLog.Record(c, a)
  {
    assert (log + [a])[..|log|] == log;
  }

  /** Receipts survive whatever happens to a new receipt file, and a committed receipt verifies. */
  lemma {:induction false} ReceiptsSurvive(t: Tools, f: CaseFiles, call: Call, log: seq<Attempt>, a: Attempt)
    requires call.Record? && (call.source.Some? ==> Readable(call.source.value)) && a == NewAttempt(t, f, call)
    requires Intact(t, f, log)
    ensures var g := AfterAppend(t, f, call, a);
            Intact(t, g, log) && (g.receiptDir == WithReceipt(t, f, call) ==> Intact(t, g, log + [a]))
  {
    hide FirstFree, Place, WithFile, Verifies, Appended, Commits, AttemptLog.Record;
    var g := AfterAppend(t, f, call, a);
    if call.source.Some? {
      var content := call.source.value.content.value;
      PlacingKeepsReceipts(t.hash, f.receiptDir, content,
        FileReceipt(call.receiptId, call.source.value.path, Place(t.hash, f.receiptDir, content).name,
          t.hash(content), |content|));
      forall i | 0 <= i < |log| ensures ReceiptOk(t, g, log[i]) {
        assert ReceiptOk(t, f, log[i]);
        if log[i].receipt.Some? { PlacingKeepsReceipts(t.hash, f.receiptDir, content, log[i].receipt.value); }
      }
    } else {
      forall i | 0 <= i < |log| ensures ReceiptOk(t, g, log[i]) { assert ReceiptOk(t, f, log[i]); }
    }
  }

  /** The append left no part of a record, and no whole record without its receipt file. */
  predicate Undamaged(t: Tools, f: CaseFiles, call: Call, a: Attempt)
    requires call.Record?
  {
    var encoded := AttemptLog.Record(t.codec, a);
    || call.otherFailure || !RollbackFails(encoded, call.disk)
    || (LeavesRecord(encoded, call.disk) && (!NewFile(t, f, call) || call.unlinkFails))
  }

  lemma {:induction false} UndamagedIffNot(t: Tools, cases: Cases, call: Call)
    requires Appending(t, cases, call).Some?
    ensures call.Record? && call.caseId in cases
    ensures Undamaged(t, cases[call.caseId], call, Appending(t, cases, call).value) <==> !Damages(t, cases, call)
  {
    AttemptReadable(t, cases, call);
    hide Replay, RecordAccepted, NewAttempt, ReceiptBuilt, ValidCaseId, Progress, AttemptLog.Record, NewFile;
  }

  /** What such an append leaves behind. */
  lemma {:induction false} AppendLeaves(t: Tools, f: CaseFiles, call: Call, a: Attempt)
    requires call.Record? && (call.source.Some? ==> Readable(call.source.value)) && Undamaged(t, f, call, a)
    ensures var g := AfterAppend(t, f, call, a);
            && g.evidence == f.evidence && g.evidenceDir == f.evidenceDir
            && if !call.otherFailure && LeavesRecord(AttemptLog.Record(t.codec, a), call.disk)
               then g.log == f.log + AttemptLog.Record(t.codec, a) && g.receiptDir == WithReceipt(t, f, call)
               else g.log == f.log
  {
    AppendCases(f.log, AttemptLog.Record(t.codec, a), call.disk);
    hide Progress, AttemptLog.Record, Appended, Place;
  }

  /** What the checks establish before an attempt is appended. */
  lemma {:induction false} AppendingIsChecked(t: Tools, cases: Cases, call: Call, log: seq<Attempt>)
    requires Appending(t, cases, call).Some? && Replay(t.codec, cases[call.caseId].log) == Some(log)
    ensures call.Record? && call.caseId in cases && (call.source.Some? ==> Readable(call.source.value))
    ensures var a := Appending(t, cases, call).value;
            && a == NewAttempt(t, cases[call.caseId], call) && a.caseId == call.caseId && ValidAttempt(a)
            && GateOpen(Tries(log), Try(a.caseId, a.stage, a.outcome))
  {
    AttemptReadable(t, cases, call);
    assert RecordAccepted(log, call);
    hide Replay, ValidCaseId, ValidAttempt, Note, ReceiptBuilt, Latest;
    BuiltAttemptIsValid(t, cases[call.caseId], log, call);
    AttemptFields(t, cases[call.caseId], call);
    hide NewAttempt;
  }

  /** One call that reached the log and did no damage. */
  lemma {:induction false} AppendKeepsCase(t: Tools, cases: Cases, call: Call, log: seq<Attempt>)
    requires GoodTools(t) && call.Record? && call.caseId in cases
    requires CaseOk(t, call.caseId, cases[call.caseId], log)
    requires Appending(t, cases, call).Some? && !Damages(t, cases, call)
    ensures var a := Logging(t, cases, call);
            && AllPlain(log)
            && CaseOk(t, call.caseId, AfterAppend(t, cases[call.caseId], call, Appending(t, cases, call).value),
                      log + (if a.Some? then [a.value] else []))
  {
    var f, a := cases[call.caseId], Appending(t, cases, call).value;
    ReplayOfLog(t, call.caseId, log);
    assert Replay(t.codec, f.log).Some?;
    hide Appending, Replay, GoodTools, AllPlain, Damages;
    UndamagedIffNot(t, cases, call);
    AppendingIsChecked(t, cases, call, log);
    hide CaseOk, AttemptLog.Record, AfterAppend, LeavesRecord, RollbackFails, GateOpen, ValidAttempt, NewAttempt,
         Undamaged;
    AppendedIsOk(t, f, call, log, a);
    ConcatEmpty(log);
  }

  lemma {:induction false} AppendedIsOk(t: Tools, f: CaseFiles, call: Call, log: seq<Attempt>, a: Attempt)
    requires call.Record? && (call.source.Some? ==> Readable(call.source.value)) && a == NewAttempt(t, f, call)
    requires CaseOk(t, call.caseId, f, log) && a.caseId == call.caseId && ValidAttempt(a)
    requires GateOpen(Tries(log), Try(a.caseId, a.stage, a.outcome)) && Undamaged(t, f, call, a)
    ensures CaseOk(t, call.caseId, AfterAppend(t, f, call, a),
                   if !call.otherFailure
                     && LeavesRecord(AttemptLog.Record(t.codec, a), call.disk) then log + [a] else log)
  {
    hide NewAttempt, Gated, LogBytes, AttemptLog.Record, Intact, AfterAppend, LeavesRecord, Undamaged, GateOpen,
         ValidAttempt;
    ReceiptsSurvive(t, f, call, log, a);
    AppendLeaves(t, f, call, a);
    LogSnoc(t.codec, log, a);
    GatedSnoc(log, a);
    assert OwnAttempts(call.caseId, log + [a]);
    hide OwnAttempts;
  }

  /** A file left behind by a malformed receipt disturbs no receipt. */
  lemma {:induction false} MalformedKeepsCase(t: Tools, f: CaseFiles, call: Call, id: string, log: seq<Attempt>)
    requires call.Record? && (call.source.Some? ==> Readable(call.source.value)) && CaseOk(t, id, f, log)
    ensures CaseOk(t, id, f.(receiptDir := WithReceipt(t, f, call)), log)
  {
    var g := f.(receiptDir := WithReceipt(t, f, call));
    forall i | 0 <= i < |log| ensures ReceiptOk(t, g, log[i]) {
      hide FirstFree, Place, WithFile, Verifies;
      assert ReceiptOk(t, f, log[i]);
      if call.source.Some? && log[i].receipt.Some? {
        PlacingKeepsReceipts(t.hash, f.receiptDir, call.source.value.content.value, log[i].receipt.value);
      }
    }
    hide WithReceipt, ReceiptOk, Verifies, LogBytes, Gated, OwnAttempts;
  }

  lemma {:induction false} AttemptFields(t: Tools, f: CaseFiles, call: Call)
    requires call.Record? && (call.source.Some? ==> Readable(call.source.value))
    ensures var a := NewAttempt(t, f, call);
            a.caseId == call.caseId && a.stage == call.stage && a.outcome == call.outcome
  {
  }

  // --- over histories ---

  /** After any successful and failed calls, whatever happened to other cases: if none damaged this case, its log holds
      exactly the attempts that the calls left in it, they obey the gate, and every receipt verifies. */
  lemma {:induction false} StoreIsSound(t: Tools, calls: seq<Call>, id: string)
    requires GoodTools(t) && NeverDamagedAt(t, calls, id)
    ensures id in Run(t, calls) ==> CaseOk(t, id, Run(t, calls)[id], Logged(t, calls, id))
    ensures id !in Run(t, calls) ==> Logged(t, calls, id) == []
    decreases |calls|
  {
    hide GoodTools, CaseOk, Apply, Damages, Logging;
    if calls != [] {
      var front, last := calls[..|calls| - 1], calls[|calls| - 1];
      StoreIsSound(t, front, id);
      StepIsSound(t, Run(t, front), last, id, Logged(t, front, id));
    }
  }

  lemma {:induction false} CreateIsSound(t: Tools, cases: Cases, call: Call, id: string, log: seq<Attempt>)
    requires call.Create?
    requires id in cases ==> CaseOk(t, id, cases[id], log)
    requires id !in cases ==> log == []
    ensures Logging(t, cases, call).None?
    ensures var cases' := Apply(t, cases, call);
            (id in cases' ==> CaseOk(t, id, cases'[id], log)) && (id !in cases' ==> log == [])
  {
    if CreateAccepted(cases, call) && call.caseId == id {
      NewCaseOk(t, cases, call);
    }
    hide CaseOk, NewCase, ValidCaseId, Readable, Distinct;
  }

  lemma {:induction false} RecordIsSound(t: Tools, cases: Cases, call: Call, log: seq<Attempt>)
    requires GoodTools(t) && call.Record? && !Damages(t, cases, call)
    requires call.caseId in cases && CaseOk(t, call.caseId, cases[call.caseId], log)
    ensures var a := Logging(t, cases, call);
            var cases' := Apply(t, cases, call);
            && call.caseId in cases'
            && CaseOk(t, call.caseId, cases'[call.caseId], log + (if a.Some? then [a.value] else []))
  {
    ConcatEmpty(log);
    hide CaseOk, AfterAppend, GoodTools, Replay, Damages, RecordAccepted, NewAttempt, ReceiptBuilt, WithReceipt,
         ValidCaseId;
    if Appending(t, cases, call).Some? {
      AppendKeepsCase(t, cases, call, log);
    } else if Attempting(t, cases, call).Some? {
      AttemptReadable(t, cases, call);
      MalformedKeepsCase(t, cases[call.caseId], call, call.caseId, log);
    }
  }

  lemma {:induction false} AttemptReadable(t: Tools, cases: Cases, call: Call)
    requires Attempting(t, cases, call).Some?
    ensures call.source.Some? ==> Readable(call.source.value)
  {
    hide Replay, NewAttempt, ValidCaseId, GateOpen;
  }

  /** Recording leaves the other cases alone, and an unknown case unknown. */
  lemma {:induction false} RecordTouchesOneCase(t: Tools, cases: Cases, call: Call, id: string)
    requires call.Record? && (call.caseId != id || id !in cases)
    ensures id in Apply(t, cases, call) <==> id in cases
    ensures id in cases ==> Apply(t, cases, call)[id] == cases[id]
    ensures call.caseId == id ==> Logging(t, cases, call).None? && !Damages(t, cases, call)
  {
    hide AfterAttempt, Replay, RecordAccepted, NewAttempt, ValidCaseId, LeavesRecord, LeavesPart, RollbackFails;
  }

  lemma {:induction false} StepIsSound(t: Tools, cases: Cases, call: Call, id: string, log: seq<Attempt>)
    requires GoodTools(t) && !(call.caseId == id && Damages(t, cases, call))
    requires id in cases ==> CaseOk(t, id, cases[id], log)
    requires id !in cases ==> log == []
    ensures var a := Logging(t, cases, call);
            var log' := log + (if a.Some? && call.caseId == id then [a.value] else []);
            var cases' := Apply(t, cases, call);
            (id in cases' ==> CaseOk(t, id, cases'[id], log')) && (id !in cases' ==> log' == [])
  {
    hide Apply, CaseOk, Logging, Damages, GoodTools;
    ConcatEmpty(log);
    if call.Create? {
      CreateIsSound(t, cases, call, id, log);
    } else if call.caseId == id && id in cases {
      RecordIsSound(t, cases, call, log);
    } else {
      RecordTouchesOneCase(t, cases, call, id);
    }
  }

  // --- exactly when a log is what was committed to it ---

  /** A call adds to the case's log exactly the attempt it commits, unless its rollback fails: then it adds more
      bytes. */
  lemma {:induction false} StepLog(t: Tools, cases: Cases, call: Call, id: string)
    requires id in cases
    ensures var a := Committing(t, cases, call);
            && id in Apply(t, cases, call)
            && var log, log' := cases[id].log, Apply(t, cases, call)[id].log;
            if call.caseId == id && Tears(t, cases, call) then a.None? && |log'| > |log|
            else log' == log + (if a.Some? && call.caseId == id then AttemptLog.Record(t.codec, a.value) else [])
  {
    ConcatEmpty(cases[id].log);
    hide Replay, RecordAccepted, NewAttempt, ValidCaseId, WithReceipt, AttemptLog.Record, Progress, NewCase,
         ReceiptBuilt;
  }

  lemma {:induction false} StepCreates(t: Tools, cases: Cases, call: Call, id: string)
    requires id !in cases
    ensures call.caseId == id ==> Committing(t, cases, call).None? && !Tears(t, cases, call)
    ensures id in Apply(t, cases, call) ==> Apply(t, cases, call)[id].log == []
  {
    hide Replay, RecordAccepted, NewAttempt, ValidCaseId, AfterAttempt, Commits, RollbackFails, ArchiveAll;
  }

  /** The length of a log never falls short of its committed attempts; it is longer once a rollback on the case
      failed. */
  lemma {:induction false} LogHoldsCommitted(t: Tools, calls: seq<Call>, id: string)
    ensures id !in Run(t, calls) ==> NeverTornAt(t, calls, id) && Committed(t, calls, id) == []
    ensures id in Run(t, calls) ==>
              var log, committed := Run(t, calls)[id].log, LogBytes(t.codec, Committed(t, calls, id));
              && |log| >= |committed|
              && (if NeverTornAt(t, calls, id) then log == committed else |log| > |committed|)
    decreases |calls|
  {
    if calls != [] {
      var front, last := calls[..|calls| - 1], calls[|calls| - 1];
      LogHoldsCommitted(t, front, id);
      hide Apply, Committing, Tears, LogBytes, AttemptLog.Record;
      var cases, before := Run(t, front), Committed(t, front, id);
      ConcatEmpty(before);
      if id in cases {
        StepLog(t, cases, last, id);
        ConcatEmpty(cases[id].log);
        if Committing(t, cases, last).Some? { LogSnoc(t.codec, before, Committing(t, cases, last).value); }
      } else {
        StepCreates(t, cases, last, id);
        NoBytes(t.codec);
      }
    }
  }

  lemma {:induction false} NoBytes(c: Codec<Attempt>)
    ensures LogBytes(c, []) == []
  {
  }

  /** For every history and every codec: a case's log is exactly the records committed to it if and only if no call on
      this case failed to roll its append back. */
  lemma {:induction false} LogIsCommittedIffNeverTorn(t: Tools, calls: seq<Call>, id: string)
    requires id in Run(t, calls)
    ensures Run(t, calls)[id].log == LogBytes(t.codec, Committed(t, calls, id)) <==> NeverTornAt(t, calls, id)
  {
    LogHoldsCommitted(t, calls, id);
  }

  // --- reading back ---

  /** The attempts read back are exactly the logged ones, unless a note or a receipt path among them contains one
      of the three line separators: then the log cannot be read at all. */
  lemma {:induction false} AttemptsReadBack(t: Tools, calls: seq<Call>, id: string)
    requires GoodTools(t) && NeverDamagedAt(t, calls, id) && id in Run(t, calls)
    ensures var log := Logged(t, calls, id);
            Replay(t.codec, Run(t, calls)[id].log) == if AllPlain(log) then Some(log) else None
  {
    StoreIsSound(t, calls, id);
    hide GoodTools, Replay, AllPlain, Run, Logged, NeverDamagedAt;
    ReplayOfLog(t, id, Logged(t, calls, id));
  }

  /** One such attempt closes the case for good: no later calls change it or commit anything to it. */
  lemma {:induction false} UnreadableCaseIsFrozen(t: Tools, calls: seq<Call>, later: seq<Call>, id: string)
    requires GoodTools(t) && NeverDamagedAt(t, calls, id) && id in Run(t, calls)
    requires !AllPlain(Logged(t, calls, id))
    ensures id in Run(t, calls + later) && Run(t, calls + later)[id] == Run(t, calls)[id]
    ensures Committed(t, calls + later, id) == Committed(t, calls, id)
    decreases |later|
  {
    hide GoodTools, AllPlain, NeverDamagedAt, Logged, Apply, Replay, Committing;
    if later == [] {
      ConcatEmpty(calls);
    } else {
      var front := later[..|later| - 1];
      UnreadableCaseIsFrozen(t, calls, front, id);
      AttemptsReadBack(t, calls, id);
      assert (calls + later)[..|calls + later| - 1] == calls + front;
      UnreadableStays(t, Run(t, calls + front), later[|later| - 1], id);
      ConcatEmpty(Committed(t, calls, id));
    }
  }

  lemma {:induction false} UnreadableStays(t: Tools, cases: Cases, later: Call, id: string)
    requires id in cases && Replay(t.codec, cases[id].log).None?
    ensures id in Apply(t, cases, later) && Apply(t, cases, later)[id] == cases[id]
    ensures later.caseId == id ==> Committing(t, cases, later).None?
  {
    hide Replay, NewCase, AfterAttempt, RecordAccepted, NewAttempt, ValidCaseId;
  }

  /** The caller's side of it: after a commit to a readable case, the case stays readable exactly if neither the
      stripped note nor the receipt's source path contains a line separator. */
  lemma {:induction false} CommitStaysReadable(t: Tools, calls: seq<Call>, call: Call)
    requires GoodTools(t) && call.Record? && call.caseId in Run(t, calls) && NeverDamagedAt(t, calls, call.caseId)
    requires Committing(t, Run(t, calls), call).Some?
    ensures call.caseId in Apply(t, Run(t, calls), call)
    ensures Replay(t.codec, Apply(t, Run(t, calls), call)[call.caseId].log).Some? <==>
              && (Note(call).Some? ==> !HasSeparator(Note(call).value))
              && (call.source.Some? ==> !HasSeparator(call.source.value.path))
  {
    StoreIsSound(t, calls, call.caseId);
    hide *;
    CommitReadable(t, Run(t, calls), call, Logged(t, calls, call.caseId));
  }

  lemma {:induction false} CommitReadable(t: Tools, cases: Cases, call: Call, log: seq<Attempt>)
    requires GoodTools(t) && call.Record? && Committing(t, cases, call).Some?
    requires call.caseId in cases && CaseOk(t, call.caseId, cases[call.caseId], log)
    ensures call.caseId in Apply(t, cases, call)
    ensures Replay(t.codec, Apply(t, cases, call)[call.caseId].log).Some? <==>
              && (Note(call).Some? ==> !HasSeparator(Note(call).value))
              && (call.source.Some? ==> !HasSeparator(call.source.value.path))
  {
    var a := Committing(t, cases, call).value;
    hide Committing, GoodTools, Note, Apply, Appending, Logging, Damages, Replay, LogBytes, PlainTexts, HasSeparator,
         Gated,
         Intact, OwnAttempts, AfterAppend, RecordAccepted;
    CommittedTexts(t, cases, call);
    CommittingIsAppending(t, cases, call);
    RecordIsSound(t, cases, call, log);
    AppendKeepsCase(t, cases, call, log);
    ReplayOfLog(t, call.caseId, log + [a]);
    PlainSnoc(log, a);
  }

  lemma {:induction false} PlainSnoc(log: seq<Attempt>, a: Attempt)
    ensures AllPlain(log + [a]) <==> AllPlain(log) && PlainTexts(a)
  {
    hide PlainTexts;
    assert (log + [a])[|log|] == a;
    assert forall i | 0 <= i < |log| :: (log + [a])[i] == log[i];
  }

  lemma {:induction false} CommittingIsAppending(t: Tools, cases: Cases, call: Call)
    requires Committing(t, cases, call).Some?
    ensures Appending(t, cases, call) == Logging(t, cases, call) == Committing(t, cases, call)
    ensures !Damages(t, cases, call)
  {
    hide Appending;
  }

  lemma {:induction false} CommittedTexts(t: Tools, cases: Cases, call: Call)
    requires call.Record? && Committing(t, cases, call).Some?
    ensures PlainTexts(Committing(t, cases, call).value) <==>
              && (Note(call).Some? ==> !HasSeparator(Note(call).value))
              && (call.source.Some? ==> !HasSeparator(call.source.value.path))
  {
    hide Replay, RecordAccepted, ValidCaseId, Commits, Place, HasSeparator;
  }

  /** The input: a needs-work note with U+2028 between two letters, no receipt, and a disk that takes the record. On any
      readable case the call commits, and from then on the case cannot be read. */
  lemma {:induction false} SeparatorNoteClosesCase(t: Tools, calls: seq<Call>, call: Call)
    requires GoodTools(t) && call.Record? && call.caseId in Run(t, calls) && NeverDamagedAt(t, calls, call.caseId)
    requires ValidCaseId(call.caseId) && AllPlain(Logged(t, calls, call.caseId))
    requires call.outcome == NeedsWork && call.note == Some("a\U{2028}b") && call.source.None? && !call.otherFailure
    requires Commits(AttemptLog.Record(t.codec, NewAttempt(t, Run(t, calls)[call.caseId], call)), call.disk)
    ensures Committing(t, Run(t, calls), call).Some? && call.caseId in Apply(t, Run(t, calls), call)
    ensures Replay(t.codec, Apply(t, Run(t, calls), call)[call.caseId].log).None?
  {
    StoreIsSound(t, calls, call.caseId);
    AttemptsReadBack(t, calls, call.caseId);
    SeparatorNote(call);
    NeedsWorkIsAccepted(call, Logged(t, calls, call.caseId));
    NeedsWorkCommits(t, Run(t, calls), call, Logged(t, calls, call.caseId));
    hide *;
    CommitStaysReadable(t, calls, call);
  }

  lemma {:induction false} SeparatorNote(call: Call)
    requires call.Record? && call.note == Some("a\U{2028}b")
    ensures Note(call) == Some("a\U{2028}b") && HasSeparator("a\U{2028}b")
  {
    StripKeepsTrimmed("a\U{2028}b");
    assert IsSeparator("a\U{2028}b"[1]);
  }

  lemma {:induction false} NeedsWorkIsAccepted(call: Call, log: seq<Attempt>)
    requires call.Record? && call.outcome == NeedsWork && call.source.None?
    requires Note(call).Some? && Note(call).value != ""
    requires forall i | 0 <= i < |log| :: log[i].caseId == call.caseId
    ensures RecordAccepted(log, call)
  {
    hide Strip, GateOpen;
  }

  lemma {:induction false} NeedsWorkCommits(t: Tools, cases: Cases, call: Call, log: seq<Attempt>)
    requires call.Record? && call.source.None? && !call.otherFailure && ValidCaseId(call.caseId) && call.caseId in cases
    requires Replay(t.codec, cases[call.caseId].log) == Some(log) && RecordAccepted(log, call)
    requires Commits(AttemptLog.Record(t.codec, NewAttempt(t, cases[call.caseId], call)), call.disk)
    ensures Committing(t, cases, call).Some?
  {
    hide Replay, RecordAccepted, ValidCaseId, Commits, AttemptLog.Record, Note;
  }

  // --- files are forever ---

  /** Nothing published is overwritten or removed, and the log only grows. */
  predicate Grows(f: CaseFiles, g: CaseFiles) {
    && g.facts == f.facts && g.evidence == f.evidence && g.evidenceDir == f.evidenceDir
    && Kept(f.receiptDir, g.receiptDir) && f.log <= g.log
  }

  lemma {:induction false} AfterAppendGrows(t: Tools, f: CaseFiles, call: Call, a: Attempt)
    requires call.Record? && (call.source.Some? ==> Readable(call.source.value))
    ensures Grows(f, AfterAppend(t, f, call, a))
  {
    hide Progress, FirstFree, AttemptLog.Record;
  }

  lemma {:induction false} AfterAttemptGrows(t: Tools, f: CaseFiles, call: Call, a: Attempt)
    requires call.Record? && (call.source.Some? ==> Readable(call.source.value))
    ensures Grows(f, AfterAttempt(t, f, call, a))
  {
    if ReceiptBuilt(a) {
      hide Grows, AfterAppend;
      AfterAppendGrows(t, f, call, a);
    } else {
      hide FirstFree;
    }
  }

  /** No call, successful, failed or torn, removes a case, overwrites an archived file or shortens a log. */
  lemma {:induction false} ApplyGrows(t: Tools, cases: Cases, call: Call, id: string)
    requires id in cases
    ensures id in Apply(t, cases, call) && Grows(cases[id], Apply(t, cases, call)[id])
  {
    GrowsSelf(cases[id]);
    if Attempting(t, cases, call).Some? {
      AttemptReadable(t, cases, call);
      AfterAttemptGrows(t, cases[call.caseId], call, Attempting(t, cases, call).value);
    }
    hide Grows, Attempting, NewCase, AfterAttempt, CreateAccepted;
  }

  lemma {:induction false} GrowsSelf(f: CaseFiles)
    ensures Grows(f, f)
  {
  }

  lemma {:induction false} GrowsTransitive(f: CaseFiles, g: CaseFiles, e: CaseFiles)
    requires Grows(f, g) && Grows(g, e)
    ensures Grows(f, e)
  {
  }

  lemma {:induction false} FilesAreForever(t: Tools, calls: seq<Call>, n: nat, id: string)
    requires n <= |calls| && id in Run(t, calls[..n])
    ensures id in Run(t, calls) && Grows(Run(t, calls[..n])[id], Run(t, calls)[id])
    decreases |calls|
  {
    hide Apply, Grows;
    if n == |calls| {
      TakeAll(calls);
      GrowsSelf(Run(t, calls)[id]);
    } else {
      var front := calls[..|calls| - 1];
      TakeTake(calls, n, |calls| - 1);
      FilesAreForever(t, front, n, id);
      ApplyGrows(t, Run(t, front), calls[|calls| - 1], id);
      GrowsTransitive(Run(t, calls[..n])[id], Run(t, front)[id], Run(t, calls)[id]);
    }
  }
}
