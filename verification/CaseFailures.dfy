/** What a call that raises leaves behind, and exactly when a case stays sound. */
module CaseFailures {
  import opened AttemptLog
  import opened CaseArchive
  import opened CaseHistory
  import opened CaseStore
  import opened JsonLines
  import opened Mastery
  import opened Slices
  import opened Text
  import opened Utf8

  // --- calls that raise ---

  predicate Raises(t: Tools, cases: Cases, call: Call) {
    if call.Create? then !CreateAccepted(cases, call) else Committing(t, cases, call).None?
  }

  /** The call fails to take back what it wrote: bytes of the log, or a new receipt file whose record was rejected or
      whose removal failed. */
  predicate LeavesTrace(t: Tools, cases: Cases, call: Call) {
    var a := Attempting(t, cases, call);
    && a.Some?
    && (|| Tears(t, cases, call)
        || (NewFile(t, cases[call.caseId], call) && (!ReceiptBuilt(a.value) || call.unlinkFails)))
  }

  lemma {:induction false} PlacesNewFile(t: Tools, f: CaseFiles, call: Call)
    requires call.Record? && (call.source.Some? ==> Readable(call.source.value))
    ensures WithReceipt(t, f, call) == f.receiptDir <==> !NewFile(t, f, call)
    ensures NewFile(t, f, call) ==>
              var content := call.source.value.content.value;
              var name := Place(t.hash, f.receiptDir, content).name;
              name !in f.receiptDir && WithReceipt(t, f, call) == f.receiptDir[name := content]
  {
    hide FirstFree;
  }

  /** A call that raises leaves every case exactly as it was, exactly if it leaves no trace. */
  lemma {:induction false} RaisingCallKeepsCases(t: Tools, cases: Cases, call: Call)
    requires Raises(t, cases, call)
    ensures Apply(t, cases, call) == cases <==> !LeavesTrace(t, cases, call)
  {
    if Attempting(t, cases, call).Some? {
      AttemptReadable(t, cases, call);
      var f, a := cases[call.caseId], Attempting(t, cases, call).value;
      PlacesNewFile(t, f, call);
      AppendCases(f.log, AttemptLog.Record(t.codec, a), call.disk);
      hide Replay, RecordAccepted, NewAttempt, ReceiptBuilt, ValidCaseId, Progress, AttemptLog.Record, NewFile,
           WithReceipt, Appended, CreateAccepted;
      assert Apply(t, cases, call) == cases <==> AfterAttempt(t, f, call, a) == f;
    }
  }

  /** The receipt record is rejected exactly if the path has no text. The file named " " is such a source: the call
      raises, and the archived file stays. */
  lemma {:induction false} BlankPathLeavesFile(t: Tools, cases: Cases, call: Call, log: seq<Attempt>)
    requires call.Record? && ValidCaseId(call.caseId) && call.caseId in cases
    requires Replay(t.codec, cases[call.caseId].log) == Some(log) && RecordAccepted(log, call)
    requires call.source.Some? && call.source.value.path == " " && NewFile(t, cases[call.caseId], call)
    ensures Raises(t, cases, call) && Apply(t, cases, call) != cases
    ensures var f, g := cases[call.caseId], Apply(t, cases, call)[call.caseId];
            g.log == f.log && f.receiptDir.Keys < g.receiptDir.Keys
  {
    var f := cases[call.caseId];
    BuiltAttemptIsValid(t, f, log, call);
    BlankHasNoText();
    PlacesNewFile(t, f, call);
    hide Replay, RecordAccepted, NewAttempt, ReceiptBuilt, ValidCaseId, NewFile, WithReceipt, HasText, Place;
  }

  lemma {:induction false} BlankHasNoText()
    ensures !HasText(" ")
  {
  }

  // --- torn appends ---

  /** Bytes of the record that a torn append leaves in the log. */
  function TornBytes(t: Tools, a: Attempt, call: Call): nat
    requires call.Record?
  {
    Progress(0, |AttemptLog.Record(t.codec, a)|, call.disk.writes)
  }

  lemma {:induction false} TornCall(t: Tools, cases: Cases, call: Call)
    requires Tears(t, cases, call)
    ensures Appending(t, cases, call).Some? && call.Record? && call.caseId in cases
    ensures call.source.Some? ==> Readable(call.source.value)
    ensures var f, a := cases[call.caseId], Appending(t, cases, call).value;
            var p, encoded := TornBytes(t, a, call), AttemptLog.Record(t.codec, a);
            && call.caseId in Apply(t, cases, call) && Apply(t, cases, call)[call.caseId] == AfterAppend(t, f, call, a)
            && 0 < p <= |encoded| && AfterAppend(t, f, call, a).log == f.log + encoded[..p]
            && AfterAppend(t, f, call, a).receiptDir
                == (if call.unlinkFails then WithReceipt(t, f, call) else f.receiptDir)
            && Committing(t, cases, call).None?
            && (LeavesPart(encoded, call.disk) <==> p < |encoded|)
  {
    AttemptReadable(t, cases, call);
    hide Replay, RecordAccepted, NewAttempt, ReceiptBuilt, ValidCaseId, Progress, AttemptLog.Record, WithReceipt;
  }

  /** After a torn append the log reads back with the new attempt if no more than its newline is missing; it cannot be
      read if more is, or if the attempt has a line separator. */
  lemma {:induction false} TornReadsBack(t: Tools, cases: Cases, call: Call, log: seq<Attempt>)
    requires GoodTools(t) && Tears(t, cases, call)
    requires call.caseId in cases && CaseOk(t, call.caseId, cases[call.caseId], log)
    ensures call.caseId in Apply(t, cases, call) && Appending(t, cases, call).Some? && call.Record?
    ensures var a := Appending(t, cases, call).value;
            Replay(t.codec, Apply(t, cases, call)[call.caseId].log) ==
              if TornBytes(t, a, call) >= Size(t.codec.render(a)) && PlainTexts(a) then Some(log + [a]) else None
  {
    TornCall(t, cases, call);
    var f, a := cases[call.caseId], Appending(t, cases, call).value;
    ReplayOfLog(t, call.caseId, log);
    assert Replay(t.codec, f.log).Some?;
    hide Appending, Apply, AfterAppend, Tears, Committing, Replay, LogBytes, Gated, Intact, TornBytes, AllPlain,
         LeavesPart;
    AppendingIsChecked(t, cases, call, log);
    OwnIsGood(t, call.caseId, log);
    assert GoodRecord(t.codec, a) && (HasSeparator(t.codec.render(a)) <==> !PlainTexts(a));
    hide GoodTools, OwnAttempts, ValidAttempt, PlainTexts, GoodRecord, AllGood, AllLineSafe, HasSeparator, LineSafe,
         GateOpen, NewAttempt, AttemptLog.Record;
    SafeIffNoSeparator(t.codec, a);
    ReplayCut(t.codec, log, a, TornBytes(t, a, call));
  }

  /** A torn append that left the whole record: the earlier receipts still verify, and the new one does unless its
      file was new and is removed. */
  lemma {:induction false} TornReceipts(t: Tools, cases: Cases, call: Call, log: seq<Attempt>)
    requires GoodTools(t) && Tears(t, cases, call)
    requires call.caseId in cases && CaseOk(t, call.caseId, cases[call.caseId], log)
    requires !LeavesPart(AttemptLog.Record(t.codec, Appending(t, cases, call).value), call.disk)
    ensures call.caseId in Apply(t, cases, call) && call.Record?
    ensures var a, g := Appending(t, cases, call).value, Apply(t, cases, call)[call.caseId];
            && g.log == LogBytes(t.codec, log + [a]) && Intact(t, g, log)
            && (Intact(t, g, log + [a]) <==> !NewFile(t, cases[call.caseId], call) || call.unlinkFails)
  {
    TornCall(t, cases, call);
    var f, a := cases[call.caseId], Appending(t, cases, call).value;
    var g := AfterAppend(t, f, call, a);
    ReplayOfLog(t, call.caseId, log);
    assert Replay(t.codec, f.log).Some?;
    hide Apply, Tears, Committing, Replay, LogBytes, Gated, TornBytes, AllPlain, LeavesPart, GoodTools, OwnAttempts,
         AttemptLog.Record, GateOpen, ValidAttempt;
    AppendingIsChecked(t, cases, call, log);
    hide Appending, Intact, AfterAppend, NewAttempt;
    TakeAll(AttemptLog.Record(t.codec, a));
    LogSnoc(t.codec, log, a);
    ReceiptsSurvive(t, f, call, log, a);
    PlacesNewFile(t, f, call);
    if NewFile(t, f, call) && !call.unlinkFails { RemovedFileFails(t, f, call, g, log, a); }
    hide NewFile, WithReceipt;
  }

  lemma {:induction false} RemovedFileFails(
      t: Tools, f: CaseFiles, call: Call, g: CaseFiles, log: seq<Attempt>, a: Attempt)
    requires call.Record? && NewFile(t, f, call) && a == NewAttempt(t, f, call) && g.receiptDir == f.receiptDir
    ensures !ReceiptOk(t, g, a) && !Intact(t, g, log + [a])
  {
    hide FirstFree;
    assert (log + [a])[|log|] == a;
  }

  /** If all is written and then the sync and the truncation fail, a call that raised leaves its attempt in the log of
      any sound case while its new receipt file is removed: the case can be read and does not verify. */
  lemma {:induction false} FailedRollbackLosesReceipt(t: Tools, cases: Cases, call: Call, log: seq<Attempt>, a: Attempt)
    requires GoodTools(t) && Appending(t, cases, call) == Some(a) && PlainTexts(a)
    requires call.caseId in cases && CaseOk(t, call.caseId, cases[call.caseId], log) && call.Record?
    requires call.disk == Disk([|AttemptLog.Record(t.codec, a)|], true, true) && !call.otherFailure
    requires NewFile(t, cases[call.caseId], call) && !call.unlinkFails
    ensures Raises(t, cases, call) && call.caseId in Apply(t, cases, call)
    ensures var g := Apply(t, cases, call)[call.caseId];
            Replay(t.codec, g.log) == Some(log + [a]) && !Intact(t, g, log + [a])
  {
    var encoded := AttemptLog.Record(t.codec, a);
    assert Progress(0, |encoded|, [|encoded|]) == |encoded|;
    RecordIsLine(t.codec, a);
    assert Tears(t, cases, call) && TornBytes(t, a, call) == |encoded| && !LeavesPart(encoded, call.disk);
    hide *;
    TornCall(t, cases, call);
    TornReadsBack(t, cases, call, log);
    TornReceipts(t, cases, call, log);
    RaisesIfRecord(t, cases, call);
  }

  lemma {:induction false} RaisesIfRecord(t: Tools, cases: Cases, call: Call)
    requires call.Record?
    ensures Raises(t, cases, call) <==> Committing(t, cases, call).None?
  {
    hide Committing;
  }

  // --- exactly when a case stays sound ---

  ghost predicate CaseSound(t: Tools, id: string, f: CaseFiles) {
    exists log :: CaseOk(t, id, f, log)
  }

  /** A call keeps a sound case sound exactly if it does not damage it. */
  lemma {:induction false} SoundStep(t: Tools, cases: Cases, call: Call, id: string)
    requires GoodTools(t) && id in cases && CaseSound(t, id, cases[id])
    ensures id in Apply(t, cases, call)
    ensures CaseSound(t, id, Apply(t, cases, call)[id]) <==> !(call.caseId == id && Damages(t, cases, call))
  {
    var log :| CaseOk(t, id, cases[id], log);
    hide Apply, CaseOk, Damages, GoodTools;
    ApplyGrows(t, cases, call, id);
    if call.caseId == id && Damages(t, cases, call) {
      DamagedIsUnsound(t, cases, call, log);
    } else {
      StepIsSound(t, cases, call, id, log);
    }
  }

  lemma {:induction false} DamagedIsUnsound(t: Tools, cases: Cases, call: Call, log: seq<Attempt>)
    requires GoodTools(t) && Damages(t, cases, call)
    requires call.caseId in cases && CaseOk(t, call.caseId, cases[call.caseId], log)
    ensures call.caseId in Apply(t, cases, call) && !CaseSound(t, call.caseId, Apply(t, cases, call)[call.caseId])
  {
    hide CaseSound, CaseOk, Tears, AttemptLog.Record, Appending, Apply, AfterAppend, NewFile, LeavesPart, GoodTools;
    TornCall(t, cases, call);
    var f, a := cases[call.caseId], Appending(t, cases, call).value;
    var g := Apply(t, cases, call)[call.caseId];
    TornIsGood(t, cases, call, log);
    if LeavesPart(AttemptLog.Record(t.codec, a), call.disk) {
      PartIsNoCase(t, call.caseId, f.log, g, a, TornBytes(t, a, call));
    } else {
      TornReceipts(t, cases, call, log);
      LostIsNoCase(t, call.caseId, g, log + [a]);
    }
  }

  lemma {:induction false} TornIsGood(t: Tools, cases: Cases, call: Call, log: seq<Attempt>)
    requires GoodTools(t) && Appending(t, cases, call).Some?
    requires call.caseId in cases && CaseOk(t, call.caseId, cases[call.caseId], log)
    ensures var a := Appending(t, cases, call).value;
            GoodRecord(t.codec, a) && OwnAttempts(call.caseId, log + [a])
  {
    ReplayOfLog(t, call.caseId, log);
    assert Replay(t.codec, cases[call.caseId].log).Some?;
    hide Replay, Appending, LogBytes, Gated, Intact, AllPlain, GoodTools, HasSeparator, GoodRecord;
    AppendingIsChecked(t, cases, call, log);
    hide ValidAttempt, NewAttempt, GateOpen;
    ValidIsGood(t, Appending(t, cases, call).value);
  }

  lemma {:induction false} ValidIsGood(t: Tools, a: Attempt)
    requires GoodTools(t) && ValidAttempt(a)
    ensures GoodRecord(t.codec, a)
  {
    hide GoodRecord, ValidAttempt, HasSeparator, PlainTexts;
  }

  lemma {:induction false} PartIsNoCase(t: Tools, id: string, before: bytes, g: CaseFiles, a: Attempt, p: nat)
    requires GoodRecord(t.codec, a) && 0 < p < |AttemptLog.Record(t.codec, a)|
    requires g.log == before + AttemptLog.Record(t.codec, a)[..p]
    ensures !CaseSound(t, id, g)
  {
    hide GoodRecord, AttemptLog.Record, Intact, LogBytes, OwnAttempts, Gated;
    forall log ensures !CaseOk(t, id, g, log) { CutIsNoLog(t.codec, before, a, p, log); }
  }

  lemma {:induction false} LostIsNoCase(t: Tools, id: string, g: CaseFiles, log: seq<Attempt>)
    requires GoodTools(t) && OwnAttempts(id, log) && g.log == LogBytes(t.codec, log) && !Intact(t, g, log)
    ensures !CaseSound(t, id, g)
  {
    OwnIsGood(t, id, log);
    hide GoodTools, OwnAttempts, Intact, LogBytes, Gated, AllGood, AllLineSafe, AllPlain;
    if other :| CaseOk(t, id, g, other) {
      OwnIsGood(t, id, other);
      LogBytesInjective(t.codec, log, other);
    }
  }

  ghost predicate SoundIn(t: Tools, cases: Cases, id: string) {
    id in cases ==> CaseSound(t, id, cases[id])
  }

  lemma {:induction false} SoundInStep(t: Tools, cases: Cases, call: Call, id: string)
    requires GoodTools(t) && SoundIn(t, cases, id)
    ensures SoundIn(t, Apply(t, cases, call), id) <==> !(call.caseId == id && Damages(t, cases, call))
  {
    hide CaseSound, Apply, Damages, GoodTools;
    if id in cases {
      SoundStep(t, cases, call, id);
    } else {
      NewIsSound(t, cases, call, id);
    }
  }

  lemma {:induction false} NewIsSound(t: Tools, cases: Cases, call: Call, id: string)
    requires GoodTools(t) && id !in cases
    ensures SoundIn(t, Apply(t, cases, call), id) && !(call.caseId == id && Damages(t, cases, call))
  {
    hide Apply, CaseOk, GoodTools, Damages, Logging;
    if call.Create? {
      CreateIsSound(t, cases, call, id, []);
      if id in Apply(t, cases, call) { assert CaseOk(t, id, Apply(t, cases, call)[id], []); }
      CreateDoesNoDamage(t, cases, call);
    } else {
      RecordTouchesOneCase(t, cases, call, id);
    }
  }

  lemma {:induction false} CreateDoesNoDamage(t: Tools, cases: Cases, call: Call)
    requires call.Create?
    ensures !Damages(t, cases, call)
  {
  }

  /** A case is sound at all times exactly if no call damaged it. */
  lemma {:induction false} AlwaysSoundIffNeverDamaged(t: Tools, calls: seq<Call>, id: string)
    requires GoodTools(t)
    ensures (forall k | 0 <= k <= |calls| :: SoundIn(t, Run(t, calls[..k]), id)) <==> NeverDamagedAt(t, calls, id)
    decreases |calls|
  {
    hide SoundIn, Apply, Damages, GoodTools;
    if calls == [] {
      NothingIsSound(t, id);
      assert calls[..0] == [];
    } else {
      var n := |calls| - 1;
      var front := calls[..n];
      forall k | 0 <= k <= n ensures front[..k] == calls[..k] { TakeTake(calls, k, n); }
      AlwaysSoundIffNeverDamaged(t, front, id);
      TakeAll(calls);
      TakeAll(front);
      if NeverDamagedAt(t, front, id) {
        assert SoundIn(t, Run(t, front[..n]), id);
        SoundInStep(t, Run(t, front), calls[n], id);
        assert Run(t, calls[..|calls|]) == Apply(t, Run(t, front), calls[n]);
      } else {
        var k :| 0 <= k <= n && !SoundIn(t, Run(t, front[..k]), id);
        assert !SoundIn(t, Run(t, calls[..k]), id);
      }
    }
  }

  lemma {:induction false} NothingIsSound(t: Tools, id: string)
    ensures SoundIn(t, Run(t, []), id)
  {
  }

  /** In particular a case whose rollbacks all worked was never damaged, and its log holds what was committed to it. */
  lemma {:induction false} NeverTornIsUndamaged(t: Tools, calls: seq<Call>, id: string)
    requires NeverTornAt(t, calls, id)
    ensures NeverDamagedAt(t, calls, id) && Logged(t, calls, id) == Committed(t, calls, id)
    decreases |calls|
  {
    hide Apply, Appending, AttemptLog.Record, Progress, NewFile;
    if calls != [] { NeverTornIsUndamaged(t, calls[..|calls| - 1], id); }
  }
}
