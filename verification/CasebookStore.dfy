/** The Casebook store: the files of each published case, changed step by step. */
module CasebookStore {
  import opened AttemptLog
  import opened CaseArchive
  import opened CaseIntegrity
  import opened CaseStore
  import opened Collections
  import opened Mastery
  import opened Text
  import opened Utf8

  class CasebookStore {
    const t: Tools
    var cases: Cases

    constructor (tools: Tools)
      ensures t == tools && cases == map[]
    {
      t, cases := tools, map[];
    }

    /** `create_case`: the case directory is filled apart and renamed into place. */
    method CreateCase(call: Call) returns (created: bool)
      requires call.Create?
      modifies this
      ensures cases == Apply(t, old(cases), call)
      ensures created <==> CreateAccepted(old(cases), call)
      ensures created ==>
                && call.caseId !in old(cases) && call.sources != [] && |call.sources| == |call.ids|
                && cases == old(cases)[call.caseId := cases[call.caseId]]
                && cases[call.caseId].facts == call.facts && cases[call.caseId].log == []
                && |cases[call.caseId].evidence| == |call.sources| && cases[call.caseId].receiptDir == map[]
    {
      hide ArchiveAll, HasText;
      if !ValidCaseId(call.caseId) || call.caseId in cases { return false; }
      if !(forall i | 0 <= i < |call.sources| :: Readable(call.sources[i])) { return false; }
      if call.sources == [] || |call.sources| != |call.ids| { return false; }
      var archived := ArchiveSources(t.hash, call.sources, call.ids);
      if !(forall i | 0 <= i < |call.sources| :: HasText(call.sources[i].path)) { return false; }
      if !Distinct(call.ids) || call.otherFailure { return false; }
      cases := cases[call.caseId := CaseFiles(call.facts, archived.receipts, [], archived.dir, map[])];
      return true;
    }

    /** `record_attempt`: archive the receipt, append, and on failure remove a receipt that was new. */
    method RecordAttempt(call: Call) returns (committed: Option<Attempt>)
      requires call.Record?
      modifies this
      ensures cases == Apply(t, old(cases), call)
      ensures committed == Committing(t, old(cases), call)
    {
      hide Replay, RecordAccepted, AttemptLog.Record, Progress, FirstFree, ValidCaseId, ReceiptBuilt;
      if !ValidCaseId(call.caseId) || call.caseId !in cases { return None; }
      var f := cases[call.caseId];
      var log := ReadAttempts(t.codec, f.log);
      if log.None? { return None; }
      var accepted := Accepts(log.value, call);
      if !accepted { return None; }
      SourceReadable(log.value, call);
      var attempt := NewAttempt(t, f, call);
      var placed := Placed(Plain(t.hash([])), false);
      var dir := f.receiptDir;
      if call.source.Some? {
        placed := PlaceFile(t.hash, dir, call.source.value.content.value);
        dir := WithFile(dir, placed, call.source.value.content.value);
      }
      if !ReceiptBuilt(attempt) {
        cases := cases[call.caseId := f.(receiptDir := dir)];
        return None;
      }
      var file := new LogFile(f.log);
      var ok := false;
      if !call.otherFailure { ok := file.Append(AttemptLog.Record(t.codec, attempt), call.disk); }
      if !ok && placed.isNew && !call.unlinkFails {
        dir := dir - {placed.name};
        assert dir == f.receiptDir;
      }
      cases := cases[call.caseId := f.(log := file.content, receiptDir := dir)];
      committed := if ok then Some(attempt) else None;
    }

    /** The checks that `record_attempt` makes first, in its order. */
    method Accepts(log: seq<Attempt>, call: Call) returns (ok: bool)
      requires call.Record?
      ensures ok <==> RecordAccepted(log, call)
    {
      hide Latest;
      var results := StageResults(call.caseId, Tries(log));
      if results.None? {
        assert exists i :: 0 <= i < |log| && Tries(log)[i].caseId != call.caseId;
        return false;
      }
      assert forall i | 0 <= i < |log| :: Tries(log)[i].caseId == call.caseId;
      if call.outcome == Pass {
        if call.source.None? { return false; }
        var missing := MissingPrerequisites(results.value, call.stage);
        if missing != [] {
          assert missing[0] in missing;
          return false;
        }
      } else if call.note.None? || Strip(call.note.value) == "" {
        return false;
      }
      return call.source.None? || Readable(call.source.value);
    }

    /** `_archive_file_reusing_identical`. */
    method PlaceFile(hash: Hash, dir: Directory, content: bytes) returns (p: Placed)
      ensures p == Place(hash, dir, content)
    {
      var digest := hash(content);
      if Plain(digest) in dir {
        var existing := dir[Plain(digest)];
        if hash(existing) == digest && |existing| == |content| { return Placed(Plain(digest), false); }
      }
      var name := AvailableName(dir, digest);
      return Placed(name, true);
    }

    /** `verify_integrity`; None when the case or its log cannot be read. */
    method VerifyIntegrity(id: string) returns (report: Option<Report>)
      ensures report.Some? <==> id in cases && Replay(t.codec, cases[id].log).Some?
      ensures report.Some? ==>
                var f, log := cases[id], Replay(t.codec, cases[id].log).value;
                && report.value == ReportOf(t.hash, f, log)
                && (report.value.failures == [] <==>
                     && (forall r | r in f.evidence :: Matches(t.hash, f.evidenceDir, r))
                     && (forall a | a in log && a.receipt.Some? :: Matches(t.hash, f.receiptDir, a.receipt.value)))
    {
      hide Replay, FailuresOf, Matches;
      if id !in cases { return None; }
      var f := cases[id];
      var log := ReadAttempts(t.codec, f.log);
      if log.None? { return None; }
      var practice := PracticeReceipts(log.value, |log.value|);
      var evidenceFailures := Failures(t.hash, f.evidenceDir, EvidenceScope, f.evidence);
      var practiceFailures := Failures(t.hash, f.receiptDir, PracticeScope, practice);
      ReportIsClean(t.hash, f, log.value);
      return Some(Report(|f.evidence|, |practice|, evidenceFailures + practiceFailures));
    }
  }

  lemma {:induction false} SourceReadable(log: seq<Attempt>, call: Call)
    requires call.Record? && RecordAccepted(log, call)
    ensures call.source.Some? ==> Readable(call.source.value)
  {
  }
}
