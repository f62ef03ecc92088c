/** What checking a case reports: one failure for each receipt whose file is missing or has other bytes. */
module CaseIntegrity {
  import opened AttemptLog
  import opened CaseArchive
  import opened CaseHistory
  import opened CaseStore
  import opened Text
  import opened Utf8

  datatype Scope = EvidenceScope | PracticeScope
  datatype Problem = Missing | ByteSizeMismatch | ShaMismatch
  datatype Failure = Failure(scope: Scope, receiptId: string, name: Name, problem: Problem)
  datatype Report = Report(checkedEvidence: nat, checkedPractice: nat, failures: seq<Failure>)

  // --- the report as a value ---

  /** `_verify_receipt`, for a managed path. */
  function ProblemOf(hash: Hash, dir: Directory, r: FileReceipt): Option<Problem> {
    if r.name !in dir then Some(Missing)
    else if |dir[r.name]| != r.size then Some(ByteSizeMismatch)
    else if hash(dir[r.name]) != r.sha then Some(ShaMismatch)
    else None
  }

  function FailuresOf(hash: Hash, dir: Directory, scope: Scope, receipts: seq<FileReceipt>, k: nat): seq<Failure>
    requires k <= |receipts|
    decreases k
  {
    if k == 0 then [] else
    var before, r := FailuresOf(hash, dir, scope, receipts, k - 1), receipts[k - 1];
    match ProblemOf(hash, dir, r)
    case None => before
    case Some(problem) => before + [Failure(scope, r.receiptId, r.name, problem)]
  }

  /** The receipts of the first k attempts, in order. */
  function PracticeReceipts(log: seq<Attempt>, k: nat): seq<FileReceipt>
    requires k <= |log|
    decreases k
  {
    if k == 0 then []
    else PracticeReceipts(log, k - 1) + (if log[k - 1].receipt.Some? then [log[k - 1].receipt.value] else [])
  }

  function ReportOf(hash: Hash, f: CaseFiles, log: seq<Attempt>): Report {
    var practice := PracticeReceipts(log, |log|);
    Report(|f.evidence|, |practice|,
           FailuresOf(hash, f.evidenceDir, EvidenceScope, f.evidence, |f.evidence|)
           + FailuresOf(hash, f.receiptDir, PracticeScope, practice, |practice|))
  }

  // --- what it says, receipt by receipt ---

  lemma {:induction false} FailureOrigin(
      hash: Hash, dir: Directory, scope: Scope, receipts: seq<FileReceipt>, k: nat, e: Failure)
    requires k <= |receipts|
    ensures e in FailuresOf(hash, dir, scope, receipts, k) <==>
              exists i :: 0 <= i < k && IsFailureOf(hash, dir, scope, receipts[i], e)
    decreases k
  {
    if k > 0 {
      FailureOrigin(hash, dir, scope, receipts, k - 1, e);
      assert IsFailureOf(hash, dir, scope, receipts[k - 1], e) <==>
               ProblemOf(hash, dir, receipts[k - 1]).Some?
                 && e == Failure(scope, receipts[k - 1].receiptId, receipts[k - 1].name,
                                 ProblemOf(hash, dir, receipts[k - 1]).value);
      hide ProblemOf, IsFailureOf;
    }
  }

  /** The failure says of this receipt that its file is missing, or has another size, or else another hash. */
  predicate IsFailureOf(hash: Hash, dir: Directory, scope: Scope, r: FileReceipt, e: Failure) {
    && e.scope == scope && e.receiptId == r.receiptId && e.name == r.name
    && match e.problem
       case Missing => r.name !in dir
       case ByteSizeMismatch => r.name in dir && |dir[r.name]| != r.size
       case ShaMismatch => r.name in dir && |dir[r.name]| == r.size && hash(dir[r.name]) != r.sha
  }

  /** The file of the receipt is there and has exactly its size and its hash. */
  predicate Matches(hash: Hash, dir: Directory, r: FileReceipt) {
    r.name in dir && |dir[r.name]| == r.size && hash(dir[r.name]) == r.sha
  }

  lemma {:induction false} NoneFail(hash: Hash, dir: Directory, scope: Scope, receipts: seq<FileReceipt>, k: nat)
    requires k <= |receipts|
    ensures FailuresOf(hash, dir, scope, receipts, k) == [] <==>
              forall i | 0 <= i < k :: Matches(hash, dir, receipts[i])
    decreases k
  {
    if k > 0 { NoneFail(hash, dir, scope, receipts, k - 1); }
  }

  lemma {:induction false} NoFailures(hash: Hash, dir: Directory, scope: Scope, receipts: seq<FileReceipt>)
    ensures FailuresOf(hash, dir, scope, receipts, |receipts|) == [] <==>
              forall r | r in receipts :: Matches(hash, dir, r)
  {
    NoneFail(hash, dir, scope, receipts, |receipts|);
    hide FailuresOf, Matches;
    if forall i | 0 <= i < |receipts| :: Matches(hash, dir, receipts[i]) {
      forall r | r in receipts ensures Matches(hash, dir, r) {
        var i :| 0 <= i < |receipts| && receipts[i] == r;
      }
    }
  }

  lemma {:induction false} PracticeReceiptsAre(log: seq<Attempt>, k: nat, r: FileReceipt)
    requires k <= |log|
    ensures r in PracticeReceipts(log, k) <==> exists i :: 0 <= i < k && log[i].receipt == Some(r)
    decreases k
  {
    if k > 0 { PracticeReceiptsAre(log, k - 1, r); }
  }

  lemma {:induction false} PracticeReceiptsCounted(log: seq<Attempt>, k: nat)
    requires k <= |log|
    ensures |PracticeReceipts(log, k)| == |set i | 0 <= i < k && log[i].receipt.Some?|
    decreases k
  {
    if k > 0 {
      PracticeReceiptsCounted(log, k - 1);
      var at, before := set i | 0 <= i < k && log[i].receipt.Some?, set i | 0 <= i < k - 1 && log[i].receipt.Some?;
      assert at == before + if log[k - 1].receipt.Some? then {k - 1} else {};
    }
  }

  lemma {:induction false} OfAttempts(log: seq<Attempt>)
    ensures forall r | r in PracticeReceipts(log, |log|) :: exists a :: a in log && a.receipt == Some(r)
    ensures forall a | a in log && a.receipt.Some? :: a.receipt.value in PracticeReceipts(log, |log|)
  {
    forall r | r in PracticeReceipts(log, |log|) ensures exists a :: a in log && a.receipt == Some(r) {
      PracticeReceiptsAre(log, |log|, r);
      var i :| 0 <= i < |log| && log[i].receipt == Some(r);
      assert log[i] in log;
    }
    forall a | a in log && a.receipt.Some? ensures a.receipt.value in PracticeReceipts(log, |log|) {
      PracticeReceiptsAre(log, |log|, a.receipt.value);
      var i :| 0 <= i < |log| && log[i] == a;
    }
  }

  /**
   * A case is reported without failures exactly if the file of every evidence receipt and of every attempt's receipt is
   * there, with exactly the receipt's size and hash; and every receipt is counted.
   */
  lemma {:induction false} ReportIsClean(hash: Hash, f: CaseFiles, log: seq<Attempt>)
    ensures var report := ReportOf(hash, f, log);
            && report.checkedEvidence == |f.evidence|
            && report.checkedPractice == |set i | 0 <= i < |log| && log[i].receipt.Some?|
            && (report.failures == [] <==>
                 && (forall r | r in f.evidence :: Matches(hash, f.evidenceDir, r))
                 && (forall a | a in log && a.receipt.Some? :: Matches(hash, f.receiptDir, a.receipt.value)))
  {
    var practice := PracticeReceipts(log, |log|);
    NoFailures(hash, f.evidenceDir, EvidenceScope, f.evidence);
    NoFailures(hash, f.receiptDir, PracticeScope, practice);
    PracticeReceiptsCounted(log, |log|);
    OfAttempts(log);
    hide FailuresOf, PracticeReceipts, Matches;
    if forall a | a in log && a.receipt.Some? :: Matches(hash, f.receiptDir, a.receipt.value) {
      forall r | r in practice ensures Matches(hash, f.receiptDir, r) {
        var a :| a in log && a.receipt == Some(r);
      }
    }
  }

  /** Exactly the receipts whose file does not match are reported, each with what is wrong with its file. */
  lemma {:induction false} ReportNamesFailures(hash: Hash, f: CaseFiles, log: seq<Attempt>, e: Failure)
    ensures e in ReportOf(hash, f, log).failures <==>
              || (exists r :: r in f.evidence && IsFailureOf(hash, f.evidenceDir, EvidenceScope, r, e))
              || (exists a :: a in log && a.receipt.Some?
                              && IsFailureOf(hash, f.receiptDir, PracticeScope, a.receipt.value, e))
  {
    var practice := PracticeReceipts(log, |log|);
    FailureIn(hash, f.evidenceDir, EvidenceScope, f.evidence, e);
    FailureIn(hash, f.receiptDir, PracticeScope, practice, e);
    OfAttempts(log);
    hide FailuresOf, PracticeReceipts, IsFailureOf;
    if r :| r in practice && IsFailureOf(hash, f.receiptDir, PracticeScope, r, e) {
      var a :| a in log && a.receipt == Some(r);
    }
  }

  lemma {:induction false} FailureIn(
      hash: Hash, dir: Directory, scope: Scope, receipts: seq<FileReceipt>, e: Failure)
    ensures e in FailuresOf(hash, dir, scope, receipts, |receipts|) <==>
              exists r :: r in receipts && IsFailureOf(hash, dir, scope, r, e)
  {
    FailureOrigin(hash, dir, scope, receipts, |receipts|, e);
    hide FailuresOf, IsFailureOf;
    if r :| r in receipts && IsFailureOf(hash, dir, scope, r, e) {
      var i :| 0 <= i < |receipts| && receipts[i] == r;
    }
  }

  // --- damage from outside ---

  /** Overwriting or removing the file of an evidence receipt is reported, unless the new bytes match it. */
  lemma {:induction false} DamagedEvidenceIsReported(
      hash: Hash, f: CaseFiles, log: seq<Attempt>, r: FileReceipt, content: bytes)
    requires r in f.evidence
    ensures var overwritten := f.(evidenceDir := f.evidenceDir[r.name := content]);
            && (|content| != r.size ==> Failure(EvidenceScope, r.receiptId, r.name, ByteSizeMismatch)
                                          in ReportOf(hash, overwritten, log).failures)
            && (|content| == r.size && hash(content) != r.sha ==>
                 Failure(EvidenceScope, r.receiptId, r.name, ShaMismatch) in ReportOf(hash, overwritten, log).failures)
    ensures Failure(EvidenceScope, r.receiptId, r.name, Missing)
              in ReportOf(hash, f.(evidenceDir := f.evidenceDir - {r.name}), log).failures
  {
    hide ReportOf;
    var overwritten := f.(evidenceDir := f.evidenceDir[r.name := content]);
    var removed := f.(evidenceDir := f.evidenceDir - {r.name});
    ReportNamesFailures(hash, overwritten, log, Failure(EvidenceScope, r.receiptId, r.name, ByteSizeMismatch));
    ReportNamesFailures(hash, overwritten, log, Failure(EvidenceScope, r.receiptId, r.name, ShaMismatch));
    ReportNamesFailures(hash, removed, log, Failure(EvidenceScope, r.receiptId, r.name, Missing));
  }

  lemma {:induction false} DamagedPracticeIsReported(
      hash: Hash, f: CaseFiles, log: seq<Attempt>, a: Attempt, content: bytes)
    requires a in log && a.receipt.Some?
    ensures var r := a.receipt.value;
            var overwritten := f.(receiptDir := f.receiptDir[r.name := content]);
            && (|content| != r.size ==> Failure(PracticeScope, r.receiptId, r.name, ByteSizeMismatch)
                                          in ReportOf(hash, overwritten, log).failures)
            && (|content| == r.size && hash(content) != r.sha ==>
                 Failure(PracticeScope, r.receiptId, r.name, ShaMismatch) in ReportOf(hash, overwritten, log).failures)
    ensures var r := a.receipt.value;
            Failure(PracticeScope, r.receiptId, r.name, Missing)
              in ReportOf(hash, f.(receiptDir := f.receiptDir - {r.name}), log).failures
  {
    hide ReportOf;
    var r := a.receipt.value;
    var overwritten := f.(receiptDir := f.receiptDir[r.name := content]);
    var removed := f.(receiptDir := f.receiptDir - {r.name});
    ReportNamesFailures(hash, overwritten, log, Failure(PracticeScope, r.receiptId, r.name, ByteSizeMismatch));
    ReportNamesFailures(hash, overwritten, log, Failure(PracticeScope, r.receiptId, r.name, ShaMismatch));
    ReportNamesFailures(hash, removed, log, Failure(PracticeScope, r.receiptId, r.name, Missing));
  }

  /** One evidence file and one practice file, both overwritten with bytes of another size: two failures, in order. */
  lemma {:induction false} BothOverwritten(
      hash: Hash, f: CaseFiles, a: Attempt, r: FileReceipt, content: bytes)
    requires f.evidence == [r] && a.receipt.Some?
    requires |content| != r.size && |content| != a.receipt.value.size
    ensures var p := a.receipt.value;
            var g := f.(evidenceDir := f.evidenceDir[r.name := content], receiptDir := f.receiptDir[p.name := content]);
            ReportOf(hash, g, [a]) == Report(1, 1, [
              Failure(EvidenceScope, r.receiptId, r.name, ByteSizeMismatch),
              Failure(PracticeScope, p.receiptId, p.name, ByteSizeMismatch)])
  {
    var p := a.receipt.value;
    assert PracticeReceipts([a], 1) == [p];
  }

  // --- over histories ---

  /** A case whose receipts all verify is reported without failures, and only such a case. */
  lemma {:induction false} CleanIffIntact(t: Tools, f: CaseFiles, log: seq<Attempt>)
    ensures ReportOf(t.hash, f, log).failures == [] <==> Intact(t, f, log)
  {
    ReportIsClean(t.hash, f, log);
    hide ReportOf;
    if Intact(t, f, log) {
      forall r | r in f.evidence ensures Matches(t.hash, f.evidenceDir, r) {
        var i :| 0 <= i < |f.evidence| && f.evidence[i] == r;
      }
      forall a | a in log && a.receipt.Some? ensures Matches(t.hash, f.receiptDir, a.receipt.value) {
        var i :| 0 <= i < |log| && log[i] == a;
        assert ReceiptOk(t, f, log[i]);
      }
    } else if ReportOf(t.hash, f, log).failures == [] {
      assert forall i | 0 <= i < |f.evidence| :: f.evidence[i] in f.evidence;
      assert forall i | 0 <= i < |log| :: log[i] in log && ReceiptOk(t, f, log[i]);
    }
  }

  /** After any calls that did not damage the case, checking it, if it is readable, finds no failure. */
  lemma {:induction false} PublishedCasesVerify(t: Tools, calls: seq<Call>, id: string)
    requires GoodTools(t) && NeverDamagedAt(t, calls, id) && id in Run(t, calls)
    requires Replay(t.codec, Run(t, calls)[id].log).Some?
    ensures var f := Run(t, calls)[id];
            ReportOf(t.hash, f, Replay(t.codec, f.log).value).failures == []
  {
    StoreIsSound(t, calls, id);
    AttemptsReadBack(t, calls, id);
    var f := Run(t, calls)[id];
    CleanIffIntact(t, f, Replay(t.codec, f.log).value);
    hide GoodTools, Replay, Run, NeverDamagedAt, Logged, AllPlain, ReportOf;
  }

  // --- the loops ---

  /** `_verify_receipt`. */
  method VerifyReceipt(hash: Hash, dir: Directory, scope: Scope, r: FileReceipt) returns (failure: Option<Failure>)
    ensures failure.None? <==> Matches(hash, dir, r)
    ensures failure.Some? ==> IsFailureOf(hash, dir, scope, r, failure.value)
    ensures failure == match ProblemOf(hash, dir, r)
                       case None => None
                       case Some(problem) => Some(Failure(scope, r.receiptId, r.name, problem))
  {
    if r.name !in dir { return Some(Failure(scope, r.receiptId, r.name, Missing)); }
    var content := dir[r.name];
    if |content| != r.size { return Some(Failure(scope, r.receiptId, r.name, ByteSizeMismatch)); }
    if hash(content) != r.sha { return Some(Failure(scope, r.receiptId, r.name, ShaMismatch)); }
    return None;
  }

  method Failures(hash: Hash, dir: Directory, scope: Scope, receipts: seq<FileReceipt>)
    returns (failures: seq<Failure>)
    ensures failures == FailuresOf(hash, dir, scope, receipts, |receipts|)
  {
    hide ProblemOf;
    failures := [];
    for i := 0 to |receipts|
      invariant failures == FailuresOf(hash, dir, scope, receipts, i)
    {
      var failure := VerifyReceipt(hash, dir, scope, receipts[i]);
      if failure.Some? { failures := failures + [failure.value]; }
    }
  }
}
