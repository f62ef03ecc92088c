/** The Casebook as a value: published cases, and what creating a case and recording an attempt make of them. */
module CaseStore {
  import opened AttemptLog
  import opened CaseArchive
  import opened Collections
  import opened JsonLines
  import opened Mastery
  import opened Text
  import opened Utf8

  /** Microseconds since 1970 in UTC, within the years 1 to 9999 of a `datetime`. */
  type Timestamp = i: int | -62_135_596_800_000_000 <= i < 253_402_300_800_000_000

  datatype Attempt = Attempt(
    caseId: string, stage: Stage, outcome: Outcome, note: Option<string>, receipt: Option<FileReceipt>,
    createdAt: Timestamp)

  /** A published case: its record, its attempt log, and its two archive directories. */
  datatype CaseFiles = CaseFiles(
    facts: string, evidence: seq<FileReceipt>, log: bytes, evidenceDir: Directory, receiptDir: Directory)

  type Cases = map<string, CaseFiles>

  /** SHA-256 and the attempt codec. */
  datatype Tools = Tools(hash: Hash, codec: Codec<Attempt>)

  /** `created_at`, ids and other generated values are inputs; `otherFailure` is any other step that raises. */
  datatype Call =
    | Create(caseId: string, facts: string, sources: seq<Source>, ids: seq<ReceiptId>, otherFailure: bool)
    | Record(caseId: string, stage: Stage, outcome: Outcome, source: Option<Source>, note: Option<string>,
             receiptId: ReceiptId, createdAt: Timestamp, disk: Disk, otherFailure: bool, unlinkFails: bool)

  // --- create_case ---

  predicate IdChar(c: char) {
    'a' <= c <= 'z' || '0' <= c <= '9' || c == '-'
  }

  /** 3 to 80 lower-case letters, digits and single inner hyphens. */
  predicate ValidCaseId(id: string) {
    && 3 <= |id| <= 80 && (forall i | 0 <= i < |id| :: IdChar(id[i]))
    && id[0] != '-' && id[|id| - 1] != '-'
    && (forall i | 0 <= i < |id| - 1 :: id[i] == '-' ==> id[i + 1] != '-')
  }

  /** The validators of `PracticeAttempt`. */
  predicate ValidAttempt(a: Attempt) {
    && ValidCaseId(a.caseId)
    && (a.outcome == Pass ==> a.receipt.Some?)
    && (a.outcome == NeedsWork ==> a.note.Some? && !Blank(a.note.value))
    && ReceiptBuilt(a)
  }

  /** The validators of `PracticeReceipt` that its field types do not settle. */
  predicate ReceiptBuilt(a: Attempt) {
    a.receipt.Some? ==> HasText(a.receipt.value.sourcePath) && a.receipt.value.size > 0
  }

  /** The attempt's free texts, its note and its receipt's source path, contain no line separator. */
  predicate PlainTexts(a: Attempt) {
    && (a.note.Some? ==> !HasSeparator(a.note.value))
    && (a.receipt.Some? ==> !HasSeparator(a.receipt.value.sourcePath))
  }

  /** What is assumed of the attempt codec, of valid attempts only: they can be written and read back, and the
      serializer leaves the separators U+0085, U+2028 and U+2029 as they are and adds none. */
  ghost predicate GoodTools(t: Tools) {
    forall a: Attempt | ValidAttempt(a) ::
      GoodRecord(t.codec, a) && (HasSeparator(t.codec.render(a)) <==> !PlainTexts(a))
  }

  predicate CreateAccepted(cases: Cases, call: Call)
    requires call.Create?
  {
    && ValidCaseId(call.caseId) && call.caseId !in cases
    && call.sources != [] && |call.sources| == |call.ids| && Distinct(call.ids)
    && (forall i | 0 <= i < |call.sources| :: Readable(call.sources[i]) && HasText(call.sources[i].path))
    && !call.otherFailure
  }

  /** The case directory that is renamed into place as a whole. */
  function NewCase(t: Tools, call: Call): CaseFiles
    requires call.Create? && |call.sources| == |call.ids|
        && forall i | 0 <= i < |call.sources| :: Readable(call.sources[i])
  {
    var a := ArchiveAll(t.hash, call.sources, call.ids, |call.sources|);
    CaseFiles(call.facts, a.receipts, [], a.dir, map[])
  }

  // --- record_attempt ---

  function Tries(log: seq<Attempt>): (r: seq<Try>)
    ensures |r| == |log| && forall i | 0 <= i < |log| :: r[i] == Try(log[i].caseId, log[i].stage, log[i].outcome)
  {
    seq(|log|, i requires 0 <= i < |log| => Try(log[i].caseId, log[i].stage, log[i].outcome))
  }

  /** `normalized_note`. */
  function Note(call: Call): Option<string>
    requires call.Record?
  {
    if call.note.Some? then Some(Strip(call.note.value)) else None
  }

  /** The checks made before anything is archived. */
  predicate RecordAccepted(log: seq<Attempt>, call: Call)
    requires call.Record?
  {
    && (forall i | 0 <= i < |log| :: log[i].caseId == call.caseId)
    && (call.outcome == Pass ==> call.source.Some? && GateOpen(Tries(log), Try(call.caseId, call.stage, Pass)))
    && (call.outcome == NeedsWork ==> Note(call).Some? && Note(call).value != "")
    && (call.source.Some? ==> Readable(call.source.value))
  }

  /** The attempt that is appended. */
  function NewAttempt(t: Tools, f: CaseFiles, call: Call): Attempt
    requires call.Record? && (call.source.Some? ==> Readable(call.source.value))
  {
    var receipt :=
      if call.source.None? then None
      else
        var content := call.source.value.content.value;
        Some(FileReceipt(call.receiptId, call.source.value.path, Place(t.hash, f.receiptDir, content).name,
          t.hash(content), |content|));
    Attempt(call.caseId, call.stage, call.outcome, Note(call), receipt, call.createdAt)
  }

  /** The receipt directory with the new receipt archived. */
  function WithReceipt(t: Tools, f: CaseFiles, call: Call): Directory
    requires call.Record? && (call.source.Some? ==> Readable(call.source.value))
  {
    if call.source.None? then f.receiptDir
    else
      var content := call.source.value.content.value;
      WithFile(f.receiptDir, Place(t.hash, f.receiptDir, content), content)
  }

  /** The receipt is archived as a new file. */
  predicate NewFile(t: Tools, f: CaseFiles, call: Call)
    requires call.Record?
  {
    call.source.Some? && Readable(call.source.value) &&
    Place(t.hash, f.receiptDir, call.source.value.content.value).isNew
  }

  /** The call gets as far as archiving the receipt, if any, of this attempt. */
  function Attempting(t: Tools, cases: Cases, call: Call): Option<Attempt> {
    if !call.Record? || !ValidCaseId(call.caseId) || call.caseId !in cases then None
    else
      match Replay(t.codec, cases[call.caseId].log)
      case None => None
      case Some(log) =>
        if RecordAccepted(log, call) then Some(NewAttempt(t, cases[call.caseId], call)) else None
  }

  /** The call gets as far as appending this attempt: its receipt has the required formats. */
  function Appending(t: Tools, cases: Cases, call: Call): Option<Attempt> {
    var a := Attempting(t, cases, call);
    if a.Some? && ReceiptBuilt(a.value) then a else None
  }

  /** The attempt that the call commits. */
  function Committing(t: Tools, cases: Cases, call: Call): Option<Attempt> {
    var a := Appending(t, cases, call);
    if a.Some? && !call.otherFailure && Commits(AttemptLog.Record(t.codec, a.value), call.disk) then a else None
  }

  /** The call writes to the log, raises, and fails to take the bytes back. */
  predicate Tears(t: Tools, cases: Cases, call: Call) {
    var a := Appending(t, cases, call);
    a.Some? && !call.otherFailure && RollbackFails(AttemptLog.Record(t.codec, a.value), call.disk)
  }

  /** The attempt that is in the log afterwards, whether or not the call raises. */
  function Logging(t: Tools, cases: Cases, call: Call): Option<Attempt> {
    var a := Appending(t, cases, call);
    if a.Some? && !call.otherFailure && LeavesRecord(AttemptLog.Record(t.codec, a.value), call.disk) then a else None
  }

  /** The call raises, and leaves a part of a record in the log, or a whole record whose receipt file it has removed. */
  predicate Damages(t: Tools, cases: Cases, call: Call) {
    var a := Appending(t, cases, call);
    && a.Some? && Tears(t, cases, call)
    && (|| LeavesPart(AttemptLog.Record(t.codec, a.value), call.disk)
        || (NewFile(t, cases[call.caseId], call) && !call.unlinkFails))
  }

  /** The case after an attempt got as far as being appended: a new receipt file stays if the attempt was committed, or
      if removing it failed. */
  function AfterAppend(t: Tools, f: CaseFiles, call: Call, a: Attempt): CaseFiles
    requires call.Record? && (call.source.Some? ==> Readable(call.source.value))
  {
    var encoded := AttemptLog.Record(t.codec, a);
    var committed := !call.otherFailure && Commits(encoded, call.disk);
    f.(log := if call.otherFailure then f.log else Appended(f.log, encoded, call.disk),
       receiptDir := if committed || call.unlinkFails then WithReceipt(t, f, call) else f.receiptDir)
  }

  /** The case after an accepted call. A receipt that is archived and then found malformed leaves its file behind. */
  function AfterAttempt(t: Tools, f: CaseFiles, call: Call, a: Attempt): CaseFiles
    requires call.Record? && (call.source.Some? ==> Readable(call.source.value))
  {
    if ReceiptBuilt(a) then AfterAppend(t, f, call, a) else f.(receiptDir := WithReceipt(t, f, call))
  }

  function Apply(t: Tools, cases: Cases, call: Call): Cases {
    match call
    case Create(_, _, _, _, _) =>
      if CreateAccepted(cases, call) then cases[call.caseId := NewCase(t, call)] else cases
    case Record(_, _, _, _, _, _, _, _, _, _) =>
      var a := Attempting(t, cases, call);
      if a.None? then cases
      else
        assert call.source.Some? ==> Readable(call.source.value);
        cases[call.caseId := AfterAttempt(t, cases[call.caseId], call, a.value)]
  }

  // --- histories ---

  function Run(t: Tools, calls: seq<Call>): Cases
    decreases |calls|
  {
    if calls == [] then map[] else Apply(t, Run(t, calls[..|calls| - 1]), calls[|calls| - 1])
  }

  /** The attempts that the calls committed to a case, in order. */
  function Committed(t: Tools, calls: seq<Call>, id: string): seq<Attempt>
    decreases |calls|
  {
    if calls == [] then [] else
    var front, last := calls[..|calls| - 1], calls[|calls| - 1];
    var a := Committing(t, Run(t, front), last);
    Committed(t, front, id) + (if a.Some? && last.caseId == id then [a.value] else [])
  }

  /** No call on this case failed to roll its append back. */
  predicate NeverTornAt(t: Tools, calls: seq<Call>, id: string)
    decreases |calls|
  {
    calls == [] ||
    var front, last := calls[..|calls| - 1], calls[|calls| - 1];
    NeverTornAt(t, front, id) && !(last.caseId == id && Tears(t, Run(t, front), last))
  }

  /** The attempts that the calls left in the log of a case, in order. */
  function Logged(t: Tools, calls: seq<Call>, id: string): seq<Attempt>
    decreases |calls|
  {
    if calls == [] then [] else
    var front, last := calls[..|calls| - 1], calls[|calls| - 1];
    var a := Logging(t, Run(t, front), last);
    Logged(t, front, id) + (if a.Some? && last.caseId == id then [a.value] else [])
  }

  /** No call damaged this case. */
  predicate NeverDamagedAt(t: Tools, calls: seq<Call>, id: string)
    decreases |calls|
  {
    calls == [] ||
    var front, last := calls[..|calls| - 1], calls[|calls| - 1];
    NeverDamagedAt(t, front, id) && !(last.caseId == id && Damages(t, Run(t, front), last))
  }
}
