/** The append-only attempt log: writing one record on an unreliable disk, and replaying the file. */
module AttemptLog {
  import opened JsonLines
  import opened Slices
  import opened Text
  import opened Utf8

  // --- appending ---

  /** What the system calls of one append do: bytes taken by each write (0 raises), the sync, and the rollback. */
  datatype Disk = Disk(writes: seq<nat>, syncFails: bool, truncateFails: bool)

  /** Bytes of the record in the file when the write loop ends, in success or by a raise. */
  function Progress(total: nat, goal: nat, writes: seq<nat>): (p: nat)
    requires total <= goal
    ensures total <= p <= goal
    decreases |writes|
  {
    if total == goal || writes == [] || writes[0] == 0 then total
    else Progress(if total + writes[0] <= goal then total + writes[0] else goal, goal, writes[1..])
  }

  predicate Commits(encoded: bytes, disk: Disk) {
    Progress(0, |encoded|, disk.writes) == |encoded| && !disk.syncFails
  }

  /** Something was written, the append failed, and so did the rollback. */
  predicate RollbackFails(encoded: bytes, disk: Disk) {
    !Commits(encoded, disk) && Progress(0, |encoded|, disk.writes) > 0 && disk.truncateFails
  }

  /** The whole record is in the file afterwards, though the append may have raised. */
  predicate LeavesRecord(encoded: bytes, disk: Disk) {
    Commits(encoded, disk) || (RollbackFails(encoded, disk) && Progress(0, |encoded|, disk.writes) == |encoded|)
  }

  /** A first part of the record is in the file afterwards. */
  predicate LeavesPart(encoded: bytes, disk: Disk) {
    RollbackFails(encoded, disk) && Progress(0, |encoded|, disk.writes) < |encoded|
  }

  /** The file after `_append_attempt`. */
  function Appended(log: bytes, encoded: bytes, disk: Disk): bytes {
    if Commits(encoded, disk) then log + encoded
    else if RollbackFails(encoded, disk) then log + encoded[..Progress(0, |encoded|, disk.writes)]
    else log
  }

  /** An append is all or nothing exactly when its rollback does not fail. */
  lemma {:induction false} AppendIsAtomic(log: bytes, encoded: bytes, disk: Disk)
    requires encoded != []
    ensures Appended(log, encoded, disk) == (if Commits(encoded, disk) then log + encoded else log)
            <==> !RollbackFails(encoded, disk)
  {
    hide Progress;
    if RollbackFails(encoded, disk) {
      assert |Appended(log, encoded, disk)| > |log|;
    }
  }

  /** A failed rollback can even leave a whole record behind an append that raised. */
  lemma {:induction false} FailedRollbackLeavesRecord(log: bytes, encoded: bytes)
    requires encoded != []
    ensures var disk := Disk([|encoded|], true, true);
            !Commits(encoded, disk) && Appended(log, encoded, disk) == log + encoded
  {
    assert Progress(0, |encoded|, [|encoded|]) == |encoded|;
    assert encoded[..|encoded|] == encoded;
  }

  /** A failing append leaves the file as it was, or the record whole or in part. */
  lemma {:induction false} AppendCases(log: bytes, encoded: bytes, disk: Disk)
    ensures LeavesRecord(encoded, disk) ==> Appended(log, encoded, disk) == log + encoded
    ensures LeavesPart(encoded, disk) ==>
              var p := Progress(0, |encoded|, disk.writes);
              0 < p < |encoded| && Appended(log, encoded, disk) == log + encoded[..p]
    ensures !LeavesRecord(encoded, disk) && !LeavesPart(encoded, disk) ==> Appended(log, encoded, disk) == log
  {
    hide Progress;
    TakeAll(encoded);
  }

  class LogFile {
    var content: bytes

    constructor (initial: bytes)
      ensures content == initial
    {
      content := initial;
    }

    /** `os.write` of the rest of the record: takes a prefix of it, or raises. */
    method Write(rest: bytes, takes: nat) returns (written: nat)
      modifies this
      ensures written == (if takes <= |rest| then takes else |rest|)
      ensures content == old(content) + rest[..written]
    {
      written := if takes <= |rest| then takes else |rest|;
      content := content + rest[..written];
    }

    /** The write loop: it ends when all is written, or raises when a write takes nothing. */
    method WriteAll(encoded: bytes, writes: seq<nat>) returns (total: nat)
      modifies this
      ensures total == Progress(0, |encoded|, writes) && content == old(content) + encoded[..total]
    {
      ghost var before := content;
      var calls := writes;
      total := 0;
      while total < |encoded|
        invariant total <= |encoded| && content == before + encoded[..total]
        invariant Progress(0, |encoded|, writes) == Progress(total, |encoded|, calls)
      {
        if calls == [] || calls[0] == 0 { return; }
        var written := Write(encoded[total..], calls[0]);
        AppendSlice(before, encoded, total, total + written);
        total := total + written;
        calls := calls[1..];
      }
    }

    /** `_append_attempt` between opening and closing the file. */
    method Append(encoded: bytes, disk: Disk) returns (ok: bool)
      modifies this
      ensures ok == Commits(encoded, disk)
      ensures content == Appended(old(content), encoded, disk)
    {
      hide Progress;
      var original := |content|;
      var total := WriteAll(encoded, disk.writes);
      TakeAll(encoded);
      if total < |encoded| || disk.syncFails {
        if total > 0 && !disk.truncateFails {
          JoinCut(old(content), encoded[..total]);
          content := content[..original];
        }
        ConcatEmpty(old(content));
        return false;
      }
      return true;
    }
  }

  lemma {:induction false} AppendSlice(log: bytes, s: bytes, i: nat, j: nat)
    requires i <= j <= |s|
    ensures log + s[..i] + s[i..][..j - i] == log + s[..j]
  {
    assert s[..i] + s[i..][..j - i] == s[..j];
  }

  // --- replaying ---

  /** The line boundaries of `str.splitlines`. */
  predicate IsLineBreak(c: char) {
    var n := c as int;
    0x0A <= n <= 0x0D || 0x1C <= n <= 0x1E || n == 0x85 || n == 0x2028 || n == 0x2029
  }

  /** The line boundaries that a JSON text can contain: the others are control characters, which are escaped. */
  predicate IsSeparator(c: char) {
    c as int == 0x85 || c as int == 0x2028 || c as int == 0x2029
  }

  predicate HasSeparator(s: string) {
    exists i :: 0 <= i < |s| && IsSeparator(s[i])
  }

  predicate LineSafe(s: string) {
    forall i | 0 <= i < |s| :: !IsLineBreak(s[i])
  }

  lemma {:induction false} SafeIffNoSeparator<A>(c: Codec<A>, a: A)
    requires GoodRecord(c, a)
    ensures LineSafe(c.render(a)) <==> !HasSeparator(c.render(a))
  {
    var s := c.render(a);
    forall i | 0 <= i < |s| ensures IsLineBreak(s[i]) <==> IsSeparator(s[i]) { assert s[i] as int >= 0x20; }
    hide GoodRecord, IsSeparator, IsLineBreak;
  }

  /** Length of the text before its first line boundary. */
  function LineLength(s: string): (n: nat)
    ensures n <= |s|
    ensures n < |s| ==> IsLineBreak(s[n])
    ensures forall i | 0 <= i < n :: !IsLineBreak(s[i])
  {
    if s == "" || IsLineBreak(s[0]) then 0 else
    var rest := LineLength(s[1..]);
    assert forall i | 1 <= i < 1 + rest :: s[i] == s[1..][i - 1];
    1 + rest
  }

  /** `str.splitlines`, up to empty lines, which the reader skips: a carriage return and line feed count as two. */
  function Lines(s: string): seq<string>
    decreases |s|
  {
    if s == "" then []
    else if LineLength(s) == |s| then [s]
    else [s[..LineLength(s)]] + Lines(s[LineLength(s) + 1..])
  }

  /** `read_attempts`. */
  function Replay<A>(c: Codec<A>, log: bytes): Option<seq<A>> {
    match Decode(log)
    case None => None
    case Some(text) => ParseLines(c, Lines(text))
  }

  /** The bytes that one committed append adds. */
  function Record<A>(c: Codec<A>, a: A): (r: bytes)
    ensures r != []
  {
    var r := Encode(c.render(a) + "\n");
    SizeAtLeastLength(c.render(a) + "\n");
    r
  }

  function LogBytes<A>(c: Codec<A>, log: seq<A>): bytes
    decreases |log|
  {
    if log == [] then [] else LogBytes(c, log[..|log| - 1]) + Record(c, log[|log| - 1])
  }

  predicate AllLineSafe<A>(c: Codec<A>, log: seq<A>) {
    forall i | 0 <= i < |log| :: LineSafe(c.render(log[i]))
  }

  lemma {:induction false} LineLengthOfRecord(s: string, rest: string)
    ensures LineSafe(s) ==> LineLength(s + "\n" + rest) == |s|
    ensures !LineSafe(s) ==> LineLength(s + "\n" + rest) < |s|
    ensures !LineSafe(s) ==> s[..LineLength(s + "\n" + rest)] == (s + "\n" + rest)[..LineLength(s + "\n" + rest)]
  {
    var text := s + "\n" + rest;
    var n := LineLength(text);
    assert text[|s|] == '\n' && IsLineBreak('\n');
    assert forall i | 0 <= i < |s| :: text[i] == s[i];
    hide LineLength;
    assert n <= |s|;
    if !LineSafe(s) {
      var i :| 0 <= i < |s| && IsLineBreak(s[i]);
      assert IsLineBreak(text[i]);
      assert n <= i;
    }
  }

  lemma {:induction false} AfterFirstLine(s: string, rest: string)
    ensures (s + "\n" + rest)[..|s|] == s && (s + "\n" + rest)[|s| + 1..] == rest
  {
  }

  /** Replaying a log of whole records gives them back, in order, exactly if none contains a line boundary. */
  lemma {:induction false} ReplayText<A>(c: Codec<A>, log: seq<A>)
    requires AllGood(c, log)
    ensures ParseLines(c, Lines(LogText(c, log))) == if AllLineSafe(c, log) then Some(log) else None
    decreases |log|
  {
    hide Strip, LineSafe, LineLength, IsSpace;
    if log != [] {
      var s, rest := c.render(log[0]), LogText(c, log[1..]);
      var text := s + "\n" + rest;
      assert text == LogText(c, log);
      AllGoodTail(c, log);
      hide AllGood;
      LineLengthOfRecord(s, rest);
      AfterFirstLine(s, rest);
      var n := LineLength(text);
      assert Lines(text) == [text[..n]] + Lines(text[n + 1..]);
      if LineSafe(s) {
        StripKeepsTrimmed(s);
        ReplayText(c, log[1..]);
        assert AllLineSafe(c, log) <==> AllLineSafe(c, log[1..]) by { SafeFromSecond(c, log); }
        HeadTail(log);
        assert Lines(text)[1..] == Lines(rest);
      } else {
        assert !AllLineSafe(c, log);
        FirstPieceStarts(s, rest);
        StripOfRecordPrefix(s, n);
      }
    }
  }

  lemma {:induction false} SafeFromSecond<A>(c: Codec<A>, log: seq<A>)
    requires log != [] && LineSafe(c.render(log[0]))
    ensures AllLineSafe(c, log) <==> AllLineSafe(c, log[1..])
  {
    hide LineSafe;
    if AllLineSafe(c, log[1..]) {
      forall i | 0 <= i < |log| ensures LineSafe(c.render(log[i])) {
        if i > 0 { assert log[i] == log[1..][i - 1]; }
      }
    }
  }

  /** A record does not start with a line boundary. */
  lemma {:induction false} FirstPieceStarts(s: string, rest: string)
    requires s != "" && !IsSpace(s[0])
    ensures LineLength(s + "\n" + rest) > 0
  {
    assert (s + "\n" + rest)[0] == s[0];
  }

  lemma {:induction false} LogBytesAreText<A>(c: Codec<A>, log: seq<A>)
    ensures LogBytes(c, log) == Encode(LogText(c, log))
    decreases |log|
  {
    hide EncodeChar;
    if log != [] {
      var front, a := log[..|log| - 1], log[|log| - 1];
      LogBytesAreText(c, front);
      LogTextSnoc(c, front, a);
      assert front + [a] == log;
      EncodeConcat(LogText(c, front), c.render(a) + "\n");
    }
  }

  /** `read_attempts` on a log of whole records. */
  lemma {:induction false} ReplayIsCommitted<A>(c: Codec<A>, log: seq<A>)
    requires AllGood(c, log)
    ensures Replay(c, LogBytes(c, log)) == if AllLineSafe(c, log) then Some(log) else None
  {
    LogBytesAreText(c, log);
    DecodeEncode(LogText(c, log));
    ReplayText(c, log);
    hide *;
    assert Replay(c, LogBytes(c, log)) == ParseLines(c, Lines(LogText(c, log))) by { ReplayOfText(c, LogText(c, log)); }
  }

  lemma {:induction false} ReplayOfText<A>(c: Codec<A>, text: string)
    ensures Replay(c, Encode(text)) == ParseLines(c, Lines(text))
  {
    DecodeEncode(text);
    hide Encode, Decode, ParseLines, Lines;
  }

  // --- a log that ends in a cut record ---

  /** The lines of whole records, and then those of what follows. */
  lemma {:induction false} ReplayThen<A>(c: Codec<A>, log: seq<A>, tail: string)
    requires AllGood(c, log) && AllLineSafe(c, log)
    ensures ParseLines(c, Lines(LogText(c, log) + tail)) == Prepended(log, ParseLines(c, Lines(tail)))
    decreases |log|
  {
    hide Strip, LineSafe, LineLength, IsSpace;
    if log == [] {
      ConcatEmpty(tail);
      StartPrepended(ParseLines(c, Lines(tail)));
    } else {
      var s, rest := c.render(log[0]), LogText(c, log[1..]) + tail;
      var text := s + "\n" + rest;
      assert text == LogText(c, log) + tail;
      AllGoodTail(c, log);
      hide AllGood;
      assert LineSafe(c.render(log[0]));
      SafeFromSecond(c, log);
      LineLengthOfRecord(s, rest);
      AfterFirstLine(s, rest);
      assert Lines(text) == [s] + Lines(rest) && Lines(text)[1..] == Lines(rest);
      StripKeepsTrimmed(s);
      ReplayThen(c, log[1..], tail);
      HeadTail(log);
      PrependedSnoc([], log[0], ParseLines(c, Lines(rest)));
      PrependedJoin(log[0], log[1..], ParseLines(c, Lines(tail)));
    }
  }

  lemma {:induction false} PrependedJoin<A>(a: A, log: seq<A>, rest: Option<seq<A>>)
    ensures Prepended([a], Prepended(log, rest)) == Prepended([a] + log, rest)
  {
    if rest.Some? { ConcatAssociates([a], log, rest.value); }
  }

  /** A record cut anywhere is no record, and without its newline it still is one. */
  lemma {:induction false} CutRecordLines<A>(c: Codec<A>, a: A, k: nat)
    requires GoodRecord(c, a) && 0 < k <= |c.render(a)|
    ensures ParseLines(c, Lines(c.render(a)[..k]))
         == if k == |c.render(a)| && LineSafe(c.render(a)) then Some([a]) else None
  {
    var s := c.render(a);
    var tail := s[..k];
    var n := LineLength(tail);
    TakeAll(s);
    assert n > 0 by { FirstIsNoBreak(s, k); }
    StripOfRecordPrefix(s, n);
    TakeTake(s, n, k);
    hide Strip, IsSpace, LineSafe, LineLength;
    if n == |tail| {
      assert Lines(tail) == [tail] && [tail][1..] == [];
      LineLengthIsWhole(tail);
      if k == |s| { StripKeepsTrimmed(s); }
      ConcatEmpty([a]);
    } else {
      assert Lines(tail)[0] == s[..n];
      LineLengthIsWhole(tail);
    }
  }

  lemma {:induction false} FirstIsNoBreak(s: string, k: nat)
    requires s != "" && !IsSpace(s[0]) && 0 < k <= |s|
    ensures LineLength(s[..k]) > 0
  {
    assert s[..k][0] == s[0];
  }

  lemma {:induction false} LineLengthIsWhole(s: string)
    ensures LineLength(s) == |s| <==> LineSafe(s)
  {
    var n := LineLength(s);
    hide LineLength;
  }

  /** A log of whole records and the first p bytes of one more: it reads back with that record if no more than its
      newline is missing, and cannot be read if more is. */
  lemma {:induction false} ReplayCut<A>(c: Codec<A>, log: seq<A>, a: A, p: nat)
    requires AllGood(c, log) && AllLineSafe(c, log) && GoodRecord(c, a) && 0 < p <= |Record(c, a)|
    ensures Replay(c, LogBytes(c, log) + Record(c, a)[..p])
         == if p >= Size(c.render(a)) && LineSafe(c.render(a)) then Some(log + [a]) else None
  {
    var s := c.render(a);
    RecordIsLine(c, a);
    hide Encode, Decode, Lines, ParseLines, LineSafe, GoodRecord, AllGood, AllLineSafe, LogBytes, Record, Floor, Offset;
    LogBytesAreText(c, log);
    if p == |Record(c, a)| {
      TakeAll(Record(c, a));
      ReplayThenRecord(c, log, a);
      DecodeEncode(LogText(c, log) + (s + "\n"));
      EncodeConcat(LogText(c, log), s + "\n");
    } else {
      assert Record(c, a)[..p] == Encode(s)[..p];
      CutDecodes(s, p);
      DecodeAfterText(LogText(c, log), Encode(s)[..p]);
      var k := Floor(s, p);
      if Offset(s, k) == p {
        CutLength(s, p);
        ReplayThen(c, log, s[..k]);
        CutRecordLines(c, a, k);
      } else {
        WholeIsNoCut(s, p);
      }
    }
  }

  lemma {:induction false} RecordIsLine<A>(c: Codec<A>, a: A)
    ensures Record(c, a) == Encode(c.render(a) + "\n") == Encode(c.render(a)) + [0x0A]
    ensures |Record(c, a)| == Size(c.render(a)) + 1
  {
    EncodeConcat(c.render(a), "\n");
    assert "\n"[1..] == "";
    assert Encode("\n") == EncodeChar('\n') + [] == [0x0A];
  }

  /** A cut between characters: all bytes are kept exactly if all characters are, and some if some are. */
  lemma {:induction false} CutLength(s: string, p: nat)
    requires 0 < p <= Size(s) && Offset(s, Floor(s, p)) == p
    ensures 0 < Floor(s, p) && (Floor(s, p) == |s| <==> p == Size(s))
  {
    FloorCeilOfOffset(s, |s|);
    TakeAll(s);
    assert s[..0] == "";
    hide Floor;
  }

  lemma {:induction false} WholeIsNoCut(s: string, p: nat)
    requires p <= Size(s) && Offset(s, Floor(s, p)) != p
    ensures p < Size(s)
  {
    FloorCeilOfOffset(s, |s|);
    TakeAll(s);
    hide Floor;
  }

  lemma {:induction false} ReplayThenRecord<A>(c: Codec<A>, log: seq<A>, a: A)
    requires AllGood(c, log) && AllLineSafe(c, log) && GoodRecord(c, a)
    ensures ParseLines(c, Lines(LogText(c, log) + (c.render(a) + "\n")))
         == if LineSafe(c.render(a)) then Some(log + [a]) else None
  {
    hide GoodRecord, Lines, ParseLines, LineSafe;
    LogTextSnoc(c, log, a);
    assert AllGood(c, log + [a]);
    assert (log + [a])[|log|] == a;
    assert AllLineSafe(c, log + [a]) <==> LineSafe(c.render(a)) by {
      assert forall i | 0 <= i < |log| :: (log + [a])[i] == log[i];
    }
    hide AllLineSafe, AllGood;
    ReplayText(c, log + [a]);
  }

  // --- a log file determines its records ---

  lemma {:induction false} NoNewlineByte(s: string, i: nat)
    requires (forall k | 0 <= k < |s| :: s[k] as int >= 0x20) && i < Size(s)
    ensures Encode(s)[i] != 0x0A
  {
    var w := |EncodeChar(s[0])|;
    if i >= w { NoNewlineByte(s[1..], i - w); }
  }

  lemma {:induction false} LogEndsInNewline<A>(c: Codec<A>, log: seq<A>)
    requires log != []
    ensures LogBytes(c, log) != [] && LogBytes(c, log)[|LogBytes(c, log)| - 1] == 0x0A
  {
    RecordIsLine(c, log[|log| - 1]);
    hide Encode, Record;
  }

  /** A file that ends in a cut record is no log of whole records. */
  lemma {:induction false} CutIsNoLog<A>(c: Codec<A>, before: bytes, a: A, p: nat, log: seq<A>)
    requires GoodRecord(c, a) && 0 < p < |Record(c, a)|
    ensures before + Record(c, a)[..p] != LogBytes(c, log)
  {
    RecordIsLine(c, a);
    NoNewlineByte(c.render(a), p - 1);
    hide Encode, GoodRecord, Record;
    var file := before + Record(c, a)[..p];
    assert file[|file| - 1] == Record(c, a)[p - 1] == Encode(c.render(a))[p - 1];
    if log != [] { LogEndsInNewline(c, log); }
  }

  lemma {:induction false} LogBytesInjective<A>(c: Codec<A>, log: seq<A>, other: seq<A>)
    requires AllGood(c, log) && AllGood(c, other) && LogBytes(c, log) == LogBytes(c, other)
    ensures log == other
  {
    hide AllGood, FileLines, ParseLines, Encode, Decode, LogText;
    LogBytesAreText(c, log);
    LogBytesAreText(c, other);
    DecodeEncode(LogText(c, log));
    DecodeEncode(LogText(c, other));
    FileReadsBack(c, log);
    FileReadsBack(c, other);
  }

  /** `read_attempts`. */
  method ReadAttempts<A>(c: Codec<A>, log: bytes) returns (r: Option<seq<A>>)
    ensures r == Replay(c, log)
  {
    hide Decode, Lines, ParseLines;
    var text := Decode(log);
    if text.None? { return None; }
    r := ParseRecords(c, Lines(text.value));
  }
}
