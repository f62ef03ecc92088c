/** Files of one JSON record a line: what is assumed of the serializer, and the reading loop. */
module JsonLines {
  import opened Slices
  import opened Text

  /** How records are written and read: the JSON serializer, and the validating parser, which may reject any value. */
  datatype Codec<!A> = Codec(render: A -> string, parse: string -> Option<A>)

  /** The record reads back, starts and ends without whitespace, contains no control characters (JSON escapes those),
      and no proper prefix of it is a record. Claimed only of records that pass their model's validators. */
  predicate GoodRecord<A(==)>(c: Codec<A>, a: A) {
    var s := c.render(a);
    && c.parse(s) == Some(a)
    && s != "" && !IsSpace(s[0]) && !IsSpace(s[|s| - 1])
    && (forall i | 0 <= i < |s| :: s[i] as int >= 0x20)
    && (forall k | 0 < k < |s| :: c.parse(Strip(s[..k])).None?)
  }

  predicate AllGood<A(==)>(c: Codec<A>, log: seq<A>) {
    forall i | 0 <= i < |log| :: GoodRecord(c, log[i])
  }

  lemma {:induction false} AllGoodTail<A>(c: Codec<A>, log: seq<A>)
    requires AllGood(c, log) && log != []
    ensures GoodRecord(c, log[0]) && AllGood(c, log[1..])
  {
    hide GoodRecord;
    assert forall i | 0 <= i < |log| - 1 :: log[1..][i] == log[i + 1];
  }

  /** Blank lines are skipped, and a line that is no record raises. */
  function ParseLines<A>(c: Codec<A>, lines: seq<string>): Option<seq<A>>
    decreases |lines|
  {
    if lines == [] then Some([])
    else if Strip(lines[0]) == "" then ParseLines(c, lines[1..])
    else
      match c.parse(Strip(lines[0]))
      case None => None
      case Some(a) =>
        match ParseLines(c, lines[1..])
        case None => None
        case Some(rest) => Some([a] + rest)
  }

  method ParseRecords<A>(c: Codec<A>, lines: seq<string>) returns (r: Option<seq<A>>)
    ensures r == ParseLines(c, lines)
  {
    hide Strip;
    var records: seq<A> := [];
    var i := 0;
    StartPrepended(ParseLines(c, lines));
    assert lines[0..] == lines;
    while i < |lines|
      invariant i <= |lines| && ParseLines(c, lines) == Prepended(records, ParseLines(c, lines[i..]))
    {
      var stripped := Strip(lines[i]);
      assert lines[i..][1..] == lines[i + 1..];
      if stripped != "" {
        var a := c.parse(stripped);
        if a.None? { return None; }
        PrependedSnoc(records, a.value, ParseLines(c, lines[i + 1..]));
        records := records + [a.value];
      }
      i := i + 1;
    }
    ConcatEmpty(records);
    return Some(records);
  }

  function Prepended<A>(front: seq<A>, rest: Option<seq<A>>): Option<seq<A>> {
    match rest
    case None => None
    case Some(s) => Some(front + s)
  }

  lemma {:induction false} PrependedSnoc<A>(front: seq<A>, a: A, rest: Option<seq<A>>)
    ensures Prepended(front + [a], rest) == Prepended(front, Prepended([a], rest))
  {
    if rest.Some? { ConcatAssociates(front, [a], rest.value); }
  }

  lemma {:induction false} StartPrepended<A>(rest: Option<seq<A>>)
    ensures Prepended([], rest) == rest
  {
    if rest.Some? { ConcatEmpty(rest.value); }
  }

  // --- a log of whole records ---

  function LogText<A>(c: Codec<A>, log: seq<A>): string {
    if log == [] then "" else c.render(log[0]) + "\n" + LogText(c, log[1..])
  }

  lemma {:induction false} LogTextSnoc<A>(c: Codec<A>, log: seq<A>, a: A)
    ensures LogText(c, log + [a]) == LogText(c, log) + (c.render(a) + "\n")
    decreases |log|
  {
    if log == [] {
      assert (log + [a])[1..] == [];
    } else {
      assert (log + [a])[1..] == log[1..] + [a];
      LogTextSnoc(c, log[1..], a);
    }
  }

  lemma {:induction false} StripOfRecordPrefix(s: string, k: nat)
    requires s != "" && !IsSpace(s[0]) && 0 < k <= |s|
    ensures Strip(s[..k]) != ""
  {
    StripIsTrimmed(s[..k]);
    assert !IsSpace(s[..k][0]);
  }

  // --- lines ended by a newline ---

  predicate HasNewline(s: string) {
    exists i :: 0 <= i < |s| && s[i] == '\n'
  }

  /** Length of the text before its first newline. */
  function ToNewline(s: string): (n: nat)
    ensures n <= |s|
    ensures n < |s| ==> s[n] == '\n'
    ensures forall i | 0 <= i < n :: s[i] != '\n'
  {
    if s == "" || s[0] == '\n' then 0 else
    var rest := ToNewline(s[1..]);
    assert forall i | 1 <= i < 1 + rest :: s[i] == s[1..][i - 1];
    1 + rest
  }

  /** Iterating over a text file: lines end at newlines only. */
  function FileLines(s: string): seq<string>
    decreases |s|
  {
    if s == "" then []
    else if ToNewline(s) == |s| then [s]
    else [s[..ToNewline(s)]] + FileLines(s[ToNewline(s) + 1..])
  }

  lemma {:induction false} FirstFileLine(s: string, rest: string)
    requires !HasNewline(s)
    ensures FileLines(s + "\n" + rest) == [s] + FileLines(rest)
  {
    var text := s + "\n" + rest;
    assert forall i | 0 <= i < |s| :: text[i] == s[i];
    assert text[|s|] == '\n';
    assert ToNewline(text) == |s| by { hide ToNewline; }
    assert text[..|s|] == s && text[|s| + 1..] == rest;
  }

  /** A file of whole records reads back as those records, whatever they contain. */
  lemma {:induction false} FileReadsBack<A>(c: Codec<A>, log: seq<A>)
    requires AllGood(c, log)
    ensures ParseLines(c, FileLines(LogText(c, log))) == Some(log)
    decreases |log|
  {
    hide Strip, IsSpace, ToNewline, FileLines;
    if log == [] {
      assert FileLines("") == [] by { NoLines(); }
    } else {
      var s := c.render(log[0]);
      AllGoodTail(c, log);
      hide AllGood;
      assert !HasNewline(s);
      FirstFileLine(s, LogText(c, log[1..]));
      StripKeepsTrimmed(s);
      FileReadsBack(c, log[1..]);
      var lines := FileLines(LogText(c, log));
      assert lines[1..] == FileLines(LogText(c, log[1..]));
      HeadTail(log);
    }
  }

  lemma {:induction false} NoLines()
    ensures FileLines("") == []
  {
  }
}
