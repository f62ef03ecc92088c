/** The printed X thread and its parser. */
module XThread {
  import opened Slices
  import opened Text

  // --- markers ---

  datatype Mark = Mark(start: nat, number: nat, total: nat)

  predicate Digit(c: char) {
    '0' <= c <= '9'
  }

  /** End of the run of digits from i. */
  function DigitsEnd(s: string, i: nat): (e: nat)
    requires i <= |s|
    ensures i <= e <= |s|
    decreases |s| - i
  {
    if i < |s| && Digit(s[i]) then DigitsEnd(s, i + 1) else i
  }

  function DigitValue(c: char): nat {
    if Digit(c) then c as int - '0' as int else 0
  }

  /** `int` of the digits from i to j. */
  function Number(s: string, i: nat, j: nat): nat
    requires i <= j <= |s|
    decreases j - i
  {
    if i == j then 0 else 10 * Number(s, i, j - 1) + DigitValue(s[j - 1])
  }

  /** A run of digits that does not start with a zero. */
  predicate StartsNumber(s: string, i: nat) {
    i < |s| && '1' <= s[i] <= '9'
  }

  /** The marker pattern at i: a number, a slash, a total, and then whitespace or the end. */
  function MarkerAt(s: string, i: nat): (m: Option<Mark>)
    requires i <= |s|
    ensures m.Some? ==> m.value.start == i && StartsNumber(s, i)
  {
    if !StartsNumber(s, i) then None else
    var a := DigitsEnd(s, i);
    if a == |s| || s[a] != '/' || !StartsNumber(s, a + 1) then None else
    var b := DigitsEnd(s, a + 1);
    if b < |s| && !IsSpace(s[b]) then None else Some(Mark(i, Number(s, i, a), Number(s, a + 1, b)))
  }

  predicate LineStart(s: string, i: nat)
    requires i <= |s|
  {
    i == 0 || s[i - 1] == '\n'
  }

  /** `finditer` from position i: the markers at line starts. */
  function MarkersFrom(s: string, i: nat): seq<Mark>
    requires i <= |s|
    decreases |s| - i
  {
    if i == |s| then []
    else
      var rest := MarkersFrom(s, i + 1);
      if LineStart(s, i) && MarkerAt(s, i).Some? then [MarkerAt(s, i).value] + rest else rest
  }

  function Markers(s: string): seq<Mark> {
    MarkersFrom(s, 0)
  }

  lemma {:induction false} MarkersAscend(s: string, i: nat)
    requires i <= |s|
    ensures forall k | 0 <= k < |MarkersFrom(s, i)| ::
              i <= MarkersFrom(s, i)[k].start < |s| && StartsNumber(s, MarkersFrom(s, i)[k].start)
    ensures forall k, l | 0 <= k < l < |MarkersFrom(s, i)| :: MarkersFrom(s, i)[k].start < MarkersFrom(s, i)[l].start
    decreases |s| - i
  {
    hide DigitsEnd, Number;
    if i < |s| { MarkersAscend(s, i + 1); }
  }

  lemma {:induction false} MarkersInText(s: string)
    ensures forall k | 0 <= k < |Markers(s)| :: Markers(s)[k].start < |s|
    ensures forall k, l | 0 <= k < l < |Markers(s)| :: Markers(s)[k].start < Markers(s)[l].start
  {
    MarkersAscend(s, 0);
  }

  // --- parsing ---

  /** `rstrip("\n")`. */
  function TrimNewlines(s: string): (r: string)
    ensures |r| <= |s| && r == s[..|r|] && (forall i | |r| <= i < |s| :: s[i] == '\n')
    ensures r != "" ==> r[|r| - 1] != '\n'
  {
    if s != "" && s[|s| - 1] == '\n' then TrimNewlines(s[..|s| - 1]) else s
  }

  /** Where the part of the k-th marker ends. */
  function PartEnd(s: string, marks: seq<Mark>, k: nat): nat
    requires k < |marks|
  {
    if k + 1 < |marks| then marks[k + 1].start else |s|
  }

  function Part(s: string, marks: seq<Mark>, k: nat): string
    requires k < |marks| && marks == Markers(s)
  {
    MarkersAscend(s, 0);
    TrimNewlines(s[marks[k].start..PartEnd(s, marks, k)])
  }

  /** The texts that `_parse_x_thread` accepts. */
  predicate Accepted(s: string) {
    var marks := Markers(s);
    && marks != [] && marks[0].start <= |s| && Blank(s[..marks[0].start])
    && marks[0].total <= 12 && |marks| == marks[0].total
    && forall k | 0 <= k < |marks| ::
        marks[k].number == k + 1 && marks[k].total == marks[0].total && !Blank(Part(s, marks, k))
  }

  /** `_parse_x_thread`. */
  method ParseThread(s: string) returns (r: Option<seq<string>>)
    ensures r.Some? <==> Accepted(s)
    ensures r.Some? ==>
              |r.value| == |Markers(s)| && forall k | 0 <= k < |r.value| :: r.value[k] == Part(s, Markers(s), k)
  {
    MarkersInText(s);
    hide Markers, MarkersFrom, Blank, TrimNewlines;
    var marks := FindMarkers(s);
    if marks == [] || !Blank(s[..marks[0].start]) { return None; }
    var total := marks[0].total;
    if total > 12 || |marks| != total { return None; }
    var parts: seq<string> := [];
    var index := 0;
    while index < |marks|
      invariant index <= |marks| && |parts| == index
      invariant forall k | 0 <= k < index :: parts[k] == Part(s, marks, k)
      invariant forall k | 0 <= k < index ::
          marks[k].number == k + 1 && marks[k].total == total && !Blank(Part(s, marks, k))
    {
      if marks[index].number != index + 1 || marks[index].total != total { return None; }
      var end := if index + 1 < |marks| then marks[index + 1].start else |s|;
      var part := TrimNewlines(s[marks[index].start..end]);
      if Blank(part) { return None; }
      parts := parts + [part];
      index := index + 1;
    }
    return Some(parts);
  }

  /** `finditer`, from the left. */
  method FindMarkers(s: string) returns (marks: seq<Mark>)
    ensures marks == Markers(s)
  {
    hide MarkerAt;
    marks := [];
    var i := 0;
    ConcatEmpty(Markers(s));
    while i < |s|
      invariant i <= |s| && Markers(s) == marks + MarkersFrom(s, i)
    {
      if LineStart(s, i) && MarkerAt(s, i).Some? {
        ConcatAssociates(marks, [MarkerAt(s, i).value], MarkersFrom(s, i + 1));
        marks := marks + [MarkerAt(s, i).value];
      }
      i := i + 1;
    }
    ConcatEmpty(marks);
  }

  // --- what an accepted text is made of ---

  /** A part starts with its marker's digit and has no newline at its end; only newlines follow it. */
  lemma {:induction false} PartShape(s: string, k: nat)
    requires k < |Markers(s)|
    ensures var marks := Markers(s);
            var p := Part(s, marks, k);
            && marks[k].start + |p| <= PartEnd(s, marks, k) <= |s|
            && p == s[marks[k].start..marks[k].start + |p|] && p != "" && StartsNumber(p, 0) && p[|p| - 1] != '\n'
            && (forall i | marks[k].start + |p| <= i < PartEnd(s, marks, k) :: s[i] == '\n')
  {
    hide MarkersFrom;
    MarkersAscend(s, 0);
    var marks := Markers(s);
    var piece := s[marks[k].start..PartEnd(s, marks, k)];
    assert StartsNumber(piece, 0);
    var p := TrimNewlines(piece);
    assert piece[0] != '\n';
    forall i | marks[k].start + |p| <= i < PartEnd(s, marks, k) ensures s[i] == '\n' {
      assert s[i] == piece[i - marks[k].start];
    }
  }

  /** No character of an accepted text is lost but leading whitespace and newlines between parts. */
  lemma {:induction false} AcceptedTextIsPartitioned(s: string, i: nat)
    requires Accepted(s) && i < |s|
    ensures || (i < Markers(s)[0].start && IsSpace(s[i]))
            || (exists k :: 0 <= k < |Markers(s)| && InPart(s, k, i))
            || (i >= Markers(s)[0].start && s[i] == '\n')
  {
    MarkersAscend(s, 0);
    hide MarkersFrom, TrimNewlines;
    var marks := Markers(s);
    if i < marks[0].start {
      assert s[i] == s[..marks[0].start][i];
    } else {
      var k := PartOf(s, i, |marks| - 1);
      PartShape(s, k);
      if i < marks[k].start + |Part(s, marks, k)| { assert InPart(s, k, i); }
    }
  }

  /** Character i lies in the k-th part, at its own place. */
  predicate InPart(s: string, k: int, i: nat) {
    && 0 <= k < |Markers(s)|
    && var start, p := Markers(s)[k].start, Part(s, Markers(s), k);
    start <= i < start + |p| && i < |s| && p[i - start] == s[i]
  }

  /** The last marker at or before i, among the first k + 1. */
  lemma {:induction false} PartOf(s: string, i: nat, k: nat) returns (j: nat)
    requires k < |Markers(s)| && Markers(s)[0].start <= i < PartEnd(s, Markers(s), k)
    ensures j <= k && Markers(s)[j].start <= i < PartEnd(s, Markers(s), j)
    decreases k
  {
    hide MarkersFrom;
    if Markers(s)[k].start <= i { j := k; } else { j := PartOf(s, i, k - 1); }
  }

  // --- the printer ---

  /** What the printed thread holds for the k-th post. */
  function Block(posts: seq<string>, k: nat): string
    requires k < |posts|
  {
    Strip(posts[k]) + (if k + 1 < |posts| then "\n\n" else "\n")
  }

  /** `"\n\n".join(post.strip() ...) + "\n"`, from the k-th post on. */
  function Printed(posts: seq<string>, k: nat): string
    requires k <= |posts|
    decreases |posts| - k
  {
    if k == |posts| then "" else Block(posts, k) + Printed(posts, k + 1)
  }

  function Shift(marks: seq<Mark>, d: nat): (r: seq<Mark>)
    ensures |r| == |marks| && forall k | 0 <= k < |r| :: r[k] == marks[k].(start := marks[k].start + d)
  {
    seq(|marks|, k requires 0 <= k < |marks| => marks[k].(start := marks[k].start + d))
  }

  lemma {:induction false} DigitsEndShift(a: string, b: string, i: nat)
    requires i <= |b|
    ensures DigitsEnd(a + b, |a| + i) == |a| + DigitsEnd(b, i)
    decreases |b| - i
  {
    if i < |b| && Digit(b[i]) { DigitsEndShift(a, b, i + 1); }
  }

  lemma {:induction false} NumberShift(a: string, b: string, i: nat, j: nat)
    requires i <= j <= |b|
    ensures Number(a + b, |a| + i, |a| + j) == Number(b, i, j)
    decreases j - i
  {
    if i < j {
      NumberShift(a, b, i, j - 1);
      assert (a + b)[|a| + j - 1] == b[j - 1];
    }
  }

  lemma {:induction false} MarkerShift(a: string, b: string, i: nat)
    requires i <= |b|
    ensures MarkerAt(b, i).None? ==> MarkerAt(a + b, |a| + i).None?
    ensures MarkerAt(b, i).Some? ==> MarkerAt(a + b, |a| + i) == Some(MarkerAt(b, i).value.(start := |a| + i))
  {
    hide DigitsEnd, Number, IsSpace;
    DigitsEndShift(a, b, i);
    var e := DigitsEnd(b, i);
    if e < |b| && b[e] == '/' {
      DigitsEndShift(a, b, e + 1);
      NumberShift(a, b, i, e);
      NumberShift(a, b, e + 1, DigitsEnd(b, e + 1));
    }
  }

  lemma {:induction false} MarkersAfter(a: string, b: string, i: nat)
    requires i <= |b| && (a == "" || a[|a| - 1] == '\n')
    ensures MarkersFrom(a + b, |a| + i) == Shift(MarkersFrom(b, i), |a|)
    decreases |b| - i
  {
    hide MarkerAt;
    if i < |b| {
      MarkersAfter(a, b, i + 1);
      MarkerShift(a, b, i);
      assert LineStart(a + b, |a| + i) <==> LineStart(b, i);
    }
  }

  lemma {:induction false} DigitsEndSame(a: string, b: string, i: nat)
    requires i <= |a| && (b == "" || !Digit(b[0]))
    ensures DigitsEnd(a + b, i) == DigitsEnd(a, i)
    decreases |a| - i
  {
    if i < |a| && Digit(a[i]) { DigitsEndSame(a, b, i + 1); }
  }

  lemma {:induction false} NumberSame(a: string, b: string, i: nat, j: nat)
    requires i <= j <= |a|
    ensures Number(a + b, i, j) == Number(a, i, j)
    decreases j - i
  {
    if i < j { NumberSame(a, b, i, j - 1); }
  }

  /** A newline after a text changes no marker in it. */
  lemma {:induction false} MarkerSame(a: string, b: string, i: nat)
    requires i < |a| && b != "" && b[0] == '\n'
    ensures MarkerAt(a + b, i) == MarkerAt(a, i)
  {
    SpaceNewline();
    hide DigitsEnd, Number, IsSpace;
    DigitsEndSame(a, b, i);
    var e := DigitsEnd(a, i);
    if e < |a| && a[e] == '/' {
      DigitsEndSame(a, b, e + 1);
      NumberSame(a, b, i, e);
      NumberSame(a, b, e + 1, DigitsEnd(a, e + 1));
    }
  }

  lemma {:induction false} MarkersBefore(a: string, b: string, i: nat)
    requires i <= |a| && b != "" && b[0] == '\n'
    ensures MarkersFrom(a + b, i) == MarkersFrom(a, i) + MarkersFrom(a + b, |a|)
    decreases |a| - i
  {
    hide MarkerAt;
    if i < |a| {
      MarkersBefore(a, b, i + 1);
      MarkerSame(a, b, i);
    }
  }

  lemma {:induction false} NoMarkerInNewlines(s: string, i: nat)
    requires i <= |s| && forall k | i <= k < |s| :: s[k] == '\n'
    ensures MarkersFrom(s, i) == []
    decreases |s| - i
  {
    if i < |s| { NoMarkerInNewlines(s, i + 1); }
  }

  /** Text before a line start and text after it have separate markers. */
  lemma {:induction false} MarkersOfBlocks(p: string, newlines: string, rest: string)
    requires newlines == "\n" || newlines == "\n\n"
    ensures Markers(p + newlines + rest) == Markers(p) + Shift(Markers(rest), |p| + |newlines|)
  {
    hide MarkerAt, MarkersFrom;
    MarkersBefore(p, newlines + rest, 0);
    ConcatAssociates(p, newlines, rest);
    var text := p + newlines + rest;
    MarkersAfter(p + newlines, rest, 0);
    SkipNewlines(text, |p|, |newlines|);
  }

  lemma {:induction false} SkipNewlines(s: string, i: nat, n: nat)
    requires i + n <= |s| && forall k | i <= k < i + n :: s[k] == '\n'
    ensures MarkersFrom(s, i) == MarkersFrom(s, i + n)
    decreases n
  {
    if n > 0 { SkipNewlines(s, i + 1, n - 1); }
  }

  // --- the round trip ---

  /** The stripped k-th post starts with the marker (k + 1)/n, and none of its other lines starts with a marker. */
  predicate WellMarked(posts: seq<string>, k: nat)
    requires k < |posts|
  {
    Markers(Strip(posts[k])) == [Mark(0, k + 1, |posts|)]
  }

  function Offset(posts: seq<string>, k: nat): nat
    requires k <= |posts|
    decreases k
  {
    if k == 0 then 0 else Offset(posts, k - 1) + |Block(posts, k - 1)|
  }

  lemma {:induction false} PrintedAt(posts: seq<string>, k: nat)
    requires k <= |posts|
    ensures Offset(posts, k) <= |Printed(posts, 0)| && Printed(posts, 0)[Offset(posts, k)..] == Printed(posts, k)
    decreases k
  {
    hide Block;
    if k > 0 {
      PrintedAt(posts, k - 1);
      var o := Offset(posts, k - 1);
      var rest := Printed(posts, 0)[o..];
      JoinCut(Block(posts, k - 1), Printed(posts, k));
      assert Printed(posts, 0)[Offset(posts, k)..] == rest[|Block(posts, k - 1)|..];
    }
  }

  lemma {:induction false} BlockInText(posts: seq<string>, k: nat)
    requires k < |posts|
    ensures Offset(posts, k) + |Block(posts, k)| == Offset(posts, k + 1) <= |Printed(posts, 0)|
    ensures Printed(posts, 0)[Offset(posts, k)..Offset(posts, k + 1)] == Block(posts, k)
  {
    hide Block;
    PrintedAt(posts, k);
    PrintedAt(posts, k + 1);
    var o := Offset(posts, k);
    JoinCut(Block(posts, k), Printed(posts, k + 1));
    assert Printed(posts, 0)[o..Offset(posts, k + 1)] == Printed(posts, 0)[o..][..|Block(posts, k)|];
  }

  lemma {:induction false} MarkersOfPrinted(posts: seq<string>, k: nat)
    requires k < |posts|
    ensures Markers(Printed(posts, k))
        == Markers(Strip(posts[k])) + Shift(Markers(Printed(posts, k + 1)), |Block(posts, k)|)
  {
    hide MarkersFrom, Strip;
    MarkersOfBlocks(Strip(posts[k]), if k + 1 < |posts| then "\n\n" else "\n", Printed(posts, k + 1));
  }

  /** The mark of the (k + j)-th post, relative to the k-th. */
  predicate MarkOf(posts: seq<string>, k: nat, j: nat, m: Mark)
    requires k + j <= |posts|
  {
    m.start + Offset(posts, k) == Offset(posts, k + j) && m.number == k + j + 1 && m.total == |posts|
  }

  /** All markers from the k-th post on, at the posts' own places. */
  predicate MarksFrom(posts: seq<string>, k: nat)
    requires k <= |posts|
  {
    var marks := Markers(Printed(posts, k));
    && |marks| == |posts| - k
    && forall j | 0 <= j < |marks| :: MarkOf(posts, k, j, marks[j])
  }

  lemma {:induction false} PrintedMarks(posts: seq<string>, k: nat)
    requires k <= |posts| && forall i | k <= i < |posts| :: WellMarked(posts, i)
    ensures MarksFrom(posts, k)
    decreases |posts| - k
  {
    hide MarkersFrom, Strip;
    if k < |posts| {
      PrintedMarks(posts, k + 1);
      MarkersOfPrinted(posts, k);
      var marks, rest := Markers(Printed(posts, k)), Markers(Printed(posts, k + 1));
      assert WellMarked(posts, k);
      assert Offset(posts, k + 1) == Offset(posts, k) + |Block(posts, k)|;
      hide Block, Printed, Offset, Markers;
      forall j | 0 <= j < |marks| ensures MarkOf(posts, k, j, marks[j]) {
        if j > 0 {
          assert marks[j] == Shift(rest, |Block(posts, k)|)[j - 1];
          assert MarkOf(posts, k + 1, j - 1, rest[j - 1]);
        }
      }
    } else {
      NoMarkerInNewlines("", 0);
    }
  }

  /** Parsing the printed thread returns exactly the stripped posts. */
  predicate ParsesBack(posts: seq<string>) {
    var text := Printed(posts, 0);
    && Accepted(text) && |Markers(text)| == |posts|
    && forall k | 0 <= k < |posts| :: Part(text, Markers(text), k) == Strip(posts[k])
  }

  lemma {:induction false} TrimBlock(s: string, newlines: string)
    requires s != "" && s[|s| - 1] != '\n' && (newlines == "\n" || newlines == "\n\n")
    ensures TrimNewlines(s + newlines) == s
  {
    var r := TrimNewlines(s + newlines);
    assert (s + newlines)[|s| - 1] != '\n';
    assert forall i | |s| <= i < |s + newlines| :: (s + newlines)[i] == '\n';
    hide TrimNewlines;
    assert |r| >= |s|;
    assert |r| <= |s|;
    assert (s + newlines)[..|s|] == s;
  }

  lemma {:induction false} MarkedPostNotBlank(posts: seq<string>, k: nat)
    requires k < |posts| && WellMarked(posts, k)
    ensures Strip(posts[k]) != "" && !Blank(Strip(posts[k]))
    ensures !IsSpace(Strip(posts[k])[0]) && !IsSpace(Strip(posts[k])[|Strip(posts[k])| - 1])
  {
    StripIsTrimmed(posts[k]);
    NoMarkerInNewlines("", 0);
  }

  lemma {:induction false} PrintedLength(posts: seq<string>)
    ensures Offset(posts, |posts|) == |Printed(posts, 0)|
  {
    PrintedAt(posts, |posts|);
  }

  lemma {:induction false} WellMarkedPart(posts: seq<string>, k: nat)
    requires k < |posts| && MarksFrom(posts, 0) && WellMarked(posts, k)
    ensures Part(Printed(posts, 0), Markers(Printed(posts, 0)), k) == Strip(posts[k])
  {
    hide MarkersFrom, Strip, IsSpace, Blank;
    var marks := Markers(Printed(posts, 0));
    assert MarkOf(posts, 0, k, marks[k]);
    if k + 1 < |posts| { assert MarkOf(posts, 0, k + 1, marks[k + 1]); }
    PrintedLength(posts);
    BlockInText(posts, k);
    MarkedPostNotBlank(posts, k);
    SpaceNewline();
    TrimBlock(Strip(posts[k]), if k + 1 < |posts| then "\n\n" else "\n");
  }

  lemma {:induction false} SpaceNewline()
    ensures IsSpace('\n')
  {
  }

  lemma {:induction false} WellMarkedParsesBack(posts: seq<string>)
    requires 1 <= |posts| <= 12 && forall k | 0 <= k < |posts| :: WellMarked(posts, k)
    ensures ParsesBack(posts)
  {
    PrintedMarks(posts, 0);
    hide WellMarked, Strip, Printed, MarkersFrom;
    var text := Printed(posts, 0);
    var marks := Markers(text);
    forall k | 0 <= k < |posts|
      ensures marks[k].number == k + 1 && marks[k].total == |posts| && Part(text, marks, k) == Strip(posts[k])
      ensures !Blank(Part(text, marks, k))
    {
      assert MarkOf(posts, 0, k, marks[k]);
      WellMarkedPart(posts, k);
      MarkedPostNotBlank(posts, k);
    }
    assert MarkOf(posts, 0, 0, marks[0]);
  }

  // --- and back ---

  lemma {:induction false} BlockChars(posts: seq<string>, k: nat, i: nat)
    requires k < |posts| && Offset(posts, k) <= i < Offset(posts, k + 1)
    ensures Offset(posts, k + 1) == Offset(posts, k) + |Block(posts, k)| <= |Printed(posts, 0)|
    ensures Printed(posts, 0)[i] == Block(posts, k)[i - Offset(posts, k)]
  {
    hide Block;
    BlockInText(posts, k);
    assert Printed(posts, 0)[Offset(posts, k)..Offset(posts, k + 1)][i - Offset(posts, k)] == Printed(posts, 0)[i];
  }

  /** The text at a post's place is the post's first character, which is not whitespace. */
  lemma {:induction false} PostStart(posts: seq<string>, k: nat)
    requires k < |posts| && Strip(posts[k]) != ""
    ensures Offset(posts, k) < |Printed(posts, 0)| && !IsSpace(Printed(posts, 0)[Offset(posts, k)])
  {
    StripIsTrimmed(posts[k]);
    assert |Block(posts, k)| > 0 && Block(posts, k)[0] == Strip(posts[k])[0];
    hide Strip, IsSpace, Block, Printed;
    BlockChars(posts, k, Offset(posts, k));
  }

  lemma {:induction false} BlankPrefix(text: string, k: nat)
    requires k <= |text|
    ensures k > 0 && Blank(text[..k]) ==> IsSpace(text[0])
  {
    hide IsSpace;
    if k > 0 && Blank(text[..k]) { assert text[..k][0] == text[0]; }
  }

  lemma {:induction false} FirstStart(posts: seq<string>)
    requires ParsesBack(posts)
    ensures |posts| > 0 && Markers(Printed(posts, 0))[0].start == 0
  {
    hide MarkersFrom, Strip, IsSpace;
    var text := Printed(posts, 0);
    PartShape(text, 0);
    PostStart(posts, 0);
    BlankPrefix(text, Markers(text)[0].start);
  }

  /** Two positions that each end the same run of newlines are one. */
  lemma {:induction false} RunEnd(text: string, from: nat, a: nat, b: nat)
    requires from <= a < |text| && from <= b < |text| && text[a] != '\n' && text[b] != '\n'
    requires (forall i | from <= i < a :: text[i] == '\n') && (forall i | from <= i < b :: text[i] == '\n')
    ensures a == b
  {
  }

  lemma {:induction false} BlockTail(posts: seq<string>, k: nat, j: nat)
    requires k < |posts| && |Strip(posts[k])| <= j < |Block(posts, k)|
    ensures Block(posts, k)[j] == '\n'
  {
    hide Strip;
  }

  lemma {:induction false} NewlinesAfterPost(posts: seq<string>, k: nat)
    requires k < |posts|
    ensures Offset(posts, k) + |Strip(posts[k])| <= Offset(posts, k + 1) <= |Printed(posts, 0)|
    ensures forall i | Offset(posts, k) + |Strip(posts[k])| <= i < Offset(posts, k + 1) :: Printed(posts, 0)[i] == '\n'
  {
    BlockInText(posts, k);
    assert |Block(posts, k)| >= |Strip(posts[k])|;
    hide Printed, Strip, Block, Offset;
    forall i | Offset(posts, k) + |Strip(posts[k])| <= i < Offset(posts, k + 1)
      ensures Printed(posts, 0)[i] == '\n'
    {
      BlockChars(posts, k, i);
      BlockTail(posts, k, i - Offset(posts, k));
    }
  }

  /** The k-th part exists and is the k-th post, which is not blank. */
  predicate PartIs(posts: seq<string>, k: nat)
    requires k < |posts|
  {
    && k < |Markers(Printed(posts, 0))| && Strip(posts[k]) != ""
    && Part(Printed(posts, 0), Markers(Printed(posts, 0)), k) == Strip(posts[k])
  }

  predicate StartIs(posts: seq<string>, k: nat)
    requires k < |posts|
  {
    k < |Markers(Printed(posts, 0))| && Markers(Printed(posts, 0))[k].start == Offset(posts, k)
  }

  lemma {:induction false} PartAndPost(posts: seq<string>, k: nat)
    requires k < |posts| && ParsesBack(posts)
    ensures PartIs(posts, k)
  {
    PartShape(Printed(posts, 0), k);
    hide Part, Printed, Markers, Strip;
  }

  /** Where the next marker can stand, given its predecessor's place: after the part and only newlines. */
  lemma {:induction false} AfterPart(s: string, k: nat)
    requires 0 < k < |Markers(s)|
    ensures var marks, p := Markers(s), Part(s, Markers(s), k - 1);
            && marks[k - 1].start + |p| <= marks[k].start < |s| && s[marks[k].start] != '\n'
            && forall i | marks[k - 1].start + |p| <= i < marks[k].start :: s[i] == '\n'
  {
    PartShape(s, k - 1);
    PartShape(s, k);
    MarkersInText(s);
    hide Markers, Part;
    assert s[Markers(s)[k].start] == Part(s, Markers(s), k)[0];
  }

  /** The next marker stands right after the two newlines that follow a post. */
  lemma {:induction false} NextStart(posts: seq<string>, k: nat)
    requires 0 < k < |posts| && PartIs(posts, k - 1) && PartIs(posts, k) && StartIs(posts, k - 1)
    ensures StartIs(posts, k)
  {
    hide Markers, Printed, Strip, Part, Offset, IsSpace;
    AfterPart(Printed(posts, 0), k);
    PostStart(posts, k);
    NewlinesAfterPost(posts, k - 1);
    assert Printed(posts, 0)[Offset(posts, k)] != '\n' by { SpaceNewline(); }
    RunEnd(Printed(posts, 0), Offset(posts, k - 1) + |Strip(posts[k - 1])|, Markers(Printed(posts, 0))[k].start,
      Offset(posts, k));
  }

  lemma {:induction false} StartsAreOffsets(posts: seq<string>, k: nat)
    requires k < |posts| && (forall j | 0 <= j < |posts| :: PartIs(posts, j))
    requires StartIs(posts, 0)
    ensures StartIs(posts, k)
    decreases k
  {
    hide *;
    if k > 0 {
      StartsAreOffsets(posts, k - 1);
      assert PartIs(posts, k - 1) && PartIs(posts, k);
      NextStart(posts, k);
    }
  }

  lemma {:induction false} ParsedMarks(posts: seq<string>)
    requires ParsesBack(posts)
    ensures MarksFrom(posts, 0)
  {
    hide MarkersFrom, Strip, Printed, PartIs, Part;
    FirstStart(posts);
    var marks := Markers(Printed(posts, 0));
    forall j | 0 <= j < |posts| ensures PartIs(posts, j) { PartAndPost(posts, j); }
    forall j | 0 <= j < |marks| ensures MarkOf(posts, 0, j, marks[j]) { StartsAreOffsets(posts, j); }
  }

  /** Marks below a width, then marks from it on: if only the first of all is below it, there is one of the former. */
  lemma {:induction false} OneBelow(own: seq<Mark>, rest: seq<Mark>, width: nat)
    requires own + rest != [] && (own + rest)[0].start < width
    requires |own + rest| > 1 ==> (own + rest)[1].start >= width
    requires (forall i | 0 <= i < |own| :: own[i].start < width)
        && (forall i | 0 <= i < |rest| :: rest[i].start >= width)
    ensures |own| == 1
  {
    if own == [] { assert false; }
    if |own| > 1 { assert false; }
  }

  /** If the markers from the k-th post on stand at the posts' places, the k-th post has its one marker. */
  lemma {:induction false} MarksSplit(posts: seq<string>, k: nat)
    requires k < |posts| && MarksFrom(posts, k)
    ensures WellMarked(posts, k) && MarksFrom(posts, k + 1)
  {
    MarkersOfPrinted(posts, k);
    var s := Strip(posts[k]);
    var own, marks, rest := Markers(s), Markers(Printed(posts, k)), Markers(Printed(posts, k + 1));
    var width := |Block(posts, k)|;
    assert width > |s| && Offset(posts, k + 1) == Offset(posts, k) + width;
    MarkersAscend(s, 0);
    hide MarkersFrom, Strip, Printed, Block, Offset, Markers;
    assert MarkOf(posts, k, 0, marks[0]);
    if |marks| > 1 { assert MarkOf(posts, k, 1, marks[1]); }
    OneBelow(own, Shift(rest, width), width);
    assert own == [marks[0]];
    forall j | 0 <= j < |rest| ensures MarkOf(posts, k + 1, j, rest[j]) {
      assert marks[j + 1] == Shift(rest, width)[j];
      assert MarkOf(posts, k, j + 1, marks[j + 1]);
    }
  }

  lemma {:induction false} AllMarked(posts: seq<string>, k: nat, i: nat)
    requires k <= i < |posts| && MarksFrom(posts, k)
    ensures WellMarked(posts, i)
    decreases i - k
  {
    hide MarksFrom, WellMarked;
    MarksSplit(posts, k);
    if k < i { AllMarked(posts, k + 1, i); }
  }

  /** Printing and parsing return exactly the stripped posts, if and only if each post starts with its marker i/n and no
      other line of any post starts with a marker. */
  lemma {:induction false} RoundTrip(posts: seq<string>)
    requires 1 <= |posts| <= 12
    ensures ParsesBack(posts) <==> forall k | 0 <= k < |posts| :: WellMarked(posts, k)
  {
    hide WellMarked, MarksFrom;
    if ParsesBack(posts) {
      ParsedMarks(posts);
      forall k | 0 <= k < |posts| ensures WellMarked(posts, k) { AllMarked(posts, 0, k); }
    } else if forall k | 0 <= k < |posts| :: WellMarked(posts, k) {
      WellMarkedParsesBack(posts);
    }
  }
}
