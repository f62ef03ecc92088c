/** What a focused excerpt shows, said of the text, its matches and the bound alone. */
module ExcerptShape {
  import opened AsciiExcerpts
  import opened FocusWindows
  import opened Slices
  import opened Spans
  import opened Utf8

  // --- the bytes that the selected matches need ---

  /** The matched pieces, joined, take exactly the bytes that the selection is charged for. */
  lemma {:induction false} RequiredIsJoinedSize(text: string, spans: seq<Span>)
    requires Separated(spans, |text|) && spans != []
    ensures Ordered(spans, |text|)
    ensures Required(ByteSpans(text, spans)) == Size(Join(Pieces(text, spans)))
    decreases |spans|
  {
    SeparatedIsOrdered(text, spans);
    var last := |spans| - 1;
    var front, s := spans[..last], spans[last];
    SeparatedFront(text, spans);
    assert ByteSpans(text, spans) == ByteSpans(text, front) + [ByteSpan(text, s)];
    assert Pieces(text, spans) == Pieces(text, front) + [text[s.lo..s.hi]];
    var bytes, pieces := ByteSpans(text, front), Pieces(text, front);
    if last == 0 {
      assert bytes == [] && pieces == [];
    } else {
      RequiredIsJoinedSize(text, front);
    }
    hide *;
    OneMoreRequired(text, bytes, pieces, s);
  }

  lemma {:induction false} OneMoreRequired(text: string, bytes: seq<Span>, pieces: seq<string>, s: Span)
    requires s.lo < s.hi <= |text| && |bytes| == |pieces|
    requires bytes != [] ==> Required(bytes) == Size(Join(pieces))
    ensures Required(bytes + [ByteSpan(text, s)]) == Size(Join(pieces + [text[s.lo..s.hi]]))
  {
    EncodedSlice(text, s.lo, s.hi);
    WidthsSnoc(bytes, ByteSpan(text, s));
    hide Encode, Widths, Offset;
    if bytes == [] {
      assert pieces + [text[s.lo..s.hi]] == [text[s.lo..s.hi]];
      NoWidth();
    } else {
      hide Join;
      JoinOneMore(pieces, text[s.lo..s.hi]);
    }
  }

  lemma {:induction false} NoWidth()
    ensures Widths([]) == 0
  {
  }

  lemma {:induction false} JoinOneMore(parts: seq<string>, part: string)
    requires parts != []
    ensures Size(Join(parts + [part])) == Size(Join(parts)) + SEPARATOR_BYTES + Size(part)
  {
    hide Encode;
    JoinCut(parts, [part]);
    SeparatorSize();
    SizeOfConcat(Join(parts), SEPARATOR);
    SizeOfConcat(Join(parts) + SEPARATOR, part);
  }

  lemma {:induction false} SeparatedFront(text: string, spans: seq<Span>)
    requires Separated(spans, |text|) && spans != []
    ensures Separated(spans[..|spans| - 1], |text|)
  {
  }

  lemma {:induction false} SeparatedIsOrdered(text: string, spans: seq<Span>)
    requires Separated(spans, |text|)
    ensures Ordered(spans, |text|)
    decreases |spans|
  {
    if spans != [] { SeparatedIsOrdered(text, spans[..|spans| - 1]); }
  }

  // --- one window ---

  /** The range of the given width that is centred on the match, moved as little as needed to lie in the text. */
  function Centred(lo: nat, hi: nat, context: nat, length: nat): Span
    requires lo <= hi <= length
  {
    var width := Min(length, hi - lo + context);
    var start: int := lo - context / 2;
    if start < 0 then Span(0, width)
    else if start > length - width then Span(length - width, length)
    else Span(start, start + width)
  }

  /** Clipping and borrowing amount to moving the centred range. */
  lemma {:induction false} WidenIsCentred(focus: Span, context: nat, length: nat)
    requires focus.lo <= focus.hi <= length
    ensures Widen(focus, context, length) == Centred(focus.lo, focus.hi, context, length)
  {
  }

  // --- fusing ranges one after the other ---

  /** No range ends before an earlier one starts. */
  predicate Onward(ranges: seq<Span>) {
    forall i, j | 0 <= i < j < |ranges| :: ranges[i].lo < ranges[j].hi
  }

  /** The k-th range starts before an earlier one, in front of which the ranges so far show nothing. */
  predicate ReachesBack(ranges: seq<Span>, k: nat)
    requires k < |ranges|
  {
    exists i | 0 <= i < k :: ranges[k].lo < ranges[i].lo && !Covered(ranges[..k], ranges[i].lo - 1)
  }

  /** Fusing covers nothing beyond the ranges, and ends with the furthest of them. */
  lemma {:induction false} FusedIsWithin(ranges: seq<Span>, k: nat, limit: nat, p: nat)
    requires NonEmptyWithin(ranges, limit) && k <= |ranges|
    ensures WellFormed(MergedPrefix(ranges, k), limit)
    ensures Covered(MergedPrefix(ranges, k), p) ==> Covered(ranges[..k], p)
    ensures k > 0 ==> MergedPrefix(ranges, k) != []
    decreases k
  {
    MergedPrefixIsSeparated(ranges, k, limit);
    if k > 0 {
      FusedIsWithin(ranges, k - 1, limit, p);
      TakeSnoc(ranges, k);
      hide Covers, WellFormed;
      CoveredSnoc(ranges[..k - 1], ranges[k - 1], p);
      AbsorbWithin(MergedPrefix(ranges, k - 1), ranges[k - 1], p);
    }
  }

  lemma {:induction false} AbsorbWithin(spans: seq<Span>, s: Span, p: nat)
    ensures Covered(Absorb(spans, s), p) ==> Covered(spans, p) || Covers(s, p)
  {
    var r, last := Absorb(spans, s), |spans| - 1;
    if i :| 0 <= i < |r| && Covers(r[i], p) {
      if spans == [] || s.lo > spans[last].hi {
        if i <= last { assert spans[i] == r[i]; }
      } else {
        if i < last { assert spans[i] == r[i]; } else { assert Covers(spans[last], p) || Covers(s, p); }
      }
    }
  }

  /** A range that starts no earlier than the last span is covered with it; one that starts earlier loses the positions
      in front of it. */
  lemma {:induction false} AbsorbKeeps(spans: seq<Span>, s: Span, p: nat)
    requires Covered(spans, p) || (Covers(s, p) && (spans != [] ==> spans[|spans| - 1].lo <= p))
    ensures Covered(Absorb(spans, s), p)
  {
    var r, last := Absorb(spans, s), |spans| - 1;
    if spans == [] || s.lo > spans[last].hi {
      assert r[|spans|] == s && forall i | 0 <= i <= last :: r[i] == spans[i];
    } else {
      assert r[last] == Span(spans[last].lo, Max(spans[last].hi, s.hi)) && forall i | 0 <= i < last :: r[i] == spans[i];
    }
  }

  /** Nothing covers the position in front of a span of a separated list. */
  lemma {:induction false} GapBefore(spans: seq<Span>, limit: nat, k: nat)
    requires WellFormed(spans, limit) && k < |spans| && spans[k].lo > 0
    ensures !Covered(spans, spans[k].lo - 1)
  {
    WellFormedIsSeparated(spans, limit);
  }

  lemma {:induction false} AbsorbLeaves(spans: seq<Span>, s: Span, limit: nat, p: nat)
    requires WellFormed(spans, limit) && spans != [] && p < spans[|spans| - 1].lo && !Covered(spans, p)
    ensures var r := Absorb(spans, s); p < r[|r| - 1].lo && !Covered(r, p)
  {
    var r, last := Absorb(spans, s), |spans| - 1;
    assert spans[last].lo < spans[last].hi;
    hide WellFormed;
    forall i | 0 <= i < |r| ensures !Covers(r[i], p) {
      if i < last { assert r[i] == spans[i] && !Covers(spans[i], p); }
      else if s.lo > spans[last].hi && i == last { assert r[i] == spans[i]; }
    }
  }

  /** A position in front of the last span stays uncovered. */
  lemma {:induction false} UncoveredStays(ranges: seq<Span>, k: nat, n: nat, limit: nat, p: nat)
    requires NonEmptyWithin(ranges, limit) && k <= n <= |ranges|
    requires MergedPrefix(ranges, k) != [] && p < MergedPrefix(ranges, k)[|MergedPrefix(ranges, k)| - 1].lo
    requires !Covered(MergedPrefix(ranges, k), p)
    ensures MergedPrefix(ranges, n) != [] && p < MergedPrefix(ranges, n)[|MergedPrefix(ranges, n)| - 1].lo
    ensures !Covered(MergedPrefix(ranges, n), p)
    decreases n
  {
    hide Covered, Absorb;
    if k < n {
      UncoveredStays(ranges, k, n - 1, limit, p);
      MergedPrefixIsSeparated(ranges, n - 1, limit);
      AbsorbLeaves(MergedPrefix(ranges, n - 1), ranges[n - 1], limit, p);
    }
  }

  lemma {:induction false} ReachesBackAt(ranges: seq<Span>, k: nat, limit: nat, i: nat, p: nat)
    requires i < k < |ranges| && WellFormed(MergedPrefix(ranges, k), limit) && MergedPrefix(ranges, k) != []
    requires var m := MergedPrefix(ranges, k); ranges[i].lo == m[|m| - 1].lo && p < m[|m| - 1].lo
    requires Covers(ranges[k], p)
    requires Covered(ranges[..k], ranges[i].lo - 1) ==> Covered(MergedPrefix(ranges, k), ranges[i].lo - 1)
    ensures ReachesBack(ranges, k)
  {
    var m := MergedPrefix(ranges, k);
    GapBefore(m, limit, |m| - 1);
    hide Covered, WellFormed, MergedPrefix;
  }

  lemma {:induction false} FusedCoversStep(ranges: seq<Span>, k: nat, limit: nat, p: nat)
    requires NonEmptyWithin(ranges, limit) && k < |ranges| && !ReachesBack(ranges, k) && Covers(ranges[k], p)
    requires forall q: nat :: Covered(MergedPrefix(ranges, k), q) <==> Covered(ranges[..k], q)
    ensures Covered(MergedPrefix(ranges, k + 1), p)
  {
    var m := MergedPrefix(ranges, k);
    MergedPrefixIsSeparated(ranges, k, limit);
    hide Covered, WellFormed, ReachesBack, Covers, Absorb;
    if k > 0 {
      LastStartsWithRange(ranges, k, limit);
      if p < m[|m| - 1].lo {
        var i :| 0 <= i < k && ranges[i].lo == m[|m| - 1].lo;
        ReachesBackAt(ranges, k, limit, i, p);
      }
    }
    AbsorbKeeps(m, ranges[k], p);
  }

  lemma {:induction false} FusedCoversAt(ranges: seq<Span>, k: nat, limit: nat, p: nat)
    requires NonEmptyWithin(ranges, limit) && k < |ranges| && !ReachesBack(ranges, k)
    requires forall q: nat :: Covered(MergedPrefix(ranges, k), q) <==> Covered(ranges[..k], q)
    ensures Covered(MergedPrefix(ranges, k + 1), p) <==> Covered(ranges[..k + 1], p)
  {
    TakeSnoc(ranges, k + 1);
    assert MergedPrefix(ranges, k + 1) == Absorb(MergedPrefix(ranges, k), ranges[k]);
    hide Covered, Covers, ReachesBack, NonEmptyWithin, MergedPrefix, Absorb;
    CoveredSnoc(ranges[..k], ranges[k], p);
    FusedIsWithin(ranges, k + 1, limit, p);
    if Covers(ranges[k], p) {
      FusedCoversStep(ranges, k, limit, p);
    } else {
      AbsorbKeepsOld(MergedPrefix(ranges, k), ranges[k], p);
    }
  }

  /** As long as no range reaches back, fusing covers exactly the ranges. */
  lemma {:induction false} FusedCovers(ranges: seq<Span>, k: nat, limit: nat)
    requires NonEmptyWithin(ranges, limit) && k <= |ranges|
    requires forall j | 0 <= j < k :: !ReachesBack(ranges, j)
    ensures forall p: nat :: Covered(MergedPrefix(ranges, k), p) <==> Covered(ranges[..k], p)
    decreases k
  {
    if k == 0 {
      assert ranges[..0] == [];
    } else {
      hide Covered, ReachesBack, NonEmptyWithin, MergedPrefix;
      FusedCovers(ranges, k - 1, limit);
      forall p: nat ensures Covered(MergedPrefix(ranges, k), p) <==> Covered(ranges[..k], p) {
        FusedCoversAt(ranges, k - 1, limit, p);
      }
    }
  }

  lemma {:induction false} AbsorbKeepsOld(spans: seq<Span>, s: Span, p: nat)
    ensures Covered(spans, p) ==> Covered(Absorb(spans, s), p)
  {
    if Covered(spans, p) { AbsorbKeeps(spans, s, p); }
  }

  /** The last span starts where one of the ranges does. */
  lemma {:induction false} LastStartsWithRange(ranges: seq<Span>, k: nat, limit: nat)
    requires 0 < k <= |ranges|
    ensures MergedPrefix(ranges, k) != []
    ensures exists i :: 0 <= i < k && ranges[i].lo == MergedPrefix(ranges, k)[|MergedPrefix(ranges, k)| - 1].lo
    decreases k
  {
    if k > 1 { LastStartsWithRange(ranges, k - 1, limit); }
  }

  /** The first range that reaches back loses the position in front of the span it is fused with. */
  lemma {:induction false} FusedLoses(ranges: seq<Span>, k: nat, limit: nat) returns (p: nat)
    requires NonEmptyWithin(ranges, limit) && Onward(ranges) && k < |ranges| && ReachesBack(ranges, k)
    requires forall j | 0 <= j < k :: !ReachesBack(ranges, j)
    ensures Covered(ranges, p) && !Covered(MergedPrefix(ranges, |ranges|), p)
  {
    var i :| 0 <= i < k && ranges[k].lo < ranges[i].lo && !Covered(ranges[..k], ranges[i].lo - 1);
    p := ranges[i].lo - 1;
    assert Covers(ranges[k], p);
    FusedIsWithin(ranges, k, limit, p);
    var m := MergedPrefix(ranges, k);
    assert p < m[|m| - 1].lo by { LastIsBeyond(ranges, k, limit, i); }
    UncoveredStays(ranges, k, |ranges|, limit, p);
  }

  /** A position in front of a range that is not covered lies in front of the last span. */
  lemma {:induction false} LastIsBeyond(ranges: seq<Span>, k: nat, limit: nat, i: nat)
    requires NonEmptyWithin(ranges, limit) && Onward(ranges) && i < k <= |ranges| && 0 < ranges[i].lo
    requires (forall j | 0 <= j < k :: !ReachesBack(ranges, j)) && !Covered(MergedPrefix(ranges, k), ranges[i].lo - 1)
    ensures MergedPrefix(ranges, k) != []
    ensures ranges[i].lo - 1 < MergedPrefix(ranges, k)[|MergedPrefix(ranges, k)| - 1].lo
  {
    var m, p := MergedPrefix(ranges, k), ranges[i].lo;
    FusedIsWithin(ranges, k, limit, p);
    assert Covers(ranges[..k][i], p);
    FusedCovers(ranges, k, limit);
    var j :| 0 <= j < |m| && Covers(m[j], p);
    WellFormedIsSeparated(m, limit);
    assert !Covers(m[|m| - 1], p - 1);
    if j < |m| - 1 { assert m[j].hi < m[|m| - 1].lo; }
  }

  /** Fusing keeps every position of every range exactly if no range reaches back. */
  lemma {:induction false} FusedKeepsIff(ranges: seq<Span>, limit: nat)
    requires NonEmptyWithin(ranges, limit) && Onward(ranges)
    ensures (forall p | Covered(ranges, p) :: Covered(MergedPrefix(ranges, |ranges|), p))
       <==> forall k | 0 <= k < |ranges| :: !ReachesBack(ranges, k)
  {
    TakeAll(ranges);
    if forall k | 0 <= k < |ranges| :: !ReachesBack(ranges, k) {
      FusedCovers(ranges, |ranges|, limit);
    } else {
      var k := FirstBack(ranges, |ranges|);
      var p := FusedLoses(ranges, k, limit);
    }
  }

  lemma {:induction false} FirstBack(ranges: seq<Span>, n: nat) returns (k: nat)
    requires n <= |ranges| && exists j :: 0 <= j < n && ReachesBack(ranges, j)
    ensures k < n && ReachesBack(ranges, k) && forall j | 0 <= j < k :: !ReachesBack(ranges, j)
    decreases n
  {
    if exists j :: 0 <= j < n - 1 && ReachesBack(ranges, j) { k := FirstBack(ranges, n - 1); } else { k := n - 1; }
  }

  // --- the windows of the selected matches ---

  /** The i-th of n shares of `rest` bytes, the first ones a byte larger. */
  function ShareOf(rest: nat, n: nat, i: nat): nat
    requires i < n
  {
    rest / n + if i < rest % n then 1 else 0
  }

  /** The range that each match would be shown with on its own. */
  function Ranges(focus: seq<Span>, rest: nat, length: nat): (r: seq<Span>)
    requires Separated(focus, length)
    ensures |r| == |focus|
    ensures forall i | 0 <= i < |r| ::
              r[i] == Centred(focus[i].lo, focus[i].hi, ShareOf(rest, |focus|, i), length)
  {
    seq(|focus|, i requires 0 <= i < |focus| =>
      Centred(focus[i].lo, focus[i].hi, ShareOf(rest, |focus|, i), length))
  }

  lemma {:induction false} RangesAreOnward(focus: seq<Span>, rest: nat, length: nat)
    requires Separated(focus, length)
    ensures NonEmptyWithin(Ranges(focus, rest, length), length) && Onward(Ranges(focus, rest, length))
    ensures forall i | 0 <= i < |focus| :: Within(focus[i], Ranges(focus, rest, length)[i])
  {
    forall i | 0 <= i < |focus|
      ensures var r := Ranges(focus, rest, length)[i]; Within(focus[i], r) && r.lo < r.hi <= length
    {
      hide ShareOf;
    }
  }

  lemma {:induction false} WindowsAreFused(focus: seq<Span>, rest: nat, length: nat, k: nat)
    requires Separated(focus, length) && focus != [] && k <= |focus|
    ensures WindowsPrefix(focus, rest / |focus|, rest % |focus|, length, k)
        == MergedPrefix(Ranges(focus, rest, length), k)
    decreases k
  {
    hide Absorb, Widen, Centred;
    if k > 0 {
      WindowsAreFused(focus, rest, length, k - 1);
      WidenIsCentred(focus[k - 1], ShareOf(rest, |focus|, k - 1), length);
    }
  }

  // --- the excerpt ---

  /** The n selected matches on their own, joined. */
  function JoinedMatches(text: string, spans: seq<Span>, n: nat): string
    requires WellFormed(spans, |text|) && 1 <= n <= |spans|
  {
    WellFormedIsSeparated(spans, |text|);
    DistributedIsSeparated(spans, n, |text|);
    SeparatedIsOrdered(text, Distributed(spans, n));
    Join(Pieces(text, Distributed(spans, n)))
  }

  /** n is the largest number of matches, at most 8, that fit the bound on their own. */
  predicate MostThatFit(text: string, spans: seq<Span>, n: nat, maxBytes: nat)
    requires WellFormed(spans, |text|)
  {
    && 1 <= n <= Min(|spans|, 8) && Size(JoinedMatches(text, spans, n)) <= maxBytes
    && forall m | n < m <= Min(|spans|, 8) :: Size(JoinedMatches(text, spans, m)) > maxBytes
  }

  lemma {:induction false} FitsIffJoinedFit(text: string, spans: seq<Span>, n: nat, maxBytes: nat)
    requires WellFormed(spans, |text|) && 1 <= n <= |spans|
    ensures Required(SelectionBytes(text, spans, n)) == Size(JoinedMatches(text, spans, n))
    ensures Fits(text, spans, n, maxBytes) <==> Size(JoinedMatches(text, spans, n)) <= maxBytes
  {
    WellFormedIsSeparated(spans, |text|);
    DistributedIsSeparated(spans, n, |text|);
    RequiredIsJoinedSize(text, Distributed(spans, n));
  }

  lemma {:induction false} MostIsSelected(text: string, spans: seq<Span>, n: nat, maxBytes: nat)
    requires WellFormed(spans, |text|) && MostThatFit(text, spans, n, maxBytes)
    ensures SelectedCount(text, spans, Min(|spans|, MAX_FOCUSED_WINDOWS), maxBytes) == n
  {
    hide Fits, JoinedMatches, WellFormed;
    var top := Min(|spans|, MAX_FOCUSED_WINDOWS);
    var k := SelectedCount(text, spans, top, maxBytes);
    FitsIffJoinedFit(text, spans, n, maxBytes);
    SelectedCountIsLargest(text, spans, top, maxBytes, n);
    if n < k {
      FitsIffJoinedFit(text, spans, k, maxBytes);
      SelectedCountIsLargest(text, spans, top, maxBytes, k);
    }
  }

  /** The ranges of the n selected matches: the bytes that they leave of the bound are shared out, and each match is
      centred in its own width and its share. */
  function MatchRanges(text: string, spans: seq<Span>, n: nat, maxBytes: nat): (r: seq<Span>)
    requires WellFormed(spans, |text|) && 1 <= n <= |spans| && Size(JoinedMatches(text, spans, n)) <= maxBytes
    ensures |r| == n && NonEmptyWithin(r, Size(text)) && Onward(r)
  {
    WellFormedIsSeparated(spans, |text|);
    DistributedIsSeparated(spans, n, |text|);
    ByteSpansAreSeparated(text, Distributed(spans, n));
    var bytes := ByteSpans(text, Distributed(spans, n));
    var rest := maxBytes - Size(JoinedMatches(text, spans, n));
    RangesAreOnward(bytes, rest, Size(text));
    Ranges(bytes, rest, Size(text))
  }

  lemma {:induction false} SharedAreFused(focus: seq<Span>, length: nat, maxBytes: nat)
    requires Separated(focus, length) && focus != [] && Required(focus) <= maxBytes
    ensures SharedWindows(focus, length, maxBytes)
         == MergedPrefix(Ranges(focus, maxBytes - Required(focus), length), |focus|)
  {
    hide Required, WindowsPrefix, Ranges, MergedPrefix;
    WindowsAreFused(focus, maxBytes - Required(focus), length, |focus|);
  }

  lemma {:induction false} MatchRangesAre(text: string, spans: seq<Span>, n: nat, maxBytes: nat)
    requires WellFormed(spans, |text|) && 1 <= n <= |spans| && Size(JoinedMatches(text, spans, n)) <= maxBytes
    requires Required(SelectionBytes(text, spans, n)) == Size(JoinedMatches(text, spans, n))
    requires Separated(SelectionBytes(text, spans, n), Size(text))
    ensures MatchRanges(text, spans, n, maxBytes)
         == Ranges(SelectionBytes(text, spans, n), maxBytes - Required(SelectionBytes(text, spans, n)), Size(text))
  {
    hide JoinedMatches, Required, Ranges, Distributed, WellFormed, Encode, ByteSpans, Separated;
  }

  lemma {:induction false} WindowsFuseRanges(text: string, spans: seq<Span>, n: nat, maxBytes: nat)
    requires WellFormed(spans, |text|) && 1 <= n <= |spans| && Size(JoinedMatches(text, spans, n)) <= maxBytes
    ensures Fits(text, spans, n, maxBytes)
    ensures Windows(text, spans, n, maxBytes) == MergedPrefix(MatchRanges(text, spans, n, maxBytes), n)
  {
    hide MatchRanges, SharedWindows, JoinedMatches, Required, Ranges, SelectionBytes, MergedPrefix, Encode, Fits;
    FitsIffJoinedFit(text, spans, n, maxBytes);
    var bytes := SelectionBytes(text, spans, n);
    SelectionIsWellFormed(text, spans, n);
    WellFormedIsSeparated(bytes, Size(text));
    hide WellFormed, Separated;
    assert Required(bytes) <= maxBytes;
    SharedAreFused(bytes, Size(text), maxBytes);
    MatchRangesAre(text, spans, n, maxBytes);
  }

  lemma {:induction false} JoinIsAsLong(parts: seq<string>, i: nat)
    requires i < |parts|
    ensures |Join(parts)| >= |parts[i]|
    decreases |parts|
  {
    if i < |parts| - 1 { JoinIsAsLong(parts[..|parts| - 1], i); }
  }

  lemma {:induction false} SnippetAt(text: string, windows: seq<Span>, i: nat)
    requires WellFormed(windows, Size(text)) && i < |windows|
    ensures windows[i].lo <= windows[i].hi <= Size(text) && Snippets(text, windows)[i] == Snippet(text, windows[i])
    decreases |windows|
  {
    hide Snippet;
    if i < |windows| - 1 { SnippetAt(text, windows[..|windows| - 1], i); }
  }

  /** An excerpt with a shown match is not empty. */
  lemma {:induction false} ShownMatchIsText(text: string, windows: seq<Span>, s: Span)
    requires WellFormed(windows, Size(text)) && s.lo < s.hi <= |text| && Holds(windows, ByteSpan(text, s))
    ensures Join(Snippets(text, windows)) != ""
  {
    hide Join, Snippets, WellFormed;
    var i := HeldIn(windows, ByteSpan(text, s));
    SnippetAt(text, windows, i);
    WindowShows(text, windows[i]);
    MatchIsShown(text, windows[i], s);
    JoinIsAsLong(Snippets(text, windows), i);
  }

  lemma {:induction false} HeldIn(windows: seq<Span>, focus: Span) returns (i: nat)
    requires Holds(windows, focus)
    ensures i < |windows| && Within(focus, windows[i])
    decreases |windows|
  {
    var last := |windows| - 1;
    if Within(focus, windows[last]) { i := last; } else { i := HeldIn(windows[..last], focus); }
  }

  /** A text over the bound is shown by fusing the ranges of the matches, as many as fit. */
  lemma {:induction false} ExcerptFusesRanges(text: string, spans: seq<Span>, n: nat, maxBytes: nat)
    requires WellFormed(spans, |text|) && MostThatFit(text, spans, n, maxBytes) && Size(text) > maxBytes
    ensures var windows := MergedPrefix(MatchRanges(text, spans, n, maxBytes), n);
            && WellFormed(windows, Size(text))
            && FocusedTruncate(text, maxBytes, spans) == Join(Snippets(text, windows))
            && HoldsFirst(ShownRanges(text, windows), Distributed(spans, n), n)
  {
    MostIsSelected(text, spans, n, maxBytes);
    WindowsFuseRanges(text, spans, n, maxBytes);
    FocusedShowsMatches(text, spans, n, maxBytes);
    NotEmpty(text, spans, n, maxBytes);
    ExcerptIsFocused(text, spans, n, maxBytes);
    hide *;
  }

  lemma {:induction false} ExcerptIsFocused(text: string, spans: seq<Span>, n: nat, maxBytes: nat)
    requires WellFormed(spans, |text|) && 1 <= n <= |spans| && Fits(text, spans, n, maxBytes) && Size(text) > maxBytes
    requires SelectedCount(text, spans, Min(|spans|, MAX_FOCUSED_WINDOWS), maxBytes) == n
    requires Join(Snippets(text, Windows(text, spans, n, maxBytes))) != ""
    ensures FocusedTruncate(text, maxBytes, spans) == Join(Snippets(text, Windows(text, spans, n, maxBytes)))
  {
    hide SelectedCount, Windows, WellFormed, Fits, Join, Snippets, Encode;
  }

  lemma {:induction false} NotEmpty(text: string, spans: seq<Span>, n: nat, maxBytes: nat)
    requires WellFormed(spans, |text|) && 1 <= n <= |spans| && Fits(text, spans, n, maxBytes)
    ensures Join(Snippets(text, Windows(text, spans, n, maxBytes))) != ""
  {
    WellFormedIsSeparated(spans, |text|);
    DistributedIsSeparated(spans, n, |text|);
    var windows := Windows(text, spans, n, maxBytes);
    assert HoldsFirst(windows, ByteSpans(text, Distributed(spans, n)), n);
    hide Windows, Join, Snippets, Distributed, WellFormed, Holds;
    ShownMatchIsText(text, windows, Distributed(spans, n)[n - 1]);
  }

  /** The excerpt shows nothing outside the ranges; and all of every range, exactly if no range reaches back before the
      start of an earlier one. */
  lemma {:induction false} RangesShownIff(text: string, spans: seq<Span>, n: nat, maxBytes: nat)
    requires WellFormed(spans, |text|) && MostThatFit(text, spans, n, maxBytes)
    ensures var ranges := MatchRanges(text, spans, n, maxBytes);
            var windows := MergedPrefix(ranges, n);
            && (forall p | Covered(windows, p) :: Covered(ranges, p))
            && ((forall p | Covered(ranges, p) :: Covered(windows, p)) <==>
                  forall k | 0 <= k < n :: !ReachesBack(ranges, k))
  {
    hide MatchRanges, MergedPrefix, ReachesBack, JoinedMatches;
    var ranges := MatchRanges(text, spans, n, maxBytes);
    TakeAll(ranges);
    forall p | Covered(MergedPrefix(ranges, n), p) ensures Covered(ranges, p) {
      FusedIsWithin(ranges, n, Size(text), p);
    }
    FusedKeepsIff(ranges, Size(text));
  }

  /** One match that fits fills the bound: the excerpt is what a window of exactly that many bytes shows, centred on the
      match as far as the text allows. */
  lemma {:induction false} OneMatchFillsBound(text: string, s: Span, maxBytes: nat)
    requires s.lo < s.hi <= |text| && Size(text[s.lo..s.hi]) <= maxBytes < Size(text)
    ensures Offset(text, s.lo) < Offset(text, s.hi) <= Size(text)
    ensures var context := maxBytes - Size(text[s.lo..s.hi]);
            var w := Centred(Offset(text, s.lo), Offset(text, s.hi), context, Size(text));
            && w.hi - w.lo == maxBytes && w.hi <= Size(text)
            && FocusedTruncate(text, maxBytes, [s]) == Snippet(text, w)
  {
    OneMatch(text, s);
    OffsetStrict(text, s.lo, s.hi);
    EncodedSlice(text, s.lo, s.hi);
    hide JoinedMatches, Encode, Offset;
    ExcerptFusesRanges(text, [s], 1, maxBytes);
    OneRange(text, s, maxBytes);
    var w := MatchRanges(text, [s], 1, maxBytes)[0];
    assert MergedPrefix(MatchRanges(text, [s], 1, maxBytes), 1) == [w];
    assert Snippets(text, [w]) == [] + [Snippet(text, w)] == [Snippet(text, w)] by { assert [w][..0] == []; }
  }

  lemma {:induction false} OneMatch(text: string, s: Span)
    requires s.lo < s.hi <= |text|
    ensures WellFormed([s], |text|) && Distributed([s], 1) == [s] && JoinedMatches(text, [s], 1) == text[s.lo..s.hi]
  {
    assert [s][..0] == [];
    assert Pieces(text, [s]) == [] + [text[s.lo..s.hi]] == [text[s.lo..s.hi]];
  }

  lemma {:induction false} OneRange(text: string, s: Span, maxBytes: nat)
    requires s.lo < s.hi <= |text| && Size(text[s.lo..s.hi]) <= maxBytes && WellFormed([s], |text|)
    requires JoinedMatches(text, [s], 1) == text[s.lo..s.hi] && Offset(text, s.lo) < Offset(text, s.hi) <= Size(text)
    ensures var context := maxBytes - Size(text[s.lo..s.hi]);
            MatchRanges(text, [s], 1, maxBytes) ==
              [Centred(Offset(text, s.lo), Offset(text, s.hi), context, Size(text))]
  {
    assert Distributed([s], 1) == [s];
    assert ShareOf(maxBytes - Size(text[s.lo..s.hi]), 1, 0) == maxBytes - Size(text[s.lo..s.hi]);
    hide JoinedMatches, Encode, Offset, Centred, ShareOf;
  }

  // --- inputs ---

  lemma {:induction false} AsciiByteSpans(text: string, spans: seq<Span>)
    requires IsAscii(text) && NonEmptyWithin(spans, |text|)
    ensures ByteSpans(text, spans) == spans && Size(text) == |text|
  {
    SizeOfAscii(text);
    forall i | 0 <= i < |spans| ensures ByteSpan(text, spans[i]) == spans[i] {
      AsciiOffset(text, spans[i].lo);
      AsciiOffset(text, spans[i].hi);
    }
  }

  lemma {:induction false} OneMatchAt(text: string, s: Span, maxBytes: nat)
    requires s.lo < s.hi <= |text| == Size(text) && s.hi - s.lo <= maxBytes < |text|
    requires Offset(text, s.lo) == s.lo && Offset(text, s.hi) == s.hi && Size(text[s.lo..s.hi]) == s.hi - s.lo
    ensures var w := Centred(s.lo, s.hi, maxBytes - (s.hi - s.lo), |text|);
            && w.lo <= w.hi <= |text| && w.hi - w.lo == maxBytes
            && FocusedTruncate(text, maxBytes, [s]) == Snippet(text, w)
  {
    hide *;
    OneMatchFillsBound(text, s, maxBytes);
  }

  /** In an ASCII text one match that fits is shown in a window of exactly the bound. */
  lemma {:induction false} AsciiOneMatch(text: string, s: Span, maxBytes: nat)
    requires IsAscii(text) && s.lo < s.hi <= |text| && s.hi - s.lo <= maxBytes < |text|
    ensures var w := Centred(s.lo, s.hi, maxBytes - (s.hi - s.lo), |text|);
            && w.lo <= w.hi <= |text| && w.hi - w.lo == maxBytes
            && FocusedTruncate(text, maxBytes, [s]) == text[w.lo..w.hi]
  {
    SizeOfAscii(text);
    SizeOfAscii(text[s.lo..s.hi]);
    AsciiOffset(text, s.lo);
    AsciiOffset(text, s.hi);
    hide *;
    OneMatchAt(text, s, maxBytes);
    AsciiSnippet(text, Centred(s.lo, s.hi, maxBytes - (s.hi - s.lo), |text|));
  }

  /** In an ASCII text of 1000 characters a match at 500 to 505 is shown, under a bound of 200, with 97 characters
      before and 98 after it. */
  lemma {:induction false} MatchInItsContext(text: string)
    requires IsAscii(text) && |text| == 1000
    ensures FocusedTruncate(text, 200, [Span(500, 505)]) == text[403..603]
  {
    hide FocusedTruncate, IsAscii;
    AsciiOneMatch(text, Span(500, 505), 200);
    assert Centred(500, 505, 195, 1000) == Span(403, 603);
  }

  lemma {:induction false} TwoMatches(text: string)
    requires IsAscii(text) && |text| == 100
    ensures var spans := [Span(85, 86), Span(90, 100)];
            && WellFormed(spans, |text|) && Distributed(spans, 2) == spans
            && Size(JoinedMatches(text, spans, 2)) == 16 && MostThatFit(text, spans, 2, 60)
  {
    var spans := [Span(85, 86), Span(90, 100)];
    assert spans[..1] == [Span(85, 86)] && [Span(85, 86)][..0] == [];
    assert Separated(spans, |text|);
    WellFormedIsSeparated(spans, |text|);
    assert Distributed(spans, 2) == spans;
    AsciiByteSpans(text, spans);
    hide Encode, IsAscii, Distributed, WellFormed;
    RequiredIsJoinedSize(text, spans);
    assert Widths(spans) == 11 by {
      hide *;
      WidthsUpToTake(spans, 2);
      TakeAll(spans);
      TwoWidths(spans);
    }
  }

  lemma {:induction false} TwoWidths(spans: seq<Span>)
    requires spans == [Span(85, 86), Span(90, 100)]
    ensures WidthsUpTo(spans, 2) == 11
  {
    assert WidthsUpTo(spans, 1) == 1;
  }

  /** Ranges can be cut. Of two matches near the end of an ASCII text of 100 characters, the second and longer one
      would be shown from 68 on, but is fused with the first, which starts at 74: six bytes that the bound of 60
      allows are lost. */
  lemma {:induction false} RangeCut(text: string)
    requires IsAscii(text) && |text| == 100
    ensures var spans := [Span(85, 86), Span(90, 100)];
            && WellFormed(spans, |text|) && MostThatFit(text, spans, 2, 60)
            && MatchRanges(text, spans, 2, 60) == [Span(74, 97), Span(68, 100)]
            && ReachesBack(MatchRanges(text, spans, 2, 60), 1)
            && FocusedTruncate(text, 60, spans) == text[74..100]
  {
    var spans := [Span(85, 86), Span(90, 100)];
    TwoMatches(text);
    TwoRanges(text);
    TwoFused();
    CutSnippet(text);
    AsciiByteSpans(text, []);
    hide *;
    ExcerptFusesRanges(text, spans, 2, 60);
    JoinOfOne(text[74..100]);
  }

  lemma {:induction false} TwoRanges(text: string)
    requires IsAscii(text) && |text| == 100
    ensures var spans := [Span(85, 86), Span(90, 100)];
            && WellFormed(spans, |text|) && MostThatFit(text, spans, 2, 60)
            && MatchRanges(text, spans, 2, 60) == [Span(74, 97), Span(68, 100)]
  {
    TwoMatches(text);
    AsciiByteSpans(text, [Span(85, 86), Span(90, 100)]);
    hide JoinedMatches, Distributed, WellFormed, IsAscii, ByteSpans, Encode, MostThatFit;
  }

  lemma {:induction false} TwoFused()
    ensures var ranges := [Span(74, 97), Span(68, 100)];
            MergedPrefix(ranges, 2) == [Span(74, 100)] && ReachesBack(ranges, 1)
  {
    var ranges := [Span(74, 97), Span(68, 100)];
    assert MergedPrefix(ranges, 1) == [Span(74, 97)];
    assert ranges[..1] == [Span(74, 97)] && !Covered([Span(74, 97)], 73);
  }

  lemma {:induction false} CutSnippet(text: string)
    requires IsAscii(text) && |text| == 100
    ensures WellFormed([Span(74, 100)], Size(text)) && Snippets(text, [Span(74, 100)]) == [text[74..100]]
  {
    AsciiSnippet(text, Span(74, 100));
    assert [Span(74, 100)][..0] == [];
    assert Snippets(text, []) + [text[74..100]] == [text[74..100]];
    hide Snippet, IsAscii, Encode;
  }

  lemma {:induction false} JoinOfOne(s: string)
    ensures Join([s]) == s
  {
  }

  // --- without a match that fits ---

  /** If not even the middle match fits, the excerpt is cut from its start on. */
  lemma {:induction false} NoMatchFits(text: string, spans: seq<Span>, maxBytes: nat)
    requires WellFormed(spans, |text|) && spans != [] && Size(text) > maxBytes
    requires forall m | 1 <= m <= Min(|spans|, 8) :: Size(JoinedMatches(text, spans, m)) > maxBytes
    ensures spans[|spans| / 2].lo < |text|
    ensures var cut := Truncate(text[spans[|spans| / 2].lo..], maxBytes);
            cut != "" ==> FocusedTruncate(text, maxBytes, spans) == cut
  {
    var top := Min(|spans|, MAX_FOCUSED_WINDOWS);
    WellFormedEntry(spans, |text|, |spans| / 2);
    hide JoinedMatches, WellFormed, Truncate, Fits, Encode;
    var k := SelectedCount(text, spans, top, maxBytes);
    if k > 0 {
      SelectedCountIsLargest(text, spans, top, maxBytes, k);
      FitsIffJoinedFit(text, spans, k, maxBytes);
    }
  }

  /** `part` and `tail` are thirds of what the separators leave of the bound, and `from` centres the middle part. */
  predicate Thirds(length: nat, maxBytes: nat, part: nat, tail: nat, from: nat) {
    && 2 * part + tail + 10 == maxBytes && part <= tail <= part + 2
    && 2 * from <= length - part <= 2 * from + 1
  }

  /** k is the last character position at or before byte p. */
  predicate LastAt(text: string, k: nat, p: int) {
    k <= |text| && forall j: nat | j <= |text| :: Offset(text, j) <= p <==> j <= k
  }

  /** k is the first character position at or after byte p. */
  predicate FirstAt(text: string, k: nat, p: int) {
    k <= |text| && forall j: nat | j <= |text| :: p <= Offset(text, j) <==> k <= j
  }

  function Piece(text: string, lo: nat, hi: nat): string
    requires lo <= hi <= |text|
  {
    text[lo..hi]
  }

  function Elided(head: string, middle: string, tail: string): string {
    head + " \U{2026} " + middle + " \U{2026} " + tail
  }

  /** The three parts shown when there is no match: the longest prefix within a third of the bound, a middle piece that
      starts at the first character from the centred position on, and the longest suffix within the rest. */
  lemma {:induction false} ThreePartsShow(text: string, maxBytes: nat, part: nat, tail: nat, from: nat)
    returns (h: nat, a: nat, b: nat, c: nat)
    requires 13 < maxBytes < Size(text) && Thirds(Size(text), maxBytes, part, tail, from)
    ensures h <= |text| && a <= b <= |text| && c <= |text|
    ensures LastAt(text, h, part) && FirstAt(text, a, from) && LastAt(text, b, Offset(text, a) + part)
    ensures FirstAt(text, c, Size(text) - tail)
    ensures FocusedTruncate(text, maxBytes, []) ==
              Elided(Piece(text, 0, h), Piece(text, a, b), Piece(text, c, |text|))
  {
    hide *;
    PartsText(text, maxBytes, part, tail, from);
    var start := Offset(text, Ceil(text, from));
    h, a, b, c := Floor(text, part), Ceil(text, from), Floor(text, start + part), Ceil(text, Size(text) - tail);
    HeadShows(text, part);
    FirstBoundary(text, from);
    MiddleShows(text, from, part);
    TailShows(text, tail);
  }

  lemma {:induction false} PartsText(text: string, maxBytes: nat, part: nat, tail: nat, from: nat)
    requires 13 < maxBytes < Size(text) && Thirds(Size(text), maxBytes, part, tail, from)
    ensures from <= Size(text) && part < Size(text) && tail <= Size(text)
    ensures Offset(text, Ceil(text, from)) + part <= Size(text)
    ensures Ceil(text, from) <= Floor(text, Offset(text, Ceil(text, from)) + part)
    ensures FocusedTruncate(text, maxBytes, []) ==
              Elided(Piece(text, 0, Floor(text, part)),
                     Piece(text, Ceil(text, from), Floor(text, Offset(text, Ceil(text, from)) + part)),
                     Piece(text, Ceil(text, Size(text) - tail), |text|))
  {
    hide *;
    PartsOfExcerpt(text, maxBytes, part, tail, from);
    HeadShows(text, part);
    MiddleShows(text, from, part);
    TailShows(text, tail);
  }

  lemma {:induction false} PartsOfExcerpt(text: string, maxBytes: nat, part: nat, tail: nat, from: nat)
    requires 13 < maxBytes < Size(text) && Thirds(Size(text), maxBytes, part, tail, from)
    ensures from <= Size(text) && part < Size(text) && tail <= Size(text)
    ensures Offset(text, Ceil(text, from)) + part <= Size(text)
    ensures var start := Offset(text, Ceil(text, from));
            FocusedTruncate(text, maxBytes, []) ==
              Elided(Truncate(text, part), Snippet(text, Span(start, start + part)),
                     Snippet(text, Span(Size(text) - tail, Size(text))))
  {
    hide *;
    PartSpans(text, maxBytes, part, tail, from);
    var start := Offset(text, Ceil(text, from));
    ElidedParts(text, maxBytes, Span(0, part), Span(start, start + part), Span(Size(text) - tail, Size(text)));
  }

  lemma {:induction false} PartSpans(text: string, maxBytes: nat, part: nat, tail: nat, from: nat)
    requires 13 < maxBytes < Size(text) && Thirds(Size(text), maxBytes, part, tail, from)
    ensures from <= Size(text) && part < Size(text) && tail <= Size(text)
    ensures var start := Offset(text, Ceil(text, from));
            && start + part <= Size(text)
            && HeadMiddleTail(text, maxBytes) ==
                 (Span(0, part), Span(start, start + part), Span(Size(text) - tail, Size(text)))
  {
    var (head, middle, end) := HeadMiddleTail(text, maxBytes);
    assert middle.hi < Size(text) by {
      PartsAreSeparated(text, maxBytes);
      hide HeadMiddleTail;
      WellFormedEntry([head, middle, end], Size(text), 2);
    }
    FirstBoundary(text, from);
    hide Encode, SkipContinuations, Ceil, Offset;
  }

  lemma {:induction false} ElidedParts(text: string, maxBytes: nat, head: Span, middle: Span, tail: Span)
    requires 13 < maxBytes < Size(text) && HeadMiddleTail(text, maxBytes) == (head, middle, tail)
    requires middle.lo <= middle.hi <= Size(text) && tail.lo <= tail.hi <= Size(text)
    ensures FocusedTruncate(text, maxBytes, []) ==
              Elided(Truncate(text, head.hi), Snippet(text, middle), Snippet(text, tail))
  {
    hide Encode, Truncate, Snippet, HeadMiddleTail, WellFormed;
  }

  lemma {:induction false} FloorIsLast(text: string, p: nat)
    ensures LastAt(text, Floor(text, p), p)
  {
    forall k: nat | k <= |text| ensures Offset(text, k) <= p <==> k <= Floor(text, p) { FloorIsGreatest(text, p, k); }
  }

  lemma {:induction false} CeilIsFirst(text: string, p: int)
    requires p <= Size(text)
    ensures FirstAt(text, Ceil(text, p), p)
  {
    forall k: nat | k <= |text| ensures p <= Offset(text, k) <==> Ceil(text, p) <= k { CeilIsLeast(text, p, k); }
  }

  lemma {:induction false} HeadShows(text: string, n: nat)
    requires n < Size(text)
    ensures Truncate(text, n) == Piece(text, 0, Floor(text, n))
    ensures LastAt(text, Floor(text, n), n)
  {
    FloorIsLast(text, n);
    hide Truncate, Floor, Offset, Encode;
    TruncateIsLongestPrefix(text, n);
    assert Offset(text, Floor(text, n)) <= n;
  }

  /** Skipping continuation bytes ends at the first character from there on. */
  lemma {:induction false} FirstBoundary(text: string, p: nat)
    requires p <= Size(text)
    ensures SkipContinuations(Encode(text), p) == Offset(text, Ceil(text, p))
    ensures FirstAt(text, Ceil(text, p), p)
  {
    var q, a := SkipContinuations(Encode(text), p), Ceil(text, p);
    CeilIsFirst(text, p);
    var f := Floor(text, q);
    BoundaryIsOffset(text, q);
    FloorCeilOfOffset(text, a);
    BoundaryIsOffset(text, Offset(text, a));
    hide Encode, SkipContinuations, Floor, Ceil, Offset;
    if a < f { OffsetStrict(text, a, f); }
  }

  lemma {:induction false} MiddleShows(text: string, from: nat, part: nat)
    requires from <= Size(text) && Offset(text, Ceil(text, from)) + part <= Size(text)
    ensures var start := Offset(text, Ceil(text, from));
            && Ceil(text, from) <= Floor(text, start + part)
            && Snippet(text, Span(start, start + part)) == Piece(text, Ceil(text, from), Floor(text, start + part))
            && LastAt(text, Floor(text, start + part), start + part)
  {
    var a := Ceil(text, from);
    var start := Offset(text, a);
    FloorIsLast(text, start + part);
    FloorCeilOfOffset(text, a);
    WindowShows(text, Span(start, start + part));
    assert a <= Floor(text, start + part);
    hide Snippet, Floor, Ceil, Offset, Encode;
  }

  lemma {:induction false} TailShows(text: string, n: nat)
    requires n <= Size(text)
    ensures Snippet(text, Span(Size(text) - n, Size(text))) == Piece(text, Ceil(text, Size(text) - n), |text|)
    ensures FirstAt(text, Ceil(text, Size(text) - n), Size(text) - n)
  {
    CeilIsFirst(text, Size(text) - n);
    WindowShows(text, Span(Size(text) - n, Size(text)));
    FloorCeilOfOffset(text, |text|);
    TakeAll(text);
    hide Snippet, Floor, Ceil, Encode;
  }
}
