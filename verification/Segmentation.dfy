/** Overlapping, UTF-8-safe segmentation of long texts (`_text_segments`). */
module Segmentation {
  import opened Slices
  import opened Spans
  import opened Text
  import opened Utf8

  const MAX_CHUNK_BYTES: nat := 1200
  const OVERLAP_BYTES: nat := 200

  // --- one window ---

  /** Move an end back while it stands inside a character. */
  function BackToBoundary(b: bytes, start: nat, end: nat): (r: nat)
    requires start <= end <= |b|
    ensures start <= r <= end
    decreases end
  {
    if end < |b| && end > start && IsContinuation(b[end]) then BackToBoundary(b, start, end - 1) else end
  }

  /** Move a start forward, short of `end`, while it stands inside a character. */
  function ForwardToBoundary(b: bytes, start: nat, end: nat): (r: nat)
    requires start <= end <= |b|
    ensures start <= r <= end
    decreases end - start
  {
    if start < end && IsContinuation(b[start]) then ForwardToBoundary(b, start + 1, end) else start
  }

  function WindowEnd(b: bytes, start: nat): nat
    requires start <= |b|
  {
    BackToBoundary(b, start, Min(start + MAX_CHUNK_BYTES, |b|))
  }

  function NextStart(b: bytes, start: nat, end: nat): nat
    requires start <= end <= |b|
  {
    var back := if end < OVERLAP_BYTES then 0 else end - OVERLAP_BYTES;
    var next := ForwardToBoundary(b, Max(start, back), end);
    if next <= start then end else next
  }

  /** The windows from `start` on; None where the source raises "could not be segmented". */
  function Windows(b: bytes, start: nat): Option<seq<Span>>
    requires start < |b|
    decreases |b| - start
  {
    var end := WindowEnd(b, start);
    if end <= start then None
    else if end >= |b| then Some([Span(start, end)])
    else
      var next := NextStart(b, start, end);
      if next >= |b| then Some([Span(start, end)]) else
      match Windows(b, next)
      case None => None
      case Some(rest) => Some([Span(start, end)] + rest)
  }

  lemma {:induction false} BackOffIsShort(b: bytes, start: nat, end: nat, q: nat)
    requires start < q <= end <= |b| && IsBoundary(b, q)
    ensures q <= BackToBoundary(b, start, end) && IsBoundary(b, BackToBoundary(b, start, end))
    decreases end
  {
    if end < |b| && IsContinuation(b[end]) { BackOffIsShort(b, start, end - 1, q); }
  }

  lemma {:induction false} SkipIsShort(b: bytes, start: nat, end: nat, q: nat)
    requires start <= q <= end <= |b| && IsBoundary(b, q)
    ensures ForwardToBoundary(b, start, end) <= q && IsBoundary(b, ForwardToBoundary(b, start, end))
    decreases end - start
  {
    if start < end && IsContinuation(b[start]) { SkipIsShort(b, start + 1, end, q); }
  }

  /**
   * Windows of an encoded text: at most 1200 bytes, both edges on character boundaries, the last one reaching the end,
   * and each next one starting 197 to 200 bytes before the end of its predecessor and at least 997 after its start.
   */
  predicate Chain(b: bytes, ws: seq<Span>, start: nat)
    decreases |ws|
  {
    && ws != [] && ws[0].lo == start < ws[0].hi <= |b|
    && ws[0].hi - start <= MAX_CHUNK_BYTES
    && IsBoundary(b, start) && IsBoundary(b, ws[0].hi)
    && if |ws| == 1 then ws[0].hi == |b|
       else
         && ws[0].hi < |b|
         && start + 997 <= ws[1].lo && ws[1].lo + 197 <= ws[0].hi <= ws[1].lo + OVERLAP_BYTES
         && Chain(b, ws[1..], ws[1].lo)
  }

  lemma {:induction false} WindowGeometry(s: string, start: nat)
    requires start < Size(s) && IsBoundary(Encode(s), start)
    ensures var end := WindowEnd(Encode(s), start);
            && start < end <= Size(s) && end - start <= MAX_CHUNK_BYTES && IsBoundary(Encode(s), end)
            && (end < Size(s) ==>
                 var next := NextStart(Encode(s), start, end);
                 && start + 997 <= next && next + 197 <= end <= next + OVERLAP_BYTES && IsBoundary(Encode(s), next))
  {
    var b := Encode(s);
    hide Encode;
    var limit := Min(start + MAX_CHUNK_BYTES, |b|);
    if limit == |b| {
      BackOffIsShort(b, start, limit, limit);
    } else {
      NoFourContinuations(s, limit - 3);
      var q :| limit - 3 <= q <= limit && IsBoundary(b, q);
      BackOffIsShort(b, start, limit, q);
    }
    var end := WindowEnd(b, start);
    if end < |b| {
      NoFourContinuations(s, end - OVERLAP_BYTES);
      var q :| end - OVERLAP_BYTES <= q <= end - OVERLAP_BYTES + 3 && IsBoundary(b, q);
      SkipIsShort(b, end - OVERLAP_BYTES, end, q);
    }
  }

  /** Segmentation never fails on text, and its windows form a chain. */
  lemma {:induction false} WindowsChain(s: string, start: nat)
    requires start < Size(s) && IsBoundary(Encode(s), start)
    ensures Windows(Encode(s), start).Some? && Chain(Encode(s), Windows(Encode(s), start).value, start)
    decreases Size(s) - start
  {
    WindowGeometry(s, start);
    var b := Encode(s);
    hide Encode, WindowEnd, NextStart;
    var end := WindowEnd(b, start);
    if end < |b| {
      var next := NextStart(b, start, end);
      WindowsChain(s, next);
      var rest := Windows(b, next).value;
      JoinCut([Span(start, end)], rest);
    }
  }

  /** The loop of long texts is short: beyond the first, each window claims 997 of the bytes before the last 198. */
  lemma {:induction false} ChainLength(b: bytes, ws: seq<Span>, start: nat)
    requires Chain(b, ws, start) && |ws| > 1
    ensures 997 * (|ws| - 1) + start <= |b| - 198
    decreases |ws|
  {
    if |ws| > 2 { ChainLength(b, ws[1..], ws[1].lo); }
  }

  /** Every byte from the start on lies in some window. */
  lemma {:induction false} ChainCovers(b: bytes, ws: seq<Span>, start: nat, p: nat)
    requires Chain(b, ws, start) && start <= p < |b|
    ensures exists i | 0 <= i < |ws| :: Covers(ws[i], p)
    decreases |ws|
  {
    if p < ws[0].hi {
      assert Covers(ws[0], p);
    } else {
      ChainCovers(b, ws[1..], ws[1].lo, p);
      var i :| 0 <= i < |ws[1..]| && Covers(ws[1..][i], p);
      assert Covers(ws[i + 1], p);
    }
  }

  lemma {:induction false} ChainEntry(b: bytes, ws: seq<Span>, start: nat, i: nat)
    requires Chain(b, ws, start) && i < |ws|
    ensures start <= ws[i].lo < ws[i].hi <= |b| && ws[i].hi - ws[i].lo <= MAX_CHUNK_BYTES
    ensures IsBoundary(b, ws[i].lo) && IsBoundary(b, ws[i].hi)
    ensures i + 1 < |ws| ==> ws[i].lo + 997 <= ws[i + 1].lo && ws[i + 1].lo + 197 <= ws[i].hi
    decreases |ws|
  {
    if i > 0 { ChainEntry(b, ws[1..], ws[1].lo, i - 1); }
  }

  // --- segments ---

  /** Characters of a window once it is decoded and stripped. */
  function SegmentRange(s: string, w: Span): (r: Span)
    ensures r.lo <= r.hi <= |s|
  {
    var lo, hi := Floor(s, w.lo), Floor(s, w.hi);
    if lo <= hi then
      var kept := StripRange(s[lo..hi]);
      Span(lo + kept.0, lo + kept.1)
    else Span(0, 0)
  }

  /** Ranges of the segments among the first k windows; blank windows give none. */
  function SegmentRanges(s: string, ws: seq<Span>, k: nat): (r: seq<Span>)
    requires k <= |ws|
    ensures forall i | 0 <= i < |r| :: r[i].lo < r[i].hi <= |s|
    decreases k
  {
    if k == 0 then [] else
    var r := SegmentRange(s, ws[k - 1]);
    SegmentRanges(s, ws, k - 1) + if r.lo < r.hi then [r] else []
  }

  function TextsAt(s: string, ranges: seq<Span>): (r: seq<string>)
    requires forall i | 0 <= i < |ranges| :: ranges[i].lo < ranges[i].hi <= |s|
    ensures |r| == |ranges| && forall i | 0 <= i < |r| :: r[i] == s[ranges[i].lo..ranges[i].hi]
  {
    seq(|ranges|, i requires 0 <= i < |ranges| => s[ranges[i].lo..ranges[i].hi])
  }

  /** Decoding a window between boundaries succeeds, and stripping it gives its segment. */
  lemma {:induction false} WindowSegment(s: string, w: Span)
    requires w.lo <= w.hi <= Size(s) && IsBoundary(Encode(s), w.lo) && IsBoundary(Encode(s), w.hi)
    ensures Floor(s, w.lo) <= Floor(s, w.hi)
    ensures Decode(Encode(s)[w.lo..w.hi]) == Some(s[Floor(s, w.lo)..Floor(s, w.hi)])
    ensures var r := SegmentRange(s, w);
            s[r.lo..r.hi] == Strip(s[Floor(s, w.lo)..Floor(s, w.hi)])
  {
    hide Encode, Decode;
    BoundarySliceDecodes(s, w.lo, w.hi);
    var lo, hi := Floor(s, w.lo), Floor(s, w.hi);
    var kept := StripRange(s[lo..hi]);
    SliceOfSlice(s, lo, hi, kept.0, kept.1);
  }

  lemma {:induction false} SegmentIsShort(s: string, w: Span)
    requires w.lo <= w.hi <= Size(s) && w.hi - w.lo <= MAX_CHUNK_BYTES
    requires IsBoundary(Encode(s), w.lo) && IsBoundary(Encode(s), w.hi)
    ensures var r := SegmentRange(s, w); Size(s[r.lo..r.hi]) <= MAX_CHUNK_BYTES
  {
    hide Encode;
    BoundaryIsOffset(s, w.lo);
    BoundaryIsOffset(s, w.hi);
    BoundarySliceDecodes(s, w.lo, w.hi);
    var lo, hi := Floor(s, w.lo), Floor(s, w.hi);
    var r := SegmentRange(s, w);
    assert lo <= r.lo <= r.hi <= hi;
    OffsetsMonotone(s, lo, r.lo);
    OffsetsMonotone(s, r.hi, hi);
    EncodedSlice(s, r.lo, r.hi);
  }

  lemma {:induction false} OffsetsMonotone(s: string, i: nat, j: nat)
    requires i <= j <= |s|
    ensures Offset(s, i) <= Offset(s, j)
  {
    hide Encode;
    EncodedSlice(s, i, j);
  }

  /** A non-blank character in a window survives into the window's segment. */
  lemma {:induction false} CharacterKept(s: string, w: Span, k: nat)
    requires k < |s| && !IsSpace(s[k]) && Covers(w, Offset(s, k))
    requires w.hi <= Size(s) && IsBoundary(Encode(s), w.lo) && IsBoundary(Encode(s), w.hi)
    ensures Covers(SegmentRange(s, w), k)
  {
    hide Encode;
    BoundarySliceDecodes(s, w.lo, w.hi);
    BoundaryIsOffset(s, w.hi);
    FloorIsGreatest(s, w.hi, k);
    var lo, hi := Floor(s, w.lo), Floor(s, w.hi);
    BoundaryIsOffset(s, w.lo);
    if k < lo { OffsetStrict(s, k, lo); }
    assert hi != k;
    assert s[lo..hi][k - lo] == s[k];
  }

  lemma {:induction false} RangeListed(s: string, ws: seq<Span>, k: nat, i: nat)
    requires i < k <= |ws| && SegmentRange(s, ws[i]).lo < SegmentRange(s, ws[i]).hi
    ensures SegmentRange(s, ws[i]) in SegmentRanges(s, ws, k)
    decreases k
  {
    hide SegmentRange;
    if i < k - 1 { RangeListed(s, ws, k - 1, i); }
  }

  lemma {:induction false} RangeFromWindow(s: string, ws: seq<Span>, k: nat, r: Span)
    requires k <= |ws| && r in SegmentRanges(s, ws, k)
    ensures exists i | 0 <= i < k :: r == SegmentRange(s, ws[i])
    decreases k
  {
    hide SegmentRange;
    if r != SegmentRange(s, ws[k - 1]) { RangeFromWindow(s, ws, k - 1, r); }
  }

  predicate IsShort(s: string, r: Span) {
    r.lo < r.hi <= |s| && Size(s[r.lo..r.hi]) <= MAX_CHUNK_BYTES
  }

  /** Every character that is not whitespace lies in some range. */
  predicate KeepsText(s: string, ranges: seq<Span>) {
    forall k | 0 <= k < |s| && !IsSpace(s[k]) :: Covered(ranges, k)
  }

  /** The segments are non-empty pieces of at most 1200 bytes that together keep every non-blank character. */
  ghost predicate IsSegmentation(s: string, segments: seq<string>, ranges: seq<Span>) {
    && (forall i | 0 <= i < |ranges| :: IsShort(s, ranges[i]))
    && segments == TextsAt(s, ranges)
    && KeepsText(s, ranges)
  }

  lemma {:induction false} ListedSegmentIsShort(s: string, ws: seq<Span>, r: Span)
    requires Chain(Encode(s), ws, 0) && r in SegmentRanges(s, ws, |ws|)
    ensures IsShort(s, r)
  {
    hide Encode, SegmentRange, Chain;
    RangeFromWindow(s, ws, |ws|, r);
    var j :| 0 <= j < |ws| && r == SegmentRange(s, ws[j]);
    ChainEntry(Encode(s), ws, 0, j);
    SegmentIsShort(s, ws[j]);
  }

  lemma {:induction false} ListedSegmentsCover(s: string, ws: seq<Span>, k: nat)
    requires Chain(Encode(s), ws, 0) && k < |s| && !IsSpace(s[k])
    ensures Covered(SegmentRanges(s, ws, |ws|), k)
  {
    hide Encode, SegmentRange, Chain, Covers;
    OffsetStrict(s, k, |s|);
    TakeAll(s);
    ChainCovers(Encode(s), ws, 0, Offset(s, k));
    var i :| 0 <= i < |ws| && Covers(ws[i], Offset(s, k));
    ChainEntry(Encode(s), ws, 0, i);
    CharacterKept(s, ws[i], k);
    NotEmpty(SegmentRange(s, ws[i]), k);
    RangeListed(s, ws, |ws|, i);
    var ranges := SegmentRanges(s, ws, |ws|);
    var j :| 0 <= j < |ranges| && ranges[j] == SegmentRange(s, ws[i]);
  }

  lemma {:induction false} NotEmpty(r: Span, k: nat)
    requires Covers(r, k)
    ensures r.lo < r.hi
  {
  }

  lemma {:induction false} ChainSegments(s: string, ws: seq<Span>)
    requires Chain(Encode(s), ws, 0)
    ensures IsSegmentation(s, TextsAt(s, SegmentRanges(s, ws, |ws|)), SegmentRanges(s, ws, |ws|))
  {
    hide SegmentRanges, Chain, IsShort, KeepsText;
    var ranges := SegmentRanges(s, ws, |ws|);
    forall i | 0 <= i < |ranges| ensures IsShort(s, ranges[i]) {
      ListedSegmentIsShort(s, ws, ranges[i]);
    }
    assert KeepsText(s, SegmentRanges(s, ws, |ws|)) by { ChainKeepsText(s, ws); }
  }

  lemma {:induction false} ChainKeepsText(s: string, ws: seq<Span>)
    requires Chain(Encode(s), ws, 0)
    ensures KeepsText(s, SegmentRanges(s, ws, |ws|))
  {
    hide Encode, SegmentRanges, Chain, Covered;
    forall k | 0 <= k < |s| && !IsSpace(s[k]) ensures Covered(SegmentRanges(s, ws, |ws|), k) {
      ListedSegmentsCover(s, ws, k);
    }
  }

  /** The loop that backs an end off a character. */
  method FindEnd(b: bytes, start: nat) returns (end: nat)
    requires start <= |b|
    ensures end == WindowEnd(b, start)
  {
    end := Min(start + MAX_CHUNK_BYTES, |b|);
    ghost var limit := end;
    while end < |b| && end > start && IsContinuation(b[end])
      invariant start <= end <= limit
      invariant BackToBoundary(b, start, limit) == BackToBoundary(b, start, end)
      decreases end
    {
      end := end - 1;
    }
  }

  /** The loop that moves the overlapping start forward off a character. */
  method FindNextStart(b: bytes, start: nat, end: nat) returns (next: nat)
    requires start <= end <= |b|
    ensures next == NextStart(b, start, end)
  {
    next := Max(start, if end < OVERLAP_BYTES then 0 else end - OVERLAP_BYTES);
    ghost var from := next;
    while next < end && IsContinuation(b[next])
      invariant from <= next <= end
      invariant ForwardToBoundary(b, from, end) == ForwardToBoundary(b, next, end)
      decreases end - next
    {
      next := next + 1;
    }
    if next <= start {
      next := end;
    }
  }

  /** The segment of one window, as a list of at most one text. */
  function SegmentText(s: string, w: Span): seq<string> {
    var r := SegmentRange(s, w);
    if r.lo < r.hi then [s[r.lo..r.hi]] else []
  }

  /** The segments of the first k windows. */
  function SegmentTexts(s: string, ws: seq<Span>, k: nat): seq<string>
    requires k <= |ws|
    decreases k
  {
    if k == 0 then [] else SegmentTexts(s, ws, k - 1) + SegmentText(s, ws[k - 1])
  }

  lemma {:induction false} SegmentTextsAreRanges(s: string, ws: seq<Span>, k: nat)
    requires k <= |ws|
    ensures SegmentTexts(s, ws, k) == TextsAt(s, SegmentRanges(s, ws, k))
    decreases k
  {
    hide SegmentRange;
    if k > 0 {
      SegmentTextsAreRanges(s, ws, k - 1);
    }
  }

  /** Window k of the chain is what one pass of the loop computes, and its segment is what the pass appends. */
  lemma {:induction false} LoopPass(s: string, all: seq<Span>, k: nat, start: nat)
    requires k < |all| && start < Size(s) && Chain(Encode(s), all, 0) && Windows(Encode(s), start) == Some(all[k..])
    ensures var b, end := Encode(s), WindowEnd(Encode(s), start);
            && start < end <= |b| && start < NextStart(b, start, end) && all[k] == Span(start, end)
            && Decode(b[start..end]).Some?
            && SegmentText(s, all[k]) == (var t := Strip(Decode(b[start..end]).value); if t != "" then [t] else [])
            && if end >= |b| || NextStart(b, start, end) >= |b| then k + 1 == |all|
               else k + 1 < |all| && Windows(b, NextStart(b, start, end)) == Some(all[k + 1..])
  {
    var b := Encode(s);
    hide Encode, Decode, SegmentRange, WindowEnd, NextStart, IsBoundary, Chain, Windows;
    WindowsUnfold(b, start);
    ChainEntry(b, all, 0, k);
    WindowSegment(s, all[k]);
    NextStartAdvances(b, start, WindowEnd(b, start));
    assert all[k..][1..] == all[k + 1..];
    if WindowEnd(b, start) < |b| && NextStart(b, start, WindowEnd(b, start)) < |b| {
      WindowsUnfold(b, NextStart(b, start, WindowEnd(b, start)));
    }
  }

  /** The main loop: decode and strip each window, keep what is not blank. */
  method SegmentEncoded(ghost s: string, b: bytes, ghost all: seq<Span>) returns (r: Option<seq<string>>)
    requires b == Encode(s) && b != [] && Windows(b, 0) == Some(all) && Chain(b, all, 0)
    ensures r == Some(SegmentTexts(s, all, |all|))
  {
    hide Encode, Decode, Windows, Chain, WindowEnd, NextStart, SegmentText, Strip;
    ghost var k := 0;
    assert all[0..] == all;
    assert |all| > 0 by { ChainIsNotEmpty(b, all); }
    var segments: seq<string> := [];
    var start := 0;
    while start < |b|
      invariant if start < |b| then k < |all| && Windows(b, start) == Some(all[k..]) else k == |all|
      invariant segments == SegmentTexts(s, all, k)
      decreases |b| - start
    {
      LoopPass(s, all, k, start);
      var end := FindEnd(b, start);
      if end <= start {
        return None;
      }
      var decoded := Decode(b[start..end]);
      if decoded.None? {
        return None;
      }
      var segment := Strip(decoded.value);
      ConcatEmpty(segments);
      if segment != "" {
        segments := segments + [segment];
      }
      k := k + 1;
      if end >= |b| {
        break;
      }
      start := FindNextStart(b, start, end);
    }
    r := Some(segments);
  }

  lemma {:induction false} NextStartAdvances(b: bytes, start: nat, end: nat)
    requires start < end <= |b|
    ensures start < NextStart(b, start, end)
  {
  }

  lemma {:induction false} ChainIsNotEmpty(b: bytes, ws: seq<Span>)
    requires Chain(b, ws, 0)
    ensures ws != []
  {
  }

  /** `_text_segments`, None where it raises. */
  method TextSegments(text: string) returns (r: Option<seq<string>>, ghost ranges: seq<Span>, ghost windows: seq<Span>)
    ensures r.Some? && IsSegmentation(Strip(text), r.value, ranges)
    ensures Size(Strip(text)) <= MAX_CHUNK_BYTES ==> r.value == if Strip(text) == "" then [] else [Strip(text)]
    ensures Strip(text) != "" && Size(Strip(text)) > MAX_CHUNK_BYTES ==>
              && Chain(Encode(Strip(text)), windows, 0)
              && ranges == SegmentRanges(Strip(text), windows, |windows|)
              && |windows| <= 1 + (Size(Strip(text)) - 198) / 997
  {
    hide Encode, IsBoundary, Chain, Windows, SegmentRanges;
    var normalized := Strip(text);
    if normalized == "" {
      return Some([]), [], [];
    }
    var encoded := Encode(normalized);
    if |encoded| <= MAX_CHUNK_BYTES {
      ranges := [Span(0, |normalized|)];
      assert normalized[0..|normalized|] == normalized;
      assert forall k | 0 <= k < |normalized| :: Covers(ranges[0], k);
      return Some([normalized]), ranges, [];
    }
    StartIsBoundary(normalized);
    WindowsChain(normalized, 0);
    windows := Windows(encoded, 0).value;
    ranges := SegmentRanges(normalized, windows, |windows|);
    ChainSegments(normalized, windows);
    if |windows| > 1 { ChainLength(encoded, windows, 0); }
    SegmentTextsAreRanges(normalized, windows, |windows|);
    r := SegmentEncoded(normalized, encoded, windows);
  }

  lemma {:induction false} StartIsBoundary(s: string)
    ensures IsBoundary(Encode(s), 0)
  {
  }

  lemma {:induction false} WindowsUnfold(b: bytes, start: nat)
    requires start < |b| && Windows(b, start).Some?
    ensures var end, all := WindowEnd(b, start), Windows(b, start).value;
            && start < end && all != [] && all[0] == Span(start, end)
            && if end >= |b| || NextStart(b, start, end) >= |b| then |all| == 1
               else Windows(b, NextStart(b, start, end)) == Some(all[1..])
  {
    hide WindowEnd, NextStart;
  }
}
