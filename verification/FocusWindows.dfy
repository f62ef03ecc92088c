/** Byte-bounded excerpts that keep the matched parts of a text (`_fit_focused_windows`, `_focused_truncate_utf8`). */
module FocusWindows {
  import opened Slices
  import opened Spans
  import opened Utf8

  const MAX_FOCUSED_WINDOWS: nat := 8
  /** Space, horizontal ellipsis, space. */
  const SEPARATOR: string := " \U{2026} "
  const SEPARATOR_BYTES: nat := 5

  // --- joined pieces of a text ---

  function Join(parts: seq<string>): string
    decreases |parts|
  {
    if parts == [] then ""
    else if |parts| == 1 then parts[0]
    else Join(parts[..|parts| - 1]) + SEPARATOR + parts[|parts| - 1]
  }

  /** Ordered, non-overlapping ranges within a text of the given length. */
  predicate Ordered(ranges: seq<Span>, length: nat)
    decreases |ranges|
  {
    var last := |ranges| - 1;
    ranges == []
    || (&& ranges[last].lo <= ranges[last].hi <= length
        && (last > 0 ==> ranges[last - 1].hi <= ranges[last].lo)
        && Ordered(ranges[..last], length))
  }

  function Pieces(text: string, ranges: seq<Span>): (r: seq<string>)
    requires Ordered(ranges, |text|)
    ensures |r| == |ranges|
    decreases |ranges|
  {
    if ranges == [] then []
    else var last := |ranges| - 1;
      Pieces(text, ranges[..last]) + [text[ranges[last].lo..ranges[last].hi]]
  }

  /** `r` shows pieces of the text in their order, with the separator at every gap. */
  ghost predicate IsElision(text: string, r: string) {
    exists ranges :: Ordered(ranges, |text|) && r == Join(Pieces(text, ranges))
  }

  lemma {:induction false} OnePieceIsElision(text: string, lo: nat, hi: nat)
    requires lo <= hi <= |text|
    ensures IsElision(text, text[lo..hi])
  {
    var ranges := [Span(lo, hi)];
    assert ranges[..0] == [];
    assert Ordered(ranges, |text|);
    assert Pieces(text, ranges) == [] + [text[lo..hi]] == [text[lo..hi]];
    assert Join([text[lo..hi]]) == text[lo..hi];
  }

  function Widths(spans: seq<Span>): int
    decreases |spans|
  {
    if spans == [] then 0
    else var last := |spans| - 1; Widths(spans[..last]) + Width(spans[last])
  }

  lemma {:induction false} SeparatorSize()
    ensures Size(SEPARATOR) == SEPARATOR_BYTES
  {
    assert SEPARATOR == [' '] + (['\U{2026}'] + [' ']);
    EncodeConcat([' '], ['\U{2026}'] + [' ']);
    EncodeConcat(['\U{2026}'], [' ']);
    assert Size([' ']) == 1 && Size(['\U{2026}']) == 3;
  }

  lemma {:induction false} SizeOfConcat(a: string, b: string)
    ensures Size(a + b) == Size(a) + Size(b)
  {
    EncodeConcat(a, b);
  }

  // --- choosing how many matches to show ---

  function ByteSpan(text: string, s: Span): Span
    requires s.lo <= s.hi <= |text|
  {
    Span(Offset(text, s.lo), Offset(text, s.hi))
  }

  function ByteSpans(text: string, spans: seq<Span>): (r: seq<Span>)
    requires NonEmptyWithin(spans, |text|)
    ensures |r| == |spans|
  {
    seq(|spans|, i requires 0 <= i < |spans| => ByteSpan(text, spans[i]))
  }

  function Required(spans: seq<Span>): int {
    Widths(spans) + SEPARATOR_BYTES * (|spans| - 1)
  }

  function SelectionBytes(text: string, spans: seq<Span>, count: nat): (r: seq<Span>)
    requires WellFormed(spans, |text|) && 1 <= count <= |spans|
    ensures |r| == count
  {
    WellFormedIsSeparated(spans, |text|);
    DistributedIsSeparated(spans, count, |text|);
    ByteSpans(text, Distributed(spans, count))
  }

  predicate Fits(text: string, spans: seq<Span>, count: nat, maxBytes: nat)
    requires WellFormed(spans, |text|) && 1 <= count <= |spans|
  {
    Required(SelectionBytes(text, spans, count)) <= maxBytes
  }

  /** The number of matches shown: `count` or the first smaller number that fits; 0 when not even one does. */
  function SelectedCount(text: string, spans: seq<Span>, count: nat, maxBytes: nat): (n: nat)
    requires WellFormed(spans, |text|) && count <= |spans|
    ensures n <= count
    decreases count
  {
    if count == 0 || Fits(text, spans, count, maxBytes) then count
    else SelectedCount(text, spans, count - 1, maxBytes)
  }

  /** The selection is the largest that fits. */
  lemma {:induction false} SelectedCountIsLargest(text: string, spans: seq<Span>, count: nat, maxBytes: nat, k: nat)
    requires WellFormed(spans, |text|) && 1 <= k <= count <= |spans|
    ensures var n := SelectedCount(text, spans, count, maxBytes);
            (k == n ==> Fits(text, spans, k, maxBytes)) && (k > n ==> !Fits(text, spans, k, maxBytes))
    decreases count
  {
    hide Fits;
    if !Fits(text, spans, count, maxBytes) && k < count {
      SelectedCountIsLargest(text, spans, count - 1, maxBytes, k);
    }
  }

  lemma {:induction false} SelectionIsWellFormed(text: string, spans: seq<Span>, count: nat)
    requires WellFormed(spans, |text|) && 1 <= count <= |spans|
    ensures WellFormed(SelectionBytes(text, spans, count), Size(text))
  {
    WellFormedIsSeparated(spans, |text|);
    DistributedIsSeparated(spans, count, |text|);
    ByteSpansAreSeparated(text, Distributed(spans, count));
    WellFormedIsSeparated(SelectionBytes(text, spans, count), Size(text));
  }

  lemma {:induction false} ByteSpansAreSeparated(text: string, spans: seq<Span>)
    requires Separated(spans, |text|)
    ensures Separated(ByteSpans(text, spans), Size(text))
  {
    var r := ByteSpans(text, spans);
    forall i | 0 <= i < |r| ensures r[i].lo < r[i].hi <= Size(text) {
      OffsetStrict(text, spans[i].lo, spans[i].hi);
      FloorCeilOfOffset(text, spans[i].hi);
    }
    forall i, j | 0 <= i < j < |r| ensures r[i].hi < r[j].lo {
      OffsetStrict(text, spans[i].hi, spans[j].lo);
    }
  }

  // --- widening each match into a window ---

  /** Room on both sides; what one side cannot use, the other borrows. */
  function Widen(focus: Span, context: nat, length: nat): Span {
    var before := context / 2;
    var start := if focus.lo < before then 0 else focus.lo - before;
    var end := Min(length, focus.hi + (context - before));
    var missing := Width(focus) + context - Width(Span(start, end));
    if missing > 0 then
      var left := Min(start, missing);
      Span(start - left, Min(length, end + (missing - left)))
    else Span(start, end)
  }

  /** A window contains its match and is as wide as the budget or the text allows. */
  lemma {:induction false} WidenUsesAllContext(focus: Span, context: nat, length: nat)
    requires focus.lo <= focus.hi <= length
    ensures var w := Widen(focus, context, length);
            && w.lo <= focus.lo && focus.hi <= w.hi <= length
            && Width(w) == Min(length, focus.hi - focus.lo + context)
  {
  }

  function ContextFor(index: nat, shared: nat, remainder: nat): nat {
    shared + if index < remainder then 1 else 0
  }

  function WindowsPrefix(focus: seq<Span>, shared: nat, remainder: nat, length: nat, k: nat): seq<Span>
    requires k <= |focus|
    decreases k
  {
    if k == 0 then []
    else Absorb(WindowsPrefix(focus, shared, remainder, length, k - 1),
                Widen(focus[k - 1], ContextFor(k - 1, shared, remainder), length))
  }

  function ContextSum(shared: nat, remainder: nat, k: nat): nat
    decreases k
  {
    if k == 0 then 0 else ContextSum(shared, remainder, k - 1) + ContextFor(k - 1, shared, remainder)
  }

  lemma {:induction false} ContextSumTotal(shared: nat, remainder: nat, k: nat)
    ensures ContextSum(shared, remainder, k) == k * shared + Min(k, remainder)
    decreases k
  {
    if k > 0 {
      ContextSumTotal(shared, remainder, k - 1);
      assert k * shared == (k - 1) * shared + shared;
    }
  }

  function WidthsUpTo(spans: seq<Span>, k: nat): int
    requires k <= |spans|
    decreases k
  {
    if k == 0 then 0 else WidthsUpTo(spans, k - 1) + Width(spans[k - 1])
  }

  lemma {:induction false} WidthsUpToTake(spans: seq<Span>, k: nat)
    requires k <= |spans|
    ensures WidthsUpTo(spans, k) == Widths(spans[..k])
    decreases k
  {
    if k > 0 {
      WidthsUpToTake(spans, k - 1);
      TakeSnoc(spans, k);
      WidthsSnoc(spans[..k - 1], spans[k - 1]);
    }
  }

  lemma {:induction false} WidthsSnoc(a: seq<Span>, s: Span)
    ensures Widths(a + [s]) == Widths(a) + Width(s)
  {
    JoinCut(a, [s]);
  }

  lemma {:induction false} AbsorbWidth(spans: seq<Span>, s: Span)
    requires s.lo <= s.hi
    requires spans != [] ==> spans[|spans| - 1].lo <= spans[|spans| - 1].hi
    ensures Widths(Absorb(spans, s)) <= Widths(spans) + Width(s)
  {
    var last := |spans| - 1;
    if spans == [] || s.lo > spans[last].hi {
      WidthsSnoc(spans, s);
    } else {
      WidthsSnoc(spans[..last], Span(spans[last].lo, Max(spans[last].hi, s.hi)));
    }
  }

  predicate Within(inner: Span, outer: Span) {
    outer.lo <= inner.lo && inner.hi <= outer.hi
  }

  /** The match lies whole inside one window. */
  predicate Holds(windows: seq<Span>, focus: Span)
    decreases |windows|
  {
    windows != [] && (Within(focus, windows[|windows| - 1]) || Holds(windows[..|windows| - 1], focus))
  }

  predicate HoldsFirst(windows: seq<Span>, focus: seq<Span>, k: nat)
    requires k <= |focus|
    decreases k
  {
    k == 0 || (Holds(windows, focus[k - 1]) && HoldsFirst(windows, focus, k - 1))
  }

  lemma {:induction false} AbsorbHolds(windows: seq<Span>, w: Span, focus: Span)
    requires Holds(windows, focus)
    ensures Holds(Absorb(windows, w), focus)
  {
    var last := |windows| - 1;
    if w.lo > windows[last].hi {
      JoinCut(windows, [w]);
    } else {
      JoinCut(windows[..last], [Span(windows[last].lo, Max(windows[last].hi, w.hi))]);
    }
  }

  lemma {:induction false} AbsorbHoldsFirst(windows: seq<Span>, w: Span, focus: seq<Span>, k: nat)
    requires k <= |focus| && HoldsFirst(windows, focus, k)
    ensures HoldsFirst(Absorb(windows, w), focus, k)
    decreases k
  {
    if k > 0 {
      AbsorbHoldsFirst(windows, w, focus, k - 1);
      AbsorbHolds(windows, w, focus[k - 1]);
    }
  }

  /** A window keeps its match when it fuses with its predecessor, because matches come in order. */
  lemma {:induction false} AbsorbedInLast(windows: seq<Span>, w: Span, focus: Span)
    requires Within(focus, w)
    requires windows != [] ==> windows[|windows| - 1].lo <= focus.lo
    ensures var r := Absorb(windows, w); Within(focus, r[|r| - 1]) && Holds(r, focus)
  {
  }

  lemma {:induction false} WellFormedEntry(spans: seq<Span>, limit: nat, k: nat)
    requires WellFormed(spans, limit) && k < |spans|
    ensures spans[k].lo < spans[k].hi <= limit
    ensures k > 0 ==> spans[k - 1].hi < spans[k].lo
  {
    WellFormedIsSeparated(spans, limit);
  }

  /** What holds of the windows once k matches are placed. */
  predicate Placed(windows: seq<Span>, focus: seq<Span>, length: nat, k: nat)
    requires k <= |focus|
  {
    && WellFormed(windows, length)
    && HoldsFirst(windows, focus, k)
    && (k == 0 ==> windows == [])
    && (k > 0 ==> windows != [] && Within(focus[k - 1], windows[|windows| - 1]))
  }

  lemma {:induction false} PlacedStep(windows: seq<Span>, focus: seq<Span>, length: nat, k: nat, w: Span)
    requires WellFormed(focus, length) && 0 < k <= |focus| && Placed(windows, focus, length, k - 1)
    requires Within(focus[k - 1], w) && w.hi <= length
    ensures Placed(Absorb(windows, w), focus, length, k)
  {
    WellFormedEntry(focus, length, k - 1);
    if k > 1 { WellFormedEntry(focus, length, k - 2); }
    hide WellFormed, Absorb, Holds;
    AbsorbSeparates(windows, w, length);
    AbsorbHoldsFirst(windows, w, focus, k - 1);
    AbsorbedInLast(windows, w, focus[k - 1]);
  }

  /** The windows stay separated, hold every match so far, and are no wider than matches and context handed out. */
  lemma {:induction false} WindowsProperties(focus: seq<Span>, shared: nat, remainder: nat, length: nat, k: nat)
    requires WellFormed(focus, length) && k <= |focus|
    ensures Placed(WindowsPrefix(focus, shared, remainder, length, k), focus, length, k)
    ensures Widths(WindowsPrefix(focus, shared, remainder, length, k))
         <= WidthsUpTo(focus, k) + ContextSum(shared, remainder, k)
    decreases k
  {
    if k > 0 {
      WindowsProperties(focus, shared, remainder, length, k - 1);
      WellFormedEntry(focus, length, k - 1);
      var before := WindowsPrefix(focus, shared, remainder, length, k - 1);
      var context := ContextFor(k - 1, shared, remainder);
      WidenUsesAllContext(focus[k - 1], context, length);
      hide Widen, ContextFor, Widths, HoldsFirst, Absorb;
      var w := Widen(focus[k - 1], context, length);
      PlacedStep(before, focus, length, k, w);
      if k > 1 { WellFormedEntry(before, length, |before| - 1); }
      AbsorbWidth(before, w);
    }
  }

  /** Each match gets an equal share of the bytes left over, the first ones one byte more. */
  function SharedWindows(focus: seq<Span>, length: nat, maxBytes: nat): seq<Span>
    requires focus != [] && Required(focus) <= maxBytes
  {
    var remaining := maxBytes - Required(focus);
    WindowsPrefix(focus, remaining / |focus|, remaining % |focus|, length, |focus|)
  }

  /** Separated windows, holding each match, within the byte budget together with their separators. */
  predicate Sound(windows: seq<Span>, focus: seq<Span>, length: nat, maxBytes: nat) {
    && WellFormed(windows, length) && windows != []
    && HoldsFirst(windows, focus, |focus|)
    && Required(windows) <= maxBytes
  }

  lemma {:induction false} SharedWindowsAreSound(focus: seq<Span>, length: nat, maxBytes: nat)
    requires WellFormed(focus, length) && focus != [] && Required(focus) <= maxBytes
    ensures Sound(SharedWindows(focus, length, maxBytes), focus, length, maxBytes)
  {
    hide Sound, Required, WellFormed, WindowsPrefix;
    var remaining := maxBytes - Required(focus);
    assert |focus| * (remaining / |focus|) + remaining % |focus| == remaining;
    SharesAreSound(focus, length, maxBytes, remaining / |focus|, remaining % |focus|);
  }

  lemma {:induction false} SharesAreSound(focus: seq<Span>, length: nat, maxBytes: nat, shared: nat, remainder: nat)
    requires WellFormed(focus, length) && focus != []
    requires Required(focus) + |focus| * shared + remainder == maxBytes
    ensures Sound(WindowsPrefix(focus, shared, remainder, length, |focus|), focus, length, maxBytes)
  {
    ContextSumTotal(shared, remainder, |focus|);
    WidthsUpToTake(focus, |focus|);
    TakeAll(focus);
    hide WindowsPrefix, ContextSum, Widths, WidthsUpTo, HoldsFirst, WellFormed;
    WindowsProperties(focus, shared, remainder, length, |focus|);
    FewerWindows(focus, shared, remainder, length, |focus|);
  }

  lemma {:induction false} FewerWindows(focus: seq<Span>, shared: nat, remainder: nat, length: nat, k: nat)
    requires k <= |focus|
    ensures |WindowsPrefix(focus, shared, remainder, length, k)| <= k
    decreases k
  {
    if k > 0 { FewerWindows(focus, shared, remainder, length, k - 1); }
  }

  function Windows(text: string, spans: seq<Span>, count: nat, maxBytes: nat): (ws: seq<Span>)
    requires WellFormed(spans, |text|) && 1 <= count <= |spans|
    requires Fits(text, spans, count, maxBytes)
    ensures Sound(ws, SelectionBytes(text, spans, count), Size(text), maxBytes)
  {
    SelectionIsWellFormed(text, spans, count);
    SharedWindowsAreSound(SelectionBytes(text, spans, count), Size(text), maxBytes);
    SharedWindows(SelectionBytes(text, spans, count), Size(text), maxBytes)
  }

  // --- what a window shows ---

  function Snippet(text: string, w: Span): string
    requires w.lo <= w.hi <= Size(text)
  {
    DecodeIgnore(Encode(text)[w.lo..w.hi])
  }

  function Snippets(text: string, windows: seq<Span>): (r: seq<string>)
    requires WellFormed(windows, Size(text))
    ensures |r| == |windows|
    decreases |windows|
  {
    if windows == [] then []
    else var last := |windows| - 1; Snippets(text, windows[..last]) + [Snippet(text, windows[last])]
  }

  /** The characters that lie whole inside a byte window. */
  function Shown(text: string, w: Span): Span {
    var lo, hi := Ceil(text, w.lo), Floor(text, w.hi);
    Span(lo, if lo <= hi then hi else lo)
  }

  function ShownRanges(text: string, windows: seq<Span>): (r: seq<Span>)
    ensures |r| == |windows|
    decreases |windows|
  {
    if windows == [] then []
    else var last := |windows| - 1; ShownRanges(text, windows[..last]) + [Shown(text, windows[last])]
  }

  /** A window shows a contiguous piece of the text, no wider than the window, with every match inside it whole. */
  lemma {:induction false} WindowShows(text: string, w: Span)
    requires w.lo <= w.hi <= Size(text)
    ensures var c := Shown(text, w);
            && c.lo <= c.hi <= |text|
            && Snippet(text, w) == text[c.lo..c.hi]
            && Size(Snippet(text, w)) <= Width(w)
  {
    hide Encode, DecodeIgnore;
    var c := Shown(text, w);
    SliceDecodes(text, w.lo, w.hi);
    CeilIsLeast(text, w.lo, c.lo);
    EncodedSlice(text, c.lo, c.hi);
    if Ceil(text, w.lo) <= Floor(text, w.hi) { FloorIsGreatest(text, w.hi, c.hi); } else { EmptySize(); }
  }

  lemma {:induction false} MatchIsShown(text: string, w: Span, s: Span)
    requires s.lo < s.hi <= |text| && w.lo <= w.hi <= Size(text)
    requires Within(ByteSpan(text, s), w)
    ensures Within(s, Shown(text, w))
  {
    CeilIsLeast(text, w.lo, s.lo);
    FloorIsGreatest(text, w.hi, s.hi);
  }

  lemma {:induction false} FloorBeforeCeil(text: string, p: nat, q: nat)
    requires p <= q <= Size(text)
    ensures Floor(text, p) <= Ceil(text, q)
  {
    var f, c := Floor(text, p), Ceil(text, q);
    FloorIsGreatest(text, p, f);
    CeilIsLeast(text, q, c);
    if c < f { OffsetStrict(text, c, f); }
  }

  lemma {:induction false} CeilMonotone(text: string, p: nat, q: nat)
    requires p <= q <= Size(text)
    ensures Ceil(text, p) <= Ceil(text, q)
  {
    CeilIsLeast(text, q, Ceil(text, q));
    CeilIsLeast(text, p, Ceil(text, q));
  }

  lemma {:induction false} ShownRangesAreOrdered(text: string, windows: seq<Span>)
    requires WellFormed(windows, Size(text))
    ensures Ordered(ShownRanges(text, windows), |text|)
    ensures Pieces(text, ShownRanges(text, windows)) == Snippets(text, windows)
    decreases |windows|
  {
    if windows != [] {
      var last := |windows| - 1;
      var w := windows[last];
      ShownRangesAreOrdered(text, windows[..last]);
      WindowShows(text, w);
      JoinCut(ShownRanges(text, windows[..last]), [Shown(text, w)]);
      if last > 0 {
        var v := windows[last - 1];
        assert windows[..last][last - 1] == v;
        WellFormedEntry(windows, Size(text), last - 1);
        FloorBeforeCeil(text, v.hi, w.lo);
        CeilMonotone(text, v.lo, w.lo);
        assert ShownRanges(text, windows[..last])[last - 1] == Shown(text, v);
      }
    }
  }

  lemma {:induction false} JoinedSnippetsSize(text: string, windows: seq<Span>)
    requires WellFormed(windows, Size(text)) && windows != []
    ensures Size(Join(Snippets(text, windows))) <= Required(windows)
    decreases |windows|
  {
    var last := |windows| - 1;
    WindowShows(text, windows[last]);
    hide Encode, Snippet, Shown;
    var front := Snippets(text, windows[..last]);
    JoinCut(front, [Snippet(text, windows[last])]);
    if last == 0 {
      assert windows[..0] == [] && Widths(windows[..0]) == 0;
      assert Snippets(text, windows) == [Snippet(text, windows[0])];
    } else {
      JoinedSnippetsSize(text, windows[..last]);
      SeparatorSize();
      SizeOfConcat(Join(front), SEPARATOR);
      SizeOfConcat(Join(front) + SEPARATOR, Snippet(text, windows[last]));
    }
  }

  lemma {:induction false} MatchStaysWhole(text: string, windows: seq<Span>, s: Span)
    requires WellFormed(windows, Size(text)) && s.lo < s.hi <= |text|
    requires Holds(windows, ByteSpan(text, s))
    ensures Holds(ShownRanges(text, windows), s)
    decreases |windows|
  {
    var last := |windows| - 1;
    JoinCut(ShownRanges(text, windows[..last]), [Shown(text, windows[last])]);
    if Within(ByteSpan(text, s), windows[last]) {
      MatchIsShown(text, windows[last], s);
    } else {
      MatchStaysWhole(text, windows[..last], s);
    }
  }

  lemma {:induction false} MatchesStayWhole(text: string, windows: seq<Span>, spans: seq<Span>, k: nat)
    requires WellFormed(windows, Size(text)) && NonEmptyWithin(spans, |text|) && k <= |spans|
    requires HoldsFirst(windows, ByteSpans(text, spans), k)
    ensures HoldsFirst(ShownRanges(text, windows), spans, k)
    decreases k
  {
    if k > 0 {
      MatchesStayWhole(text, windows, spans, k - 1);
      MatchStaysWhole(text, windows, spans[k - 1]);
    }
  }

  /** The value of `_fit_focused_windows`. */
  function Focused(text: string, spans: seq<Span>, maxBytes: nat): string
    requires WellFormed(spans, |text|) && spans != []
  {
    var n := SelectedCount(text, spans, Min(|spans|, MAX_FOCUSED_WINDOWS), maxBytes);
    if n == 0 then
      WellFormedEntry(spans, |text|, |spans| / 2);
      Truncate(text[spans[|spans| / 2].lo..], maxBytes)
    else
      SelectedCountIsLargest(text, spans, Min(|spans|, MAX_FOCUSED_WINDOWS), maxBytes, n);
      Join(Snippets(text, Windows(text, spans, n, maxBytes)))
  }

  /**
   * When n matches fit, the excerpt is a sequence of ordered, disjoint pieces of the text within the byte bound,
   * and each of the n selected matches lies whole inside one piece.
   */
  lemma {:induction false} FocusedShowsMatches(text: string, spans: seq<Span>, n: nat, maxBytes: nat)
    requires WellFormed(spans, |text|) && 1 <= n <= |spans| && Fits(text, spans, n, maxBytes)
    ensures var windows := Windows(text, spans, n, maxBytes);
            var ranges := ShownRanges(text, windows);
            var r := Join(Snippets(text, windows));
            && Ordered(ranges, |text|) && r == Join(Pieces(text, ranges))
            && Size(r) <= maxBytes
            && HoldsFirst(ranges, Distributed(spans, n), n)
  {
    var windows := Windows(text, spans, n, maxBytes);
    WellFormedIsSeparated(spans, |text|);
    DistributedIsSeparated(spans, n, |text|);
    assert HoldsFirst(windows, ByteSpans(text, Distributed(spans, n)), n);
    hide Windows, HoldsFirst, WellFormed, Join, Snippets, Pieces, Encode, Separated;
    ShownRangesAreOrdered(text, windows);
    JoinedSnippetsSize(text, windows);
    MatchesStayWhole(text, windows, Distributed(spans, n), n);
  }

  lemma {:induction false} TruncateFits(text: string, lo: nat, maxBytes: nat)
    requires lo <= |text|
    ensures Size(Truncate(text[lo..], maxBytes)) <= maxBytes
    ensures IsElision(text, Truncate(text[lo..], maxBytes))
  {
    hide Encode, DecodeIgnore;
    TruncateIsLongestPrefix(text[lo..], maxBytes);
    var k := |Truncate(text[lo..], maxBytes)|;
    assert text[lo..][..k] == text[lo..lo + k];
    OnePieceIsElision(text, lo, lo + k);
  }

  /** Whatever the matches and the bound, the focused excerpt keeps the bound and the order of the text. */
  lemma {:induction false} FocusedFits(text: string, spans: seq<Span>, maxBytes: nat)
    requires WellFormed(spans, |text|) && spans != []
    ensures Size(Focused(text, spans, maxBytes)) <= maxBytes
    ensures IsElision(text, Focused(text, spans, maxBytes))
  {
    var top := Min(|spans|, MAX_FOCUSED_WINDOWS);
    var n := SelectedCount(text, spans, top, maxBytes);
    if n == 0 {
      WellFormedEntry(spans, |text|, |spans| / 2);
      TruncateFits(text, spans[|spans| / 2].lo, maxBytes);
    } else {
      SelectedCountIsLargest(text, spans, top, maxBytes, n);
      hide Windows, WellFormed, Join, Snippets, Pieces, Encode;
      FocusedShowsMatches(text, spans, n, maxBytes);
    }
  }

  /** The loop of `_fit_focused_windows` that tries fewer and fewer matches. */
  method SelectByteSpans(text: string, spans: seq<Span>, maxBytes: nat) returns (selected: seq<Span>)
    requires WellFormed(spans, |text|) && spans != []
    ensures var n := SelectedCount(text, spans, Min(|spans|, MAX_FOCUSED_WINDOWS), maxBytes);
            selected == if n == 0 then [] else SelectionBytes(text, spans, n)
  {
    hide SelectionBytes, Required, WellFormed;
    ghost var top := Min(|spans|, MAX_FOCUSED_WINDOWS);
    var count := Min(|spans|, MAX_FOCUSED_WINDOWS);
    while count > 0
      invariant count <= top
      invariant SelectedCount(text, spans, top, maxBytes) == SelectedCount(text, spans, count, maxBytes)
    {
      var byteSpans := SelectionBytes(text, spans, count);
      if Required(byteSpans) <= maxBytes {
        return byteSpans;
      }
      count := count - 1;
    }
    return [];
  }

  /** Clip the window to the text, then let it borrow on the left and on the right what the clipping lost. */
  method WidenMatch(focus: Span, context: nat, length: nat) returns (w: Span)
    ensures w == Widen(focus, context, length)
  {
    var before := context / 2;
    var start := if focus.lo < before then 0 else focus.lo - before;
    var end := Min(length, focus.hi + (context - before));
    var missing := Width(focus) + context - Width(Span(start, end));
    if missing > 0 {
      var left := Min(start, missing);
      start := start - left;
      missing := missing - left;
      end := Min(length, end + missing);
    }
    w := Span(start, end);
  }

  /** The loop of `_fit_focused_windows` that widens each match and fuses touching windows. */
  method PlaceWindows(focus: seq<Span>, length: nat, shared: nat, remainder: nat) returns (windows: seq<Span>)
    ensures windows == WindowsPrefix(focus, shared, remainder, length, |focus|)
  {
    hide Widen;
    windows := [];
    for index := 0 to |focus|
      invariant windows == WindowsPrefix(focus, shared, remainder, length, index)
    {
      var w := WidenMatch(focus[index], shared + if index < remainder then 1 else 0, length);
      if windows != [] && w.lo <= windows[|windows| - 1].hi {
        var previous := windows[|windows| - 1];
        windows := windows[..|windows| - 1] + [Span(previous.lo, Max(previous.hi, w.hi))];
      } else {
        windows := windows + [w];
      }
    }
  }

  /** `_fit_focused_windows`. */
  method FitFocusedWindows(text: string, spans: seq<Span>, maxBytes: nat) returns (r: string)
    requires WellFormed(spans, |text|) && spans != []
    ensures r == Focused(text, spans, maxBytes)
  {
    hide SelectionBytes, Required, WellFormed, Truncate, Snippets, Join, Encode, WindowsPrefix, SharedWindows;
    ghost var top := Min(|spans|, MAX_FOCUSED_WINDOWS);
    ghost var n := SelectedCount(text, spans, top, maxBytes);
    var selected := SelectByteSpans(text, spans, maxBytes);
    if selected == [] {
      WellFormedEntry(spans, |text|, |spans| / 2);
      return Truncate(text[spans[|spans| / 2].lo..], maxBytes);
    }
    SelectedCountIsLargest(text, spans, top, maxBytes, n);
    SelectionIsWellFormed(text, spans, n);
    var windows := ShareContext(selected, Size(text), maxBytes);
    assert windows == Windows(text, spans, n, maxBytes);
    r := Join(Snippets(text, windows));
  }

  /** Quotient and remainder of what the matches leave of the bound are shared out as context. */
  method ShareContext(selected: seq<Span>, length: nat, maxBytes: nat) returns (windows: seq<Span>)
    requires WellFormed(selected, length) && selected != [] && Required(selected) <= maxBytes
    ensures windows == SharedWindows(selected, length, maxBytes) && Sound(windows, selected, length, maxBytes)
  {
    hide WellFormed, WindowsPrefix, Sound;
    SharedWindowsAreSound(selected, length, maxBytes);
    var remaining := maxBytes - Required(selected);
    windows := PlaceWindows(selected, length, remaining / |selected|, remaining % |selected|);
  }

  // --- _focused_truncate_utf8 ---

  /** The first position at or after p that is not a continuation byte. */
  function SkipContinuations(b: bytes, p: nat): (q: nat)
    requires p <= |b|
    ensures p <= q <= |b| && IsBoundary(b, q)
    ensures forall i | p <= i < q :: IsContinuation(b[i])
    decreases |b| - p
  {
    if p < |b| && IsContinuation(b[p]) then SkipContinuations(b, p + 1) else p
  }

  /** Byte windows of the head, middle and tail kept when no match can be shown. */
  function HeadMiddleTail(text: string, maxBytes: nat): (Span, Span, Span)
    requires SEPARATOR_BYTES * 2 + 3 < maxBytes < Size(text)
  {
    var available := maxBytes - SEPARATOR_BYTES * 2;
    var part := available / 3;
    var start := SkipContinuations(Encode(text), (Size(text) - part) / 2);
    (Span(0, part), Span(start, Min(start + part, Size(text))),
      Span(Size(text) - (available - part - part), Size(text)))
  }

  function ThreeParts(text: string, maxBytes: nat): string
    requires SEPARATOR_BYTES * 2 + 3 < maxBytes < Size(text)
  {
    var (head, middle, tail) := HeadMiddleTail(text, maxBytes);
    Truncate(text, head.hi) + SEPARATOR + Snippet(text, middle) + SEPARATOR + Snippet(text, tail)
  }

  /** `_focused_truncate_utf8`, where `spans` are the merged match spans of the text. */
  function FocusedTruncate(text: string, maxBytes: nat, spans: seq<Span>): string
    requires WellFormed(spans, |text|)
  {
    if Size(text) <= maxBytes then text
    else if spans != [] && Focused(text, spans, maxBytes) != "" then Focused(text, spans, maxBytes)
    else if maxBytes <= SEPARATOR_BYTES * 2 + 3 then Truncate(text, maxBytes)
    else ThreeParts(text, maxBytes)
  }

  /** The middle window lies after the head and before the tail. */
  lemma {:induction false} PartsAreSeparated(text: string, maxBytes: nat)
    requires SEPARATOR_BYTES * 2 + 3 < maxBytes < Size(text)
    ensures var (head, middle, tail) := HeadMiddleTail(text, maxBytes);
            && WellFormed([head, middle, tail], Size(text))
            && Required([head, middle, tail]) <= maxBytes
  {
    var (head, middle, tail) := HeadMiddleTail(text, maxBytes);
    var from := (Size(text) - head.hi) / 2;
    NoFourContinuations(text, from);
    assert middle.lo <= from + 3;
    assert head.hi < middle.lo <= middle.hi < tail.lo < tail.hi == Size(text);
    assert Width(head) + Width(middle) + Width(tail) + SEPARATOR_BYTES * 2 <= maxBytes;
    hide Encode, HeadMiddleTail;
    var ws := [head, middle, tail];
    assert ws[..2] == [head, middle] && [head, middle][..1] == [head] && [head][..0] == [];
    assert WellFormed([head], Size(text));
    assert [head, middle][0] == head && [head, middle][1] == middle;
    assert WellFormed([head, middle], Size(text));
    assert Widths([head]) == Width(head) && Widths([head, middle]) == Width(head) + Width(middle);
  }

  lemma {:induction false} ThreePartsFit(text: string, maxBytes: nat)
    requires SEPARATOR_BYTES * 2 + 3 < maxBytes < Size(text)
    ensures Size(ThreeParts(text, maxBytes)) <= maxBytes
    ensures IsElision(text, ThreeParts(text, maxBytes))
  {
    var (head, middle, tail) := HeadMiddleTail(text, maxBytes);
    var ws := [head, middle, tail];
    PartsAreSeparated(text, maxBytes);
    ThreeSnippets(text, head, middle, tail);
    assert Truncate(text, head.hi) == Snippet(text, head) by {
      assert Encode(text)[0..head.hi] == Encode(text)[..head.hi];
    }
    hide HeadMiddleTail, Snippet, Snippets, Join, Encode, WellFormed, Required;
    JoinedSnippetsSize(text, ws);
    ShownRangesAreOrdered(text, ws);
  }

  lemma {:induction false} ThreeSnippets(text: string, a: Span, b: Span, c: Span)
    requires WellFormed([a, b, c], Size(text))
    ensures a.lo <= a.hi <= Size(text) && b.lo <= b.hi <= Size(text) && c.lo <= c.hi <= Size(text)
    ensures Join(Snippets(text, [a, b, c]))
         == Snippet(text, a) + SEPARATOR + Snippet(text, b) + SEPARATOR + Snippet(text, c)
  {
    SnippetsOfThree(text, a, b, c);
    JoinThree(Snippet(text, a), Snippet(text, b), Snippet(text, c));
  }

  lemma {:induction false} SnippetsOfThree(text: string, a: Span, b: Span, c: Span)
    requires WellFormed([a, b, c], Size(text))
    ensures a.lo <= a.hi <= Size(text) && b.lo <= b.hi <= Size(text) && c.lo <= c.hi <= Size(text)
    ensures Snippets(text, [a, b, c]) == [Snippet(text, a), Snippet(text, b), Snippet(text, c)]
  {
    WellFormedEntry([a, b, c], Size(text), 0);
    WellFormedEntry([a, b, c], Size(text), 1);
    WellFormedEntry([a, b, c], Size(text), 2);
    hide Encode, Snippet;
    assert [a, b, c][..2] == [a, b];
    assert [a, b][..1] == [a];
    assert [a][..0] == [];
    assert Snippets(text, [a]) == [Snippet(text, a)];
    assert Snippets(text, [a, b]) == [Snippet(text, a), Snippet(text, b)];
  }

  lemma {:induction false} JoinThree(x: string, y: string, z: string)
    ensures Join([x, y, z]) == x + SEPARATOR + y + SEPARATOR + z
  {
    assert [x, y, z][..2] == [x, y] && [x, y][..1] == [x];
    assert Join([x, y]) == x + SEPARATOR + y;
  }

  /** Every branch keeps the byte bound and shows only pieces of the text, in order; a text that fits is kept whole. */
  lemma {:induction false} FocusedTruncateIsBoundedElision(text: string, maxBytes: nat, spans: seq<Span>)
    requires WellFormed(spans, |text|)
    ensures var r := FocusedTruncate(text, maxBytes, spans);
            && Size(r) <= maxBytes
            && IsElision(text, r)
            && (r == text <==> Size(text) <= maxBytes)
  {
    hide Encode, ThreeParts, Focused, DecodeIgnore;
    assert text[0..] == text;
    if Size(text) <= maxBytes {
      OnePieceIsElision(text, 0, |text|);
      assert text[0..|text|] == text;
    } else if spans != [] && Focused(text, spans, maxBytes) != "" {
      FocusedFits(text, spans, maxBytes);
    } else if maxBytes <= SEPARATOR_BYTES * 2 + 3 {
      TruncateFits(text, 0, maxBytes);
    } else {
      ThreePartsFit(text, maxBytes);
    }
  }

  /** The loop that moves the middle window to a boundary. */
  method MiddleStart(encoded: bytes, from: nat) returns (start: nat)
    requires from <= |encoded|
    ensures start == SkipContinuations(encoded, from)
  {
    start := from;
    while start < |encoded| && IsContinuation(encoded[start])
      invariant from <= start <= |encoded| && SkipContinuations(encoded, from) == SkipContinuations(encoded, start)
    {
      start := start + 1;
    }
  }

  method HeadMiddleTailOf(text: string, maxBytes: nat) returns (r: string)
    requires SEPARATOR_BYTES * 2 + 3 < maxBytes < Size(text)
    ensures r == ThreeParts(text, maxBytes)
  {
    hide DecodeIgnore, Truncate;
    var encoded := Encode(text);
    hide Encode;
    var available := maxBytes - SEPARATOR_BYTES * 2;
    var headBytes, middleBytes := available / 3, available / 3;
    var tailBytes := available - headBytes - middleBytes;
    var head := Truncate(text, headBytes);
    var middleStart := MiddleStart(encoded, (|encoded| - middleBytes) / 2);
    var middle := DecodeIgnore(encoded[middleStart..Min(middleStart + middleBytes, |encoded|)]);
    var tail := DecodeIgnore(encoded[|encoded| - tailBytes..]);
    assert encoded[|encoded| - tailBytes..] == encoded[|encoded| - tailBytes..|encoded|];
    r := head + SEPARATOR + middle + SEPARATOR + tail;
  }

  /** `_focused_truncate_utf8`. */
  method FocusedTruncateUtf8(text: string, maxBytes: nat, spans: seq<Span>) returns (r: string)
    requires WellFormed(spans, |text|)
    ensures r == FocusedTruncate(text, maxBytes, spans)
  {
    hide Encode, WellFormed, Focused, Truncate, ThreeParts;
    if Size(text) <= maxBytes {
      return text;
    }
    if spans != [] {
      var focused := FitFocusedWindows(text, spans, maxBytes);
      if focused != "" {
        return focused;
      }
    }
    if maxBytes <= SEPARATOR_BYTES * 2 + 3 {
      return Truncate(text, maxBytes);
    }
    r := HeadMiddleTailOf(text, maxBytes);
  }
}
