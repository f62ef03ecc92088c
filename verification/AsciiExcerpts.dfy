/** Excerpts of one byte a character, and a class of hits for which the search finds the largest excerpt bound. */
module AsciiExcerpts {
  import opened ContextBuilder
  import opened ContextPacking
  import opened FocusWindows
  import opened JsonRecords
  import opened Slices
  import opened Spans
  import opened Utf8

  // --- texts of one byte a character ---

  predicate IsAscii(s: string) {
    forall i | 0 <= i < |s| :: s[i] as int < 0x80
  }

  lemma {:induction false} SizeOfAscii(s: string)
    requires IsAscii(s)
    ensures Size(s) == |s|
  {
    if s == "" {
      EmptySize();
    } else {
      assert s == [s[0]] + s[1..];
      AsciiSize(s[0]);
      SizeOfAscii(s[1..]);
      hide Encode;
      SizeOfConcat([s[0]], s[1..]);
    }
  }

  lemma {:induction false} AsciiOffset(s: string, k: nat)
    requires IsAscii(s) && k <= |s|
    ensures Offset(s, k) == k && Floor(s, k) == k && Ceil(s, k) == k
  {
    assert s[0..k] == s[..k];
    assert Offset(s, 0) == 0;
    hide Encode, Offset, Floor, Ceil;
    EncodedSlice(s, 0, k);
    SizeOfAscii(s[..k]);
    FloorCeilOfOffset(s, k);
  }

  lemma {:induction false} AsciiSnippet(s: string, w: Span)
    requires IsAscii(s) && w.lo <= w.hi <= |s|
    ensures Size(s) == |s| && Snippet(s, w) == s[w.lo..w.hi]
  {
    hide Snippet, Floor, Ceil;
    SizeOfAscii(s);
    WindowShows(s, w);
    AsciiOffset(s, w.lo);
    AsciiOffset(s, w.hi);
  }

  lemma {:induction false} AsciiTruncate(s: string, n: nat)
    requires IsAscii(s) && n <= |s|
    ensures Truncate(s, n) == s[..n]
  {
    hide Truncate;
    TruncateIsLongestPrefix(s, n);
    AsciiOffset(s, |Truncate(s, n)|);
    AsciiOffset(s, n);
  }

  lemma {:induction false} AsciiStart(s: string, p: nat)
    requires IsAscii(s) && p <= |s|
    ensures p <= |Encode(s)| && SkipContinuations(Encode(s), p) == p
  {
    SizeOfAscii(s);
    AsciiOffset(s, p);
    hide Encode, Floor, Offset;
    BoundaryIsOffset(s, p);
  }

  // --- cuts of texts that JSON writes as they are ---

  predicate NeedsNoEscape(s: string) {
    forall i | 0 <= i < |s| :: s[i] as int >= 0x20 && s[i] != '"' && s[i] != '\\'
  }

  lemma {:induction false} EscapeOfPlain(s: string)
    requires NeedsNoEscape(s)
    ensures Escape(s) == s
  {
    if s != "" {
      EscapeOfPlain(s[1..]);
      HeadTail(s);
    }
  }

  /** Without a match, a cut of an ASCII text takes exactly its bound, or the whole text. */
  lemma {:induction false} AsciiCutSize(s: string, bound: nat)
    requires IsAscii(s)
    ensures Size(FocusedTruncate(s, bound, [])) == if |s| <= bound then |s| else bound
    ensures NeedsNoEscape(s) ==> NeedsNoEscape(FocusedTruncate(s, bound, []))
  {
    hide Encode, Truncate, ThreeParts;
    SizeOfAscii(s);
    if |s| <= bound {
    } else if bound <= SEPARATOR_BYTES * 2 + 3 {
      AsciiTruncate(s, bound);
      SizeOfAscii(s[..bound]);
    } else {
      AsciiThreeParts(s, bound);
    }
  }

  lemma {:induction false} AsciiThreeParts(s: string, bound: nat)
    requires IsAscii(s) && SEPARATOR_BYTES * 2 + 3 < bound < |s|
    ensures Size(s) == |s| && Size(ThreeParts(s, bound)) == bound
    ensures NeedsNoEscape(s) ==> NeedsNoEscape(ThreeParts(s, bound))
  {
    SizeOfAscii(s);
    PartsAreSeparated(s, bound);
    var (head, middle, tail) := HeadMiddleTail(s, bound);
    var part := (bound - SEPARATOR_BYTES * 2) / 3;
    AsciiStart(s, (|s| - part) / 2);
    hide Encode, Truncate, Snippet, SkipContinuations, WellFormed;
    AsciiTruncate(s, head.hi);
    AsciiSnippet(s, middle);
    AsciiSnippet(s, tail);
    assert head.hi + (middle.hi - middle.lo) + (tail.hi - tail.lo) + SEPARATOR_BYTES * 2 == bound;
    hide HeadMiddleTail, IsAscii, NeedsNoEscape;
    JoinedPieces(s, head.hi, middle, tail);
  }

  lemma {:induction false} JoinedPieces(s: string, n: nat, middle: Span, tail: Span)
    requires IsAscii(s) && n <= |s| && middle.lo <= middle.hi <= |s| && tail.lo <= tail.hi <= |s|
    ensures var joined := s[..n] + SEPARATOR + s[middle.lo..middle.hi] + SEPARATOR + s[tail.lo..tail.hi];
            && Size(joined) == n + (middle.hi - middle.lo) + (tail.hi - tail.lo) + SEPARATOR_BYTES * 2
            && (NeedsNoEscape(s) ==> NeedsNoEscape(joined))
  {
    var a, b, c := s[..n], s[middle.lo..middle.hi], s[tail.lo..tail.hi];
    SizeOfAscii(a);
    SizeOfAscii(b);
    SizeOfAscii(c);
    SeparatorSize();
    assert NeedsNoEscape(SEPARATOR);
    assert NeedsNoEscape(s) ==> NeedsNoEscape(a) && NeedsNoEscape(b) && NeedsNoEscape(c);
    hide Encode, IsAscii, NeedsNoEscape;
    SizeOfConcat(a, SEPARATOR);
    SizeOfConcat(a + SEPARATOR, b);
    SizeOfConcat(a + SEPARATOR + b, SEPARATOR);
    SizeOfConcat(a + SEPARATOR + b + SEPARATOR, c);
    JoinNeedsNoEscape(a, SEPARATOR);
    JoinNeedsNoEscape(a + SEPARATOR, b);
    JoinNeedsNoEscape(a + SEPARATOR + b, SEPARATOR);
    JoinNeedsNoEscape(a + SEPARATOR + b + SEPARATOR, c);
  }

  lemma {:induction false} JoinNeedsNoEscape(a: string, b: string)
    ensures NeedsNoEscape(a) && NeedsNoEscape(b) ==> NeedsNoEscape(a + b)
  {
  }

  // --- a class of hits for which fitting is monotone ---

  /** An ASCII excerpt that needs no JSON escape and has no focus match. */
  predicate IsPlain(h: Hit) {
    IsAscii(h.excerpt) && NeedsNoEscape(h.excerpt) && h.focus == []
  }

  lemma {:induction false} PlainCut(h: Hit, bound: nat)
    requires IsPlain(h)
    ensures Size(Escape(Cut(h, bound))) == (if |h.excerpt| <= bound then |h.excerpt| else bound)
    ensures Cut(h, bound) != "" <==> h.excerpt != "" && bound > 0
  {
    hide FocusedTruncate, Encode, Escape;
    AsciiCutSize(h.excerpt, bound);
    EscapeOfPlain(Cut(h, bound));
    EmptySize();
    SizeAtLeastLength(Cut(h, bound));
  }

  predicate AllPlain(required: seq<Hit>) {
    forall i | 0 <= i < |required| :: IsPlain(required[i])
  }

  lemma {:induction false} SmallerCutsShow(required: seq<Hit>, b: nat, c: nat, k: nat)
    requires AllPlain(required) && 0 < b <= c && k <= |required| && AllCutsShow(required, c, k)
    ensures AllCutsShow(required, b, k)
    decreases k
  {
    hide IsPlain, Cut;
    if k > 0 {
      PlainCut(required[k - 1], b);
      PlainCut(required[k - 1], c);
      SmallerCutsShow(required, b, c, k - 1);
    }
  }

  lemma {:induction false} SmallerCutsAreSmaller(required: seq<Hit>, profile: nat, b: nat, c: nat, k: nat)
    requires profile < PROFILE_COUNT && AllPlain(required) && b <= c && k <= |required|
    ensures JsonSize(CutRecords(required, profile, b, k)) <= JsonSize(CutRecords(required, profile, c, k))
    decreases k
  {
    hide IsPlain, Cut, JsonSize, Encode, Escape;
    if k > 0 {
      var h := required[k - 1];
      SmallerCutsAreSmaller(required, profile, b, c, k - 1);
      PlainCut(h, b);
      PlainCut(h, c);
      JsonSizeSnoc(CutRecords(required, profile, b, k - 1), CutRecord(h, profile, b));
      JsonSizeSnoc(CutRecords(required, profile, c, k - 1), CutRecord(h, profile, c));
      SizeOf3(h.profiles[profile].before, Escape(Cut(h, b)), h.profiles[profile].after);
      SizeOf3(h.profiles[profile].before, Escape(Cut(h, c)), h.profiles[profile].after);
    }
  }

  /** For plain required hits every bound below a fitting one fits, so the search finds the largest bound that fits. */
  lemma {:induction false} PlainFindsLargest(required: seq<Hit>, profile: nat, excerptBudget: nat, maxBytes: nat)
    requires profile < PROFILE_COUNT && AllPlain(required)
    ensures NoneFits(required, profile, maxBytes, BoundFrom(required, profile, maxBytes, 1, excerptBudget),
        excerptBudget)
  {
    forall b, c | 1 <= b < c <= excerptBudget && FitsAt(required, profile, maxBytes, c)
      ensures FitsAt(required, profile, maxBytes, b)
    {
      hide FitRequired, AllPlain, AllCutsShow, JsonSize, CutRecords;
      FitRequiredIsWholeBlock(required, profile, b, maxBytes, |required|);
      FitRequiredIsWholeBlock(required, profile, c, maxBytes, |required|);
      SmallerCutsShow(required, b, c, |required|);
      SmallerCutsAreSmaller(required, profile, b, c, |required|);
    }
    hide FitsAt;
    MonotoneFindsLargest(required, profile, maxBytes, 1, excerptBudget);
  }
}
