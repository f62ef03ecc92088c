/** An excerpt on which the binary search of `_build_context` misses the largest excerpt bound that fits. */
module BoundWitness {
  import opened AsciiExcerpts
  import opened ContextBuilder
  import opened ContextPacking
  import opened FocusWindows
  import opened JsonRecords
  import opened Spans
  import opened Utf8

  // --- the excerpt: 13 double quotes, which JSON writes as two bytes each, and 20 letters ---

  function Quotes(n: nat): (s: string)
    ensures |s| == n && forall i | 0 <= i < n :: s[i] == '"'
  {
    seq(n, i => '"')
  }

  function Excerpt(): (s: string)
    ensures |s| == 33 && IsAscii(s)
    ensures s[..13] == Quotes(13) && forall i | 13 <= i < 33 :: s[i] == 'a'
  {
    Quotes(13) + seq(20, i => 'a')
  }

  lemma {:induction false} QuotesSize(n: nat)
    ensures Size(Escape(Quotes(n))) == 2 * n
  {
    if n == 0 {
      EmptySize();
    } else {
      assert Quotes(n)[1..] == Quotes(n - 1);
      QuotesSize(n - 1);
      SizeOfAscii(['\\', '"']);
      hide Encode;
      SizeOfConcat(['\\', '"'], Escape(Quotes(n - 1)));
    }
  }

  /** A bound of at most 13 bytes keeps that many quotes. */
  lemma {:induction false} CutOfQuotes(bound: nat)
    requires bound <= 13
    ensures FocusedTruncate(Excerpt(), bound, []) == Quotes(bound)
  {
    var s := Excerpt();
    hide Excerpt, Truncate;
    SizeOfAscii(s);
    AsciiTruncate(s, bound);
    assert s[..bound] == s[..13][..bound] == Quotes(bound);
  }

  /** A bound of 14 bytes shows one quote of the head, one letter of the middle and two of the tail. */
  lemma {:induction false} CutOfParts()
    ensures FocusedTruncate(Excerpt(), 14, []) == Quotes(1) + SEPARATOR + "a" + SEPARATOR + "aa"
  {
    var s := Excerpt();
    hide Excerpt, Truncate, Snippet, SkipContinuations;
    SizeOfAscii(s);
    AsciiTruncate(s, 1);
    assert s[..1] == s[..13][..1] == Quotes(1);
    AsciiStart(s, 16);
    AsciiSnippet(s, Span(16, 17));
    AsciiSnippet(s, Span(31, 33));
    assert s[16..17] == "a" && s[31..33] == "aa";
  }

  lemma {:induction false} EscapedPartsSize()
    ensures Size(Escape(Quotes(1) + SEPARATOR + "a" + SEPARATOR + "aa")) == 15
  {
    QuotesSize(1);
    SeparatorSize();
    SizeOfAscii("a");
    SizeOfAscii("aa");
    PlainEscapes();
    hide Encode, Escape, Quotes;
    var one, two, three := Quotes(1) + SEPARATOR, Quotes(1) + SEPARATOR + "a", Quotes(1) + SEPARATOR + "a" + SEPARATOR;
    EscapeConcat(Quotes(1), SEPARATOR);
    EscapeConcat(one, "a");
    EscapeConcat(two, SEPARATOR);
    EscapeConcat(three, "aa");
    SizeOfConcat(Escape(Quotes(1)), SEPARATOR);
    SizeOfConcat(Escape(one), "a");
    SizeOfConcat(Escape(two), SEPARATOR);
    SizeOfConcat(Escape(three), "aa");
  }

  lemma {:induction false} PlainEscapes()
    ensures Escape("a") == "a" && Escape("aa") == "aa" && Escape(SEPARATOR) == SEPARATOR
  {
    assert "aa"[1..] == "a" && "a"[1..] == "";
    assert SEPARATOR[1..] == "\U{2026} " && "\U{2026} "[1..] == " " && " "[1..] == "";
    assert Escape(" ") == " " && Escape("\U{2026} ") == "\U{2026} ";
  }

  // --- the search ---

  /** The hit with this metadata under the richest profile, and any under the other three. */
  function QuoteHit(id: ChunkId, base: Base, leaner: seq<Base>): Hit
    requires |leaner| == 3
  {
    Candidate(id, Artifact, Excerpt(), [], [base] + leaner)
  }

  /** Room for the metadata, the brackets and 18 bytes of excerpt. */
  function Room(base: Base): nat {
    Size(base.before) + Size(base.after) + 20
  }

  lemma {:induction false} LoneBlockFits(id: ChunkId, base: Base, leaner: seq<Base>, bound: nat)
    requires |leaner| == 3 && FocusedTruncate(Excerpt(), bound, []) != ""
    ensures FitsAt([QuoteHit(id, base, leaner)], 0, Room(base), bound) <==>
              Size(Escape(FocusedTruncate(Excerpt(), bound, []))) <= 18
  {
    var required, cut := [QuoteHit(id, base, leaner)], FocusedTruncate(Excerpt(), bound, []);
    FitRequiredIsWholeBlock(required, 0, bound, Room(base), 1);
    assert CutRecords(required, 0, bound, 1) == [] + [Record(id, base, cut)];
    assert AllCutsShow(required, bound, 1) by { assert AllCutsShow(required, bound, 0); }
    hide FitRequired, CutRecords, AllCutsShow, FocusedTruncate, Excerpt, Encode, Escape, JsonSize;
    JsonSizeSnoc([], Record(id, base, cut));
    SizeOf3(base.before, Escape(cut), base.after);
  }

  lemma {:induction false} QuotesFit(id: ChunkId, base: Base, leaner: seq<Base>, bound: nat)
    requires |leaner| == 3 && 1 <= bound <= 13
    ensures FitsAt([QuoteHit(id, base, leaner)], 0, Room(base), bound) <==> bound <= 9
  {
    hide FitsAt, FocusedTruncate, Excerpt, Escape;
    CutOfQuotes(bound);
    QuotesSize(bound);
    LoneBlockFits(id, base, leaner, bound);
  }

  /**
   * Whether a block fits is not monotone in its excerpt bound, and the search does miss the largest bound that fits.
   * With an excerpt budget of 14 bytes it tests 7, 11, 9 and 10 and settles for 9, although 14 fits.
   */
  lemma {:induction false} SearchMissesLargestBound(id: ChunkId, base: Base, leaner: seq<Base>)
    requires |leaner| == 3
    ensures var required, maxBytes := [QuoteHit(id, base, leaner)], Room(base);
            && FitsAt(required, 0, maxBytes, 14) && !FitsAt(required, 0, maxBytes, 13)
            && ChosenProfile(required, 14, maxBytes, 0) == 0
            && BoundFrom(required, 0, maxBytes, 1, 14) == 9
            && Misled(required, 0, maxBytes, 1, 14)
  {
    var required, maxBytes := [QuoteHit(id, base, leaner)], Room(base);
    assert FitsAt(required, 0, maxBytes, 14) by {
      hide FitsAt, FocusedTruncate, Excerpt, Escape, Quotes;
      CutOfParts();
      EscapedPartsSize();
      LoneBlockFits(id, base, leaner, 14);
    }
    QuotesFit(id, base, leaner, 7);
    QuotesFit(id, base, leaner, 9);
    QuotesFit(id, base, leaner, 10);
    QuotesFit(id, base, leaner, 11);
    QuotesFit(id, base, leaner, 13);
    assert ChosenProfile(required, 14, maxBytes, 0) == 0;
    hide FitsAt, QuoteHit, Room;
    SearchTo9(required, maxBytes);
    LargestIffNotMisled(required, 0, maxBytes, 1, 14);
  }

  lemma {:induction false} SearchTo9(required: seq<Hit>, maxBytes: nat)
    requires FitsAt(required, 0, maxBytes, 7) && !FitsAt(required, 0, maxBytes, 11)
    requires FitsAt(required, 0, maxBytes, 9) && !FitsAt(required, 0, maxBytes, 10)
    ensures BoundFrom(required, 0, maxBytes, 1, 14) == 9
  {
    hide FitsAt;
    assert BoundFrom(required, 0, maxBytes, 10, 9) == 9;
    assert BoundFrom(required, 0, maxBytes, 10, 10) == 9;
    assert BoundFrom(required, 0, maxBytes, 8, 10) == 9;
    assert BoundFrom(required, 0, maxBytes, 8, 14) == 9;
  }
}
