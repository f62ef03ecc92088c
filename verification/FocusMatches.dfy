/** Case- and accent-folded search for query terms, reported as spans of the original text (`_focus_match_spans`). */
module FocusMatches {
  import opened Slices
  import opened Spans
  import opened Text

  const MAX_FOCUS_MATCH_SPANS: nat := 128

  /** Unicode data: NFD decomposition of the case-folded character, and which characters are combining marks. */
  datatype Unicode = Unicode(decompose: char -> string, combining: char -> bool)

  function DropCombining(u: Unicode, s: string): string {
    if s == "" then ""
    else (if u.combining(s[0]) then "" else [s[0]]) + DropCombining(u, s[1..])
  }

  function Copies(n: nat, v: nat): (r: seq<nat>)
    ensures |r| == n && forall i | 0 <= i < n :: r[i] == v
  {
    if n == 0 then [] else Copies(n - 1, v) + [v]
  }

  /** The folded form of the first k characters. */
  function FoldedPrefix(u: Unicode, text: string, k: nat): string
    requires k <= |text|
    decreases k
  {
    if k == 0 then "" else FoldedPrefix(u, text, k - 1) + DropCombining(u, u.decompose(text[k - 1]))
  }

  /** For each folded character, the index of the character it came from. */
  function OriginPrefix(u: Unicode, text: string, k: nat): seq<nat>
    requires k <= |text|
    decreases k
  {
    if k == 0 then []
    else OriginPrefix(u, text, k - 1) + Copies(|DropCombining(u, u.decompose(text[k - 1]))|, k - 1)
  }

  function Folded(u: Unicode, text: string): string {
    FoldedPrefix(u, text, |text|)
  }

  function Origin(u: Unicode, text: string): seq<nat> {
    OriginPrefix(u, text, |text|)
  }

  /** The index map is total, in range and monotone. */
  predicate IsIndexMap(origin: seq<nat>, folded: string, limit: nat) {
    && |origin| == |folded|
    && (forall i | 0 <= i < |origin| :: origin[i] < limit)
    && (forall i, j | 0 <= i <= j < |origin| :: origin[i] <= origin[j])
  }

  lemma {:induction false} OriginIsIndexMap(u: Unicode, text: string, k: nat)
    requires k <= |text|
    ensures IsIndexMap(OriginPrefix(u, text, k), FoldedPrefix(u, text, k), k)
    decreases k
  {
    if k > 0 {
      OriginIsIndexMap(u, text, k - 1);
    }
  }

  /** The kept characters are those at these positions: from the given one on, exactly the ones that do not combine. */
  predicate KeptAt(u: Unicode, s: string, from: nat, kept: string, at: seq<nat>) {
    && |at| == |kept|
    && (forall i | 0 <= i < |at| :: from <= at[i] < |s| && kept[i] == s[at[i]])
    && (forall i, j | 0 <= i < j < |at| :: at[i] < at[j])
    && (forall p | from <= p < |s| :: p in at <==> !u.combining(s[p]))
  }

  lemma {:induction false} DropCombiningKeeps(u: Unicode, s: string, from: nat) returns (at: seq<nat>)
    requires from <= |s|
    ensures KeptAt(u, s, from, DropCombining(u, s[from..]), at)
    decreases |s| - from
  {
    if from == |s| {
      at := [];
    } else {
      var later := DropCombiningKeeps(u, s, from + 1);
      assert s[from..][0] == s[from] && s[from..][1..] == s[from + 1..];
      var kept := DropCombining(u, s[from + 1..]);
      ConcatEmpty(kept);
      OneMoreKept(u, s, from, kept, later);
      at := if u.combining(s[from]) then later else [from] + later;
    }
  }

  lemma {:induction false} OneMoreKept(u: Unicode, s: string, from: nat, kept: string, later: seq<nat>)
    requires from < |s| && KeptAt(u, s, from + 1, kept, later)
    ensures u.combining(s[from]) ==> KeptAt(u, s, from, kept, later)
    ensures !u.combining(s[from]) ==> KeptAt(u, s, from, [s[from]] + kept, [from] + later)
  {
    assert forall p :: p in [from] + later <==> p == from || p in later;
  }

  /** The folded text holds, for each character in turn, what its decomposition keeps, and its index for each of
      those. */
  lemma {:induction false} CharacterIsFolded(u: Unicode, text: string, n: nat, k: nat) returns (lo: nat, hi: nat)
    requires k < n <= |text|
    ensures lo <= hi <= |FoldedPrefix(u, text, n)| == |OriginPrefix(u, text, n)|
    ensures FoldedPrefix(u, text, n)[lo..hi] == DropCombining(u, u.decompose(text[k]))
    ensures forall i | 0 <= i < |OriginPrefix(u, text, n)| :: OriginPrefix(u, text, n)[i] == k <==> lo <= i < hi
    decreases n
  {
    OriginIsIndexMap(u, text, n - 1);
    OriginIsIndexMap(u, text, n);
    var front, more := FoldedPrefix(u, text, n - 1), DropCombining(u, u.decompose(text[n - 1]));
    hide DropCombining, IsIndexMap;
    if k == n - 1 {
      lo, hi := |front|, |front| + |more|;
      JoinCut(front, more);
    } else {
      lo, hi := CharacterIsFolded(u, text, n - 1, k);
      SliceLeft(front, more, lo, hi);
    }
  }

  /** `_folded_focus_text`. */
  method FoldedFocusText(u: Unicode, text: string) returns (folded: string, origin: seq<nat>)
    ensures folded == Folded(u, text) && origin == Origin(u, text)
  {
    folded, origin := "", [];
    for index := 0 to |text|
      invariant folded == FoldedPrefix(u, text, index) && origin == OriginPrefix(u, text, index)
    {
      var normalized := u.decompose(text[index]);
      ghost var kept := DropCombining(u, normalized);
      ghost var f0, o0 := folded, origin;
      ConcatEmpty(f0);
      ConcatEmpty(o0);
      ghost var m: nat := 0;
      assert Copies(0, index) == [];
      for n := 0 to |normalized|
        invariant folded + DropCombining(u, normalized[n..]) == f0 + kept
        invariant m + |DropCombining(u, normalized[n..])| == |kept| && origin == o0 + Copies(m, index)
      {
        assert normalized[n..][0] == normalized[n] && normalized[n..][1..] == normalized[n + 1..];
        if u.combining(normalized[n]) {
          ConcatEmpty(DropCombining(u, normalized[n + 1..]));
          continue;
        }
        ConcatAssociates(folded, [normalized[n]], DropCombining(u, normalized[n + 1..]));
        folded := folded + [normalized[n]];
        ConcatAssociates(o0, Copies(m, index), [index]);
        origin := origin + [index];
        m := m + 1;
      }
      assert normalized[|normalized|..] == "";
    }
  }

  predicate Occurs(haystack: string, needle: string, p: nat) {
    p + |needle| <= |haystack| && haystack[p..p + |needle|] == needle
  }

  /** `str.find`: the first occurrence at or after `from`. */
  function FindFrom(haystack: string, needle: string, from: nat): (r: Option<nat>)
    ensures r.Some? ==> from <= r.value && Occurs(haystack, needle, r.value)
    ensures r.Some? ==> forall q | from <= q < r.value :: !Occurs(haystack, needle, q)
    ensures r.None? ==> forall q | from <= q :: !Occurs(haystack, needle, q)
    decreases |haystack| + 1 - from
  {
    if from > |haystack| then None
    else if Occurs(haystack, needle, from) then Some(from)
    else FindFrom(haystack, needle, from + 1)
  }

  /** The original characters under an occurrence. */
  function MatchSpan(origin: seq<nat>, needle: string, p: nat): Span
    requires needle != "" && p + |needle| <= |origin|
  {
    Span(origin[p], origin[p + |needle| - 1] + 1)
  }

  /** `s` is the span of some occurrence of a term. */
  ghost predicate IsMatch(folded: string, origin: seq<nat>, needle: string, s: Span)
    requires |origin| == |folded|
  {
    needle != "" && exists p: nat :: Occurs(folded, needle, p) && s == MatchSpan(origin, needle, p)
  }

  /** Every character under the occurrence at p is covered. */
  predicate WholeCovered(origin: seq<nat>, needle: string, p: nat, raw: seq<Span>) {
    p + |needle| <= |origin| && forall j | p <= j < p + |needle| :: Covered(raw, origin[j])
  }

  /** Every occurrence starts inside one that is covered from its first to its last character: itself, unless it
      overlaps an earlier one. */
  ghost predicate OccurrencesCovered(folded: string, origin: seq<nat>, needle: string, upTo: nat, raw: seq<Span>)
    requires |origin| == |folded|
  {
    needle != "" ==> forall q: nat | q < upTo && Occurs(folded, needle, q) ::
      StartIsCovered(folded, origin, needle, q, raw)
  }

  ghost predicate StartIsCovered(folded: string, origin: seq<nat>, needle: string, q: nat, raw: seq<Span>)
    requires |origin| == |folded|
  {
    exists p: nat :: p <= q < p + |needle| && Occurs(folded, needle, p) && WholeCovered(origin, needle, p, raw)
  }

  /** An occurrence that overlaps no earlier one is covered as a whole. */
  lemma {:induction false} LoneOccurrenceIsCovered(
      folded: string, origin: seq<nat>, needle: string, q: nat, raw: seq<Span>)
    requires |origin| == |folded| && needle != "" && Occurs(folded, needle, q)
    requires OccurrencesCovered(folded, origin, needle, |folded|, raw)
    requires forall p: nat | p < q < p + |needle| :: !Occurs(folded, needle, p)
    ensures WholeCovered(origin, needle, q, raw)
  {
    assert StartIsCovered(folded, origin, needle, q, raw);
  }

  lemma {:induction false} MoreCovered(origin: seq<nat>, needle: string, p: nat, raw: seq<Span>, more: seq<Span>)
    requires raw <= more && WholeCovered(origin, needle, p, raw)
    ensures WholeCovered(origin, needle, p, more)
  {
    forall j | p <= j < p + |needle| ensures Covered(more, origin[j]) {
      var i :| 0 <= i < |raw| && Covers(raw[i], origin[j]);
      assert Covers(more[i], origin[j]);
    }
  }

  lemma {:induction false} MatchIsCovered(
      folded: string, origin: seq<nat>, needle: string, p: nat, raw: seq<Span>, limit: nat)
    requires IsIndexMap(origin, folded, limit) && needle != "" && Occurs(folded, needle, p)
    ensures WholeCovered(origin, needle, p, raw + [MatchSpan(origin, needle, p)])
  {
    var s := MatchSpan(origin, needle, p);
    forall j | p <= j < p + |needle| ensures Covered(raw + [s], origin[j]) {
      assert (raw + [s])[|raw|] == s && Covers(s, origin[j]);
    }
  }

  /** The inner search loop for one term: successive, non-overlapping occurrences until the cap. */
  method MatchTerm(folded: string, origin: seq<nat>, needle: string, raw0: seq<Span>, ghost limit: nat)
    returns (raw: seq<Span>)
    requires IsIndexMap(origin, folded, limit) && needle != "" && |raw0| <= MAX_FOCUS_MATCH_SPANS
    requires NonEmptyWithin(raw0, limit)
    ensures raw0 <= raw && |raw| <= MAX_FOCUS_MATCH_SPANS
    ensures NonEmptyWithin(raw, limit)
    ensures forall i | |raw0| <= i < |raw| :: IsMatch(folded, origin, needle, raw[i])
    ensures |raw| < MAX_FOCUS_MATCH_SPANS ==> OccurrencesCovered(folded, origin, needle, |folded|, raw)
  {
    hide OccurrencesCovered, Occurs, Covered;
    raw := raw0;
    var searchFrom := 0;
    NothingBefore(folded, origin, needle, raw);
    while |raw| < MAX_FOCUS_MATCH_SPANS
      invariant raw0 <= raw && |raw| <= MAX_FOCUS_MATCH_SPANS
      invariant NonEmptyWithin(raw, limit)
      invariant forall i | |raw0| <= i < |raw| :: IsMatch(folded, origin, needle, raw[i])
      invariant OccurrencesCovered(folded, origin, needle, searchFrom, raw)
      decreases |folded| + 1 - searchFrom
    {
      var position := FindFrom(folded, needle, searchFrom);
      if position.None? {
        NothingAfter(folded, origin, needle, searchFrom, raw);
        break;
      }
      OccursWithin(folded, needle, position.value);
      var s := MatchSpan(origin, needle, position.value);
      NextMatch(folded, origin, needle, searchFrom, position.value, raw, limit);
      raw := raw + [s];
      searchFrom := position.value + |needle|;
    }
  }

  lemma {:induction false} OccursWithin(folded: string, needle: string, p: nat)
    requires Occurs(folded, needle, p)
    ensures p + |needle| <= |folded|
  {
  }

  lemma {:induction false} NothingBefore(folded: string, origin: seq<nat>, needle: string, raw: seq<Span>)
    requires |origin| == |folded|
    ensures OccurrencesCovered(folded, origin, needle, 0, raw)
  {
  }

  lemma {:induction false} NothingAfter(folded: string, origin: seq<nat>, needle: string, from: nat, raw: seq<Span>)
    requires |origin| == |folded| && OccurrencesCovered(folded, origin, needle, from, raw)
    requires forall q | from <= q :: !Occurs(folded, needle, q)
    ensures OccurrencesCovered(folded, origin, needle, |folded|, raw)
  {
    hide StartIsCovered, Occurs;
  }

  /** Taking the first occurrence from a position on covers all occurrences up to its end. */
  lemma {:induction false} NextMatch(
      folded: string, origin: seq<nat>, needle: string, from: nat, p: nat, raw: seq<Span>, limit: nat)
    requires IsIndexMap(origin, folded, limit) && needle != "" && from <= p && Occurs(folded, needle, p)
    requires forall q | from <= q < p :: !Occurs(folded, needle, q)
    requires OccurrencesCovered(folded, origin, needle, from, raw)
    ensures OccurrencesCovered(folded, origin, needle, p + |needle|, raw + [MatchSpan(origin, needle, p)])
  {
    var more := raw + [MatchSpan(origin, needle, p)];
    MatchIsCovered(folded, origin, needle, p, raw, limit);
    hide Occurs, WholeCovered, IsIndexMap;
    forall q: nat | q < p + |needle| && Occurs(folded, needle, q)
      ensures StartIsCovered(folded, origin, needle, q, more)
    {
      assert q < from || p <= q;
      if q < from { StartStaysCovered(folded, origin, needle, q, raw, more); }
    }
  }

  lemma {:induction false} StartStaysCovered(
      folded: string, origin: seq<nat>, needle: string, q: nat, raw: seq<Span>, more: seq<Span>)
    requires |origin| == |folded| && raw <= more && StartIsCovered(folded, origin, needle, q, raw)
    ensures StartIsCovered(folded, origin, needle, q, more)
  {
    var p: nat :| p <= q < p + |needle| && Occurs(folded, needle, p) && WholeCovered(origin, needle, p, raw);
    MoreCovered(origin, needle, p, raw, more);
  }

  lemma {:induction false} OccurrencesStayCovered(
      folded: string, origin: seq<nat>, needle: string, upTo: nat, raw: seq<Span>, more: seq<Span>)
    requires |origin| == |folded| && raw <= more
    requires OccurrencesCovered(folded, origin, needle, upTo, raw)
    ensures OccurrencesCovered(folded, origin, needle, upTo, more)
  {
    if needle != "" {
      forall q: nat | q < upTo && Occurs(folded, needle, q) ensures StartIsCovered(folded, origin, needle, q, more) {
        StartStaysCovered(folded, origin, needle, q, raw, more);
      }
    }
  }

  /** `_focus_match_spans` before merging; `terms` is the ordered term list. */
  method RawMatchSpans(u: Unicode, text: string, terms: seq<string>) returns (raw: seq<Span>)
    ensures |raw| <= MAX_FOCUS_MATCH_SPANS && NonEmptyWithin(raw, |text|)
    ensures |Origin(u, text)| == |Folded(u, text)|
    ensures forall s | s in raw :: exists t | t in terms :: IsMatch(Folded(u, text), Origin(u, text), Folded(u, t), s)
    ensures |raw| < MAX_FOCUS_MATCH_SPANS ==>
              forall t | t in terms ::
                OccurrencesCovered(Folded(u, text), Origin(u, text), Folded(u, t), |Folded(u, text)|, raw)
  {
    hide Folded, Origin;
    var folded, origin := FoldedFocusText(u, text);
    assert IsIndexMap(origin, folded, |text|) by {
      FoldedIsWholePrefix(u, text);
      OriginIsIndexMap(u, text, |text|);
    }
    raw := [];
    var k := 0;
    while k < |terms|
      invariant 0 <= k <= |terms|
      invariant |raw| <= MAX_FOCUS_MATCH_SPANS && NonEmptyWithin(raw, |text|)
      invariant forall s | s in raw :: exists t | t in terms :: IsMatch(folded, origin, Folded(u, t), s)
      invariant |raw| < MAX_FOCUS_MATCH_SPANS ==>
                  forall j | 0 <= j < k :: OccurrencesCovered(folded, origin, Folded(u, terms[j]), |folded|, raw)
    {
      var needle, _ := FoldedFocusText(u, terms[k]);
      ghost var before := raw;
      if needle != "" {
        raw := MatchTerm(folded, origin, needle, raw, |text|);
        forall s | s in raw ensures exists t | t in terms :: IsMatch(folded, origin, Folded(u, t), s) {
          var i :| 0 <= i < |raw| && raw[i] == s;
          if i < |before| {
            assert before[i] == s;
            assert s in before;
          } else {
            assert terms[k] in terms;
          }
        }
        if |raw| < MAX_FOCUS_MATCH_SPANS {
          forall j | 0 <= j < k ensures OccurrencesCovered(folded, origin, Folded(u, terms[j]), |folded|, raw) {
            OccurrencesStayCovered(folded, origin, Folded(u, terms[j]), |folded|, before, raw);
          }
        }
      }
      if |raw| >= MAX_FOCUS_MATCH_SPANS {
        break;
      }
      k := k + 1;
    }
  }

  lemma {:induction false} FoldedIsWholePrefix(u: Unicode, text: string)
    ensures Folded(u, text) == FoldedPrefix(u, text, |text|)
    ensures Origin(u, text) == OriginPrefix(u, text, |text|)
  {
  }

  /** Some term occurs in the folded text over the character at `p`. */
  ghost predicate Matched(u: Unicode, text: string, terms: seq<string>, p: nat)
    requires |Origin(u, text)| == |Folded(u, text)|
  {
    exists t, s :: t in terms && IsMatch(Folded(u, text), Origin(u, text), Folded(u, t), s) && Covers(s, p)
  }

  lemma {:induction false} SameStart(
      folded: string, origin: seq<nat>, needle: string, q: nat, raw: seq<Span>, spans: seq<Span>)
    requires |origin| == |folded| && forall p: nat :: Covered(raw, p) ==> Covered(spans, p)
    requires StartIsCovered(folded, origin, needle, q, raw)
    ensures StartIsCovered(folded, origin, needle, q, spans)
  {
    hide Covered, Occurs;
    var p: nat :| p <= q < p + |needle| && Occurs(folded, needle, p) && WholeCovered(origin, needle, p, raw);
    assert WholeCovered(origin, needle, p, spans);
  }

  lemma {:induction false} SameCover(
      folded: string, origin: seq<nat>, needle: string, upTo: nat, raw: seq<Span>, spans: seq<Span>)
    requires |origin| == |folded| && forall p: nat :: Covered(raw, p) ==> Covered(spans, p)
    requires OccurrencesCovered(folded, origin, needle, upTo, raw)
    ensures OccurrencesCovered(folded, origin, needle, upTo, spans)
  {
    hide Covered, Occurs, StartIsCovered;
    if needle != "" {
      forall q: nat | q < upTo && Occurs(folded, needle, q) ensures StartIsCovered(folded, origin, needle, q, spans) {
        SameStart(folded, origin, needle, q, raw, spans);
      }
    }
  }

  /**
   * `_focus_match_spans`: separated, non-empty, in-range spans, covering only matched characters. Fewer than the cap of
   * raw matches means that every occurrence of every term starts inside one that is covered as a whole.
   */
  method FocusMatchSpans(u: Unicode, text: string, terms: seq<string>) returns (spans: seq<Span>, ghost raw: seq<Span>)
    ensures Separated(spans, |text|) && spans == Merged(raw) && |raw| <= MAX_FOCUS_MATCH_SPANS
    ensures |Origin(u, text)| == |Folded(u, text)|
    ensures forall p: nat | Covered(spans, p) :: Matched(u, text, terms, p)
    ensures |raw| < MAX_FOCUS_MATCH_SPANS ==>
              forall t | t in terms ::
                OccurrencesCovered(Folded(u, text), Origin(u, text), Folded(u, t), |Folded(u, text)|, spans)
  {
    hide Folded, Origin, OccurrencesCovered;
    var found := RawMatchSpans(u, text, terms);
    raw := found;
    spans := MergeSpans(found);
    MergedIsSeparatedCover(raw, |text|);
    forall p: nat | Covered(spans, p) ensures Matched(u, text, terms, p) {
      assert Covered(raw, p);
      var i :| 0 <= i < |raw| && Covers(raw[i], p);
      assert raw[i] in raw;
    }
    if |raw| < MAX_FOCUS_MATCH_SPANS {
      forall t | t in terms
        ensures OccurrencesCovered(Folded(u, text), Origin(u, text), Folded(u, t), |Folded(u, text)|, spans)
      {
        SameCover(Folded(u, text), Origin(u, text), Folded(u, t), |Folded(u, text)|, raw, spans);
      }
    }
  }
}
