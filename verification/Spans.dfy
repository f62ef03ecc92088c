/** Half-open index ranges: merging, canonical form, and evenly distributed selection. */
module Spans {
  import opened Collections
  import opened Slices

  datatype Span = Span(lo: nat, hi: nat)

  predicate Covers(s: Span, p: nat) {
    s.lo <= p < s.hi
  }

  predicate Covered(spans: seq<Span>, p: nat) {
    exists i | 0 <= i < |spans| :: Covers(spans[i], p)
  }

  /** Non-empty spans in order, with a gap between any two, ending by `limit`. */
  predicate Separated(spans: seq<Span>, limit: nat) {
    && (forall i | 0 <= i < |spans| :: spans[i].lo < spans[i].hi <= limit)
    && (forall i, j | 0 <= i < j < |spans| :: spans[i].hi < spans[j].lo)
  }

  /** The same, seen from the last span. */
  predicate WellFormed(spans: seq<Span>, limit: nat)
    decreases |spans|
  {
    var last := |spans| - 1;
    spans == []
    || (&& spans[last].lo < spans[last].hi <= limit
        && (last > 0 ==> spans[last - 1].hi < spans[last].lo)
        && WellFormed(spans[..last], limit))
  }

  lemma {:induction false} WellFormedIsSeparated(spans: seq<Span>, limit: nat)
    ensures WellFormed(spans, limit) <==> Separated(spans, limit)
    decreases |spans|
  {
    if spans != [] {
      var last := |spans| - 1;
      var front := spans[..last];
      WellFormedIsSeparated(front, limit);
      assert forall i | 0 <= i < last :: front[i] == spans[i];
      if Separated(front, limit) && spans[last].lo < spans[last].hi <= limit {
        if last > 0 && spans[last - 1].hi < spans[last].lo {
          forall i | 0 <= i < last ensures spans[i].hi < spans[last].lo {
            if i < last - 1 { assert front[i].hi < front[last - 1].lo < front[last - 1].hi; }
          }
        }
      }
    }
  }

  predicate NonEmptyWithin(spans: seq<Span>, limit: nat) {
    forall i | 0 <= i < |spans| :: spans[i].lo < spans[i].hi <= limit
  }

  function Max(a: nat, b: nat): nat {
    if a < b then b else a
  }

  function Min(a: nat, b: nat): nat {
    if a < b then a else b
  }

  function Width(s: Span): int {
    var start: int := s.lo;
    s.hi - start
  }

  /** Append a span, or fuse it with the last one when the two touch or overlap. */
  function Absorb(spans: seq<Span>, s: Span): (r: seq<Span>)
    ensures r != []
  {
    var last := |spans| - 1;
    if spans == [] || s.lo > spans[last].hi then spans + [s]
    else spans[..last] + [Span(spans[last].lo, Max(spans[last].hi, s.hi))]
  }

  // --- sorting, as Python's `sorted` orders pairs ---

  predicate Leq(a: Span, b: Span) {
    a.lo < b.lo || (a.lo == b.lo && a.hi <= b.hi)
  }

  predicate InOrder(s: seq<Span>) {
    forall i, j | 0 <= i < j < |s| :: Leq(s[i], s[j])
  }

  function Insert(s: seq<Span>, x: Span): seq<Span> {
    if s == [] || Leq(x, s[0]) then [x] + s else [s[0]] + Insert(s[1..], x)
  }

  function Sort(s: seq<Span>): seq<Span> {
    if s == [] then [] else Insert(Sort(s[1..]), s[0])
  }

  lemma {:induction false} InsertSorts(s: seq<Span>, x: Span)
    requires InOrder(s)
    ensures InOrder(Insert(s, x))
    ensures multiset(Insert(s, x)) == multiset(s) + multiset{x}
  {
    if s == [] || Leq(x, s[0]) {
    } else {
      InsertSorts(s[1..], x);
      HeadTail(s);
      assert multiset(s) == multiset{s[0]} + multiset(s[1..]);
      var rest := Insert(s[1..], x);
      forall j | 0 <= j < |rest| ensures Leq(s[0], rest[j]) {
        assert rest[j] in multiset(rest);
        assert rest[j] == x || rest[j] in s[1..];
      }
    }
  }

  lemma {:induction false} SortSorts(s: seq<Span>)
    ensures InOrder(Sort(s)) && multiset(Sort(s)) == multiset(s)
  {
    if s != [] {
      SortSorts(s[1..]);
      InsertSorts(Sort(s[1..]), s[0]);
      HeadTail(s);
      assert multiset(s) == multiset{s[0]} + multiset(s[1..]);
    }
  }

  // --- merging ---

  /** The spans merged after the first k of an ordered list. */
  function MergedPrefix(sorted: seq<Span>, k: nat): seq<Span>
    requires k <= |sorted|
    decreases k
  {
    if k == 0 then [] else Absorb(MergedPrefix(sorted, k - 1), sorted[k - 1])
  }

  function Merged(spans: seq<Span>): seq<Span> {
    MergedPrefix(Sort(spans), |Sort(spans)|)
  }

  /** `_merge_spans`. */
  method MergeSpans(spans: seq<Span>) returns (merged: seq<Span>)
    ensures merged == Merged(spans)
  {
    var sorted := Sort(spans);
    merged := [];
    for k := 0 to |sorted|
      invariant merged == MergedPrefix(sorted, k)
    {
      var s := sorted[k];
      if merged == [] || s.lo > merged[|merged| - 1].hi {
        merged := merged + [s];
      } else {
        var previous := merged[|merged| - 1];
        merged := merged[..|merged| - 1] + [Span(previous.lo, Max(previous.hi, s.hi))];
      }
    }
  }

  lemma {:induction false} AbsorbCovers(spans: seq<Span>, s: Span, p: nat)
    requires spans != [] ==> spans[|spans| - 1].lo <= s.lo
    ensures Covered(Absorb(spans, s), p) <==> Covered(spans, p) || Covers(s, p)
  {
    var r := Absorb(spans, s);
    var last := |spans| - 1;
    if spans == [] || s.lo > spans[last].hi {
      assert r[|spans|] == s && forall i | 0 <= i <= last :: r[i] == spans[i];
    } else {
      assert forall i | 0 <= i < last :: r[i] == spans[i];
      assert r[last] == Span(spans[last].lo, Max(spans[last].hi, s.hi));
      assert Covers(r[last], p) <==> Covers(spans[last], p) || Covers(s, p);
    }
  }

  lemma {:induction false} CoveredSnoc(spans: seq<Span>, s: Span, p: nat)
    ensures Covered(spans + [s], p) <==> Covered(spans, p) || Covers(s, p)
  {
    var r := spans + [s];
    assert r[|spans|] == s && forall i | 0 <= i < |spans| :: r[i] == spans[i];
  }

  lemma {:induction false} MergedPrefixCovers(sorted: seq<Span>, k: nat, p: nat)
    requires k <= |sorted| && InOrder(sorted)
    ensures k > 0 ==> MergedPrefix(sorted, k)[|MergedPrefix(sorted, k)| - 1].lo <= sorted[k - 1].lo
    ensures Covered(MergedPrefix(sorted, k), p) <==> Covered(sorted[..k], p)
    decreases k
  {
    if k > 0 {
      MergedPrefixCovers(sorted, k - 1, p);
      var m, s := MergedPrefix(sorted, k - 1), sorted[k - 1];
      if k > 1 { assert Leq(sorted[k - 2], s); }
      hide Covered, Covers;
      AbsorbCovers(m, s, p);
      CoveredSnoc(sorted[..k - 1], s, p);
      assert sorted[..k] == sorted[..k - 1] + [s];
    }
  }

  lemma {:induction false} AbsorbSeparates(spans: seq<Span>, s: Span, limit: nat)
    requires WellFormed(spans, limit) && s.lo < s.hi <= limit
    ensures WellFormed(Absorb(spans, s), limit)
  {
    var last := |spans| - 1;
    if spans == [] || s.lo > spans[last].hi {
      JoinCut(spans, [s]);
    } else {
      JoinCut(spans[..last], [Span(spans[last].lo, Max(spans[last].hi, s.hi))]);
    }
  }

  lemma {:induction false} MergedPrefixIsSeparated(sorted: seq<Span>, k: nat, limit: nat)
    requires k <= |sorted| && NonEmptyWithin(sorted, limit)
    ensures WellFormed(MergedPrefix(sorted, k), limit)
    decreases k
  {
    if k > 0 {
      MergedPrefixIsSeparated(sorted, k - 1, limit);
      AbsorbSeparates(MergedPrefix(sorted, k - 1), sorted[k - 1], limit);
    }
  }

  /** Merging yields separated spans over exactly the same positions. */
  lemma {:induction false} MergedIsSeparatedCover(spans: seq<Span>, limit: nat)
    ensures forall p :: Covered(Merged(spans), p) <==> Covered(spans, p)
    ensures NonEmptyWithin(spans, limit) ==> Separated(Merged(spans), limit)
    ensures spans != [] ==> Merged(spans) != []
  {
    var sorted := Sort(spans);
    SortSorts(spans);
    SameMembers(spans, sorted);
    assert sorted[..|sorted|] == sorted;
    forall p ensures Covered(Merged(spans), p) <==> Covered(spans, p) {
      MergedPrefixCovers(sorted, |sorted|, p);
    }
    if NonEmptyWithin(spans, limit) {
      MergedPrefixIsSeparated(sorted, |sorted|, limit);
      WellFormedIsSeparated(Merged(spans), limit);
    }
  }

  lemma {:induction false} SameMembers(a: seq<Span>, b: seq<Span>)
    requires multiset(a) == multiset(b)
    ensures |a| == |b| && forall x :: x in a <==> x in b
    ensures forall p :: Covered(a, p) <==> Covered(b, p)
    ensures forall limit: nat :: NonEmptyWithin(a, limit) <==> NonEmptyWithin(b, limit)
  {
    assert |a| == |multiset(a)| && |b| == |multiset(b)|;
    forall x ensures x in a <==> x in b {
      assert x in a <==> x in multiset(a);
      assert x in b <==> x in multiset(b);
    }
    forall i | 0 <= i < |a| ensures a[i] in b { assert a[i] in a; }
    forall i | 0 <= i < |b| ensures b[i] in a { assert b[i] in b; }
  }

  /** Separated non-empty spans are determined by the positions they cover. */
  lemma {:induction false} SeparatedSpansAreCanonical(a: seq<Span>, b: seq<Span>, limit: nat)
    requires Separated(a, limit) && Separated(b, limit)
    requires forall p :: Covered(a, p) <==> Covered(b, p)
    ensures a == b
    decreases |a|
  {
    if a == [] || b == [] {
      if a != [] { assert Covers(a[0], a[0].lo); assert Covered(a, a[0].lo); }
      if b != [] { assert Covers(b[0], b[0].lo); assert Covered(b, b[0].lo); }
    } else {
      FirstSpanAgrees(a, b, limit);
      FirstSpanAgrees(b, a, limit);
      assert a[0] == b[0];
      forall p ensures Covered(a[1..], p) <==> Covered(b[1..], p) {
        CoveredByTail(a, p, limit);
        CoveredByTail(b, p, limit);
      }
      SeparatedSpansAreCanonical(a[1..], b[1..], limit);
      HeadTail(a);
      HeadTail(b);
    }
  }

  lemma {:induction false} CoveredByTail(a: seq<Span>, p: nat, limit: nat)
    requires Separated(a, limit) && a != []
    ensures Covered(a[1..], p) <==> Covered(a, p) && a[0].hi <= p
  {
    if Covered(a[1..], p) {
      var i :| 0 <= i < |a[1..]| && Covers(a[1..][i], p);
      assert Covers(a[i + 1], p) && a[0].hi < a[i + 1].lo;
    }
    if Covered(a, p) && a[0].hi <= p {
      var i :| 0 <= i < |a| && Covers(a[i], p);
      assert i > 0 && Covers(a[1..][i - 1], p);
    }
  }

  lemma {:induction false} GapAfterFirst(a: seq<Span>, limit: nat)
    requires Separated(a, limit) && a != []
    ensures !Covered(a, a[0].hi)
  {
  }

  lemma {:induction false} FirstSpanAgrees(a: seq<Span>, b: seq<Span>, limit: nat)
    requires Separated(a, limit) && Separated(b, limit) && a != [] && b != []
    requires forall p :: Covered(a, p) <==> Covered(b, p)
    ensures b[0].lo <= a[0].lo && (a[0].lo == b[0].lo ==> a[0].hi <= b[0].hi)
  {
    assert Covers(a[0], a[0].lo);
    assert Covered(b, a[0].lo);
    GapAfterFirst(b, limit);
    assert !Covers(a[0], b[0].hi);
  }

  /** The merge does not depend on the order of its input, and merging twice changes nothing. */
  lemma {:induction false} MergeIgnoresOrder(a: seq<Span>, b: seq<Span>, limit: nat)
    requires multiset(a) == multiset(b) && NonEmptyWithin(a, limit)
    ensures Merged(a) == Merged(b)
    ensures Merged(Merged(a)) == Merged(a)
  {
    SameMembers(a, b);
    MergedIsSeparatedCover(a, limit);
    MergedIsSeparatedCover(b, limit);
    SeparatedSpansAreCanonical(Merged(a), Merged(b), limit);
    MergedIsSeparatedCover(Merged(a), limit);
    SeparatedSpansAreCanonical(Merged(Merged(a)), Merged(a), limit);
  }

  // --- distributed selection ---

  function DistributedIndex(length: nat, count: nat, i: nat): nat
    requires length > 0 && i < count
  {
    if count == 1 then length / 2 else (i * (length - 1)) / (count - 1)
  }

  /** Adding at least the divisor raises the quotient. */
  lemma {:induction false} QuotientGrows(x: nat, y: nat, d: nat)
    requires d > 0 && x + d <= y
    ensures x / d < y / d
  {
    var q := y / d;
    assert y < d * q + d;
    assert d * (x / d) <= x;
    if q <= x / d {
      ProductGrows(d, q, x / d);
    }
  }

  lemma {:induction false} DistributedIndexStep(length: nat, count: nat, i: nat)
    requires 2 <= count <= length && i + 1 < count
    ensures DistributedIndex(length, count, i) < DistributedIndex(length, count, i + 1)
  {
    var last := length - 1;
    assert (i + 1) * last == i * last + last;
    QuotientGrows(i * last, (i + 1) * last, count - 1);
  }

  lemma {:induction false} DistributedIndicesIncrease(length: nat, count: nat, i: nat, j: nat)
    requires 2 <= count <= length && i < j < count
    ensures DistributedIndex(length, count, i) < DistributedIndex(length, count, j)
    decreases j - i
  {
    DistributedIndexStep(length, count, j - 1);
    if i + 1 < j {
      DistributedIndicesIncrease(length, count, i, j - 1);
    }
  }

  lemma {:induction false} QuotientExact(d: nat, q: nat)
    requires d > 0
    ensures (d * q) / d == q
  {
    var x := (d * q) / d;
    assert d * x <= d * q < d * x + d;
    if x < q { ProductGrows(d, x + 1, q); }
    if q < x { ProductGrows(d, q + 1, x); }
  }

  lemma {:induction false} DistributedEnds(length: nat, count: nat)
    requires 2 <= count <= length
    ensures DistributedIndex(length, count, 0) == 0
    ensures DistributedIndex(length, count, count - 1) == length - 1
  {
    QuotientExact(count - 1, length - 1);
  }

  lemma {:induction false} DistributedIndexRange(length: nat, count: nat, i: nat)
    requires 1 <= count <= length && i < count
    ensures DistributedIndex(length, count, i) < length
  {
    if count >= 2 {
      hide DistributedIndex;
      DistributedEnds(length, count);
      if i < count - 1 { DistributedIndicesIncrease(length, count, i, count - 1); }
    }
  }

  /** One selected span is the middle one; of more, the i-th is as far along the list as i is along the selection. */
  lemma {:induction false} DistributedIndexIsEven(length: nat, count: nat, i: nat)
    requires length > 0 && i < count
    ensures var index := DistributedIndex(length, count, i);
            if count == 1 then 2 * index <= length < 2 * index + 2
            else (count - 1) * index <= i * (length - 1) < (count - 1) * index + (count - 1)
  {
  }

  /** `_distributed_spans`. */
  function Distributed(spans: seq<Span>, count: nat): (r: seq<Span>)
    requires 1 <= count <= |spans|
    ensures |r| == count
  {
    seq(count, i requires 0 <= i < count =>
      (DistributedIndexRange(|spans|, count, i); spans[DistributedIndex(|spans|, count, i)]))
  }

  lemma {:induction false} DistributedIsSeparated(spans: seq<Span>, count: nat, limit: nat)
    requires 1 <= count <= |spans| && Separated(spans, limit)
    ensures Separated(Distributed(spans, count), limit)
    ensures forall s | s in Distributed(spans, count) :: s in spans
    ensures count >= 2 ==> Distributed(spans, count)[0] == spans[0]
    ensures count >= 2 ==> Distributed(spans, count)[count - 1] == spans[|spans| - 1]
  {
    if count >= 2 { DistributedEnds(|spans|, count); }
    hide DistributedIndex;
    var r := Distributed(spans, count);
    forall i | 0 <= i < count ensures r[i] in spans && r[i].lo < r[i].hi <= limit {
      DistributedIndexRange(|spans|, count, i);
    }
    forall i, j | 0 <= i < j < count ensures r[i].hi < r[j].lo {
      DistributedIndicesIncrease(|spans|, count, i, j);
      DistributedIndexRange(|spans|, count, i);
      DistributedIndexRange(|spans|, count, j);
    }
  }
}
