/** Query normalisation (`_normalize_queries`): squeezed whitespace, case-folded uniqueness, a per-round cap. */
module Queries {
  import opened Collections
  import opened Text

  /** `str.casefold`, which the model leaves abstract. */
  type Casefold = string -> string

  function TokenEnd(s: string): (n: nat)
    ensures n <= |s|
  {
    if s == "" || IsSpace(s[0]) then 0 else 1 + TokenEnd(s[1..])
  }

  /** `str.split()`. */
  function Words(s: string): seq<string>
    decreases |s|
  {
    var rest := s[LeadingSpace(s)..];
    var n := TokenEnd(rest);
    if n == 0 then [] else [rest[..n]] + Words(rest[n..])
  }

  function JoinWords(words: seq<string>): string {
    if words == [] then ""
    else if |words| == 1 then words[0]
    else words[0] + " " + JoinWords(words[1..])
  }

  /** `" ".join(query.split())`. */
  function Squeeze(s: string): string {
    JoinWords(Words(s))
  }

  function FoldAll(fold: Casefold, queries: seq<string>): set<string> {
    set q | q in queries :: fold(q)
  }

  function FoldSet(fold: Casefold, queries: set<string>): set<string> {
    set q | q in queries :: fold(q)
  }

  function Members(queries: seq<string>): set<string> {
    set q | q in queries
  }

  lemma {:induction false} FoldSetOfMembers(fold: Casefold, queries: seq<string>)
    ensures FoldSet(fold, Members(queries)) == FoldAll(fold, queries)
  {
  }

  /** The squeezed queries that are non-empty and new up to case folding, in order, among the first k. */
  function Usable(fold: Casefold, queries: seq<string>, seen: set<string>, k: nat): seq<string>
    requires k <= |queries|
    decreases k
  {
    if k == 0 then [] else
    var before := Usable(fold, queries, seen, k - 1);
    var q := Squeeze(queries[k - 1]);
    if q == "" || fold(q) in seen + FoldAll(fold, before) then before else before + [q]
  }

  /** `_normalize_queries`. */
  method NormalizeQueries(fold: Casefold, queries: seq<string>, limit: nat, excluded: set<string>)
    returns (result: seq<string>, clipped: bool)
    ensures var all := Usable(fold, queries, FoldSet(fold, excluded), |queries|);
            && result == Capped(all, limit) && (clipped <==> |all| > limit)
            && result <= all && |result| == if clipped then limit else |all|
  {
    hide Squeeze;
    ghost var excludedFolds := FoldSet(fold, excluded);
    var seen := FoldSet(fold, excluded);
    var usable := 0;
    result := [];
    for k := 0 to |queries|
      invariant var all := Usable(fold, queries, excludedFolds, k);
                usable == |all| && result == Capped(all, limit) && seen == excludedFolds + FoldAll(fold, all)
    {
      ghost var all := Usable(fold, queries, excludedFolds, k);
      var q := Squeeze(queries[k]);
      if q == "" || fold(q) in seen {
        continue;
      }
      usable := usable + 1;
      FoldAllSnoc(fold, all, q);
      seen := seen + {fold(q)};
      if |result| < limit {
        result := result + [q];
      } else {
        assert (all + [q])[..limit] == result;
      }
    }
    clipped := usable > limit;
  }

  lemma {:induction false} FoldAllSnoc(fold: Casefold, queries: seq<string>, q: string)
    ensures FoldAll(fold, queries + [q]) == FoldAll(fold, queries) + {fold(q)}
  {
    assert forall x :: x in queries + [q] <==> x in queries || x == q;
  }

  predicate FoldDistinct(fold: Casefold, queries: seq<string>) {
    forall i, j | 0 <= i < j < |queries| :: fold(queries[i]) != fold(queries[j])
  }

  /** Usable queries are non-empty, pairwise different up to case folding, and none is already seen. */
  lemma {:induction false} UsableAreNew(fold: Casefold, queries: seq<string>, seen: set<string>, k: nat)
    requires k <= |queries|
    ensures var all := Usable(fold, queries, seen, k);
            FoldDistinct(fold, all) && forall q | q in all :: q != "" && fold(q) !in seen
    decreases k
  {
    if k > 0 {
      UsableAreNew(fold, queries, seen, k - 1);
      var before, q := Usable(fold, queries, seen, k - 1), Squeeze(queries[k - 1]);
      hide Squeeze;
      forall i | 0 <= i < |before| && fold(q) !in FoldAll(fold, before) ensures fold(before[i]) != fold(q) {
        assert before[i] in before;
      }
    }
  }

  /** Nothing usable is lost: each non-blank query is represented up to case folding by a seen or a usable one. */
  lemma {:induction false} UsableIsComplete(fold: Casefold, queries: seq<string>, seen: set<string>, k: nat, i: nat)
    requires i < k <= |queries| && Squeeze(queries[i]) != ""
    ensures fold(Squeeze(queries[i])) in seen + FoldAll(fold, Usable(fold, queries, seen, k))
    decreases k
  {
    hide Squeeze, FoldAll;
    var before := Usable(fold, queries, seen, k - 1);
    FoldAllSnoc(fold, before, Squeeze(queries[k - 1]));
    if i < k - 1 {
      UsableIsComplete(fold, queries, seen, k - 1, i);
    }
  }
}
