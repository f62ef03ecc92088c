/** What normalised queries keep of the proposed ones: their words, with single spaces, and their order. */
module QueryWords {
  import opened Queries
  import opened Slices
  import opened Text

  // --- words and gaps ---

  /** gap, word, gap, word, ..., gap. */
  function Spread(words: seq<string>, gaps: seq<string>): string
    requires |gaps| == |words| + 1
  {
    if words == [] then gaps[0] else gaps[0] + words[0] + Spread(words[1..], gaps[1..])
  }

  predicate IsWord(w: string) {
    w != "" && forall i | 0 <= i < |w| :: !IsSpace(w[i])
  }

  /** The text is made of these words, and whitespace between, before and after them. */
  predicate IsSplit(s: string, words: seq<string>, gaps: seq<string>) {
    && |gaps| == |words| + 1 && s == Spread(words, gaps)
    && (forall k | 0 <= k < |words| :: IsWord(words[k]))
    && (forall k | 0 <= k < |gaps| :: Blank(gaps[k]))
    && (forall k | 0 < k < |words| :: gaps[k] != "")
  }

  /** Nothing at the ends, and one space between neighbours. */
  function SingleSpaces(n: nat): (gaps: seq<string>)
    ensures |gaps| == n + 1
  {
    seq(n + 1, k => if k == 0 || k == n then "" else " ")
  }

  lemma {:induction false} TokenIsWord(s: string)
    ensures var n := TokenEnd(s);
            (forall i | 0 <= i < n :: !IsSpace(s[i])) && (n < |s| ==> IsSpace(s[n]))
  {
    if s != "" && !IsSpace(s[0]) {
      TokenIsWord(s[1..]);
      var n := TokenEnd(s[1..]);
      forall i | 0 <= i < n + 1 ensures !IsSpace(s[i]) {
        if i > 0 { assert s[i] == s[1..][i - 1]; }
      }
      assert n + 1 < |s| ==> s[n + 1] == s[1..][n];
    }
  }

  lemma {:induction false} NoWords(s: string)
    requires Blank(s)
    ensures IsSplit(s, [], [s])
  {
  }

  /** `str.split()` splits the text into its words. */
  lemma {:induction false} WordsSplit(s: string) returns (gaps: seq<string>)
    ensures IsSplit(s, Words(s), gaps)
    decreases |s|
  {
    var lead := LeadingSpace(s);
    var gap, rest := s[..lead], s[lead..];
    var n := TokenEnd(rest);
    TokenIsWord(rest);
    assert rest != "" ==> rest[0] == s[lead];
    if n == 0 {
      hide IsSplit, LeadingSpace, TokenEnd, IsSpace;
      NoWords(s);
      gaps := [s];
    } else {
      var word, after := rest[..n], rest[n..];
      assert after != "" ==> after[0] == rest[n];
      assert s == gap + word + after;
      assert Words(s) == [word] + Words(after);
      assert IsWord(word) && Blank(gap);
      hide IsSplit, LeadingSpace, TokenEnd, IsSpace, IsWord, Blank, Words;
      var later := WordsSplit(after);
      gaps := [gap] + later;
      AddWord(gap, word, after, Words(after), later);
    }
  }

  lemma {:induction false} AddWord(gap: string, word: string, after: string, words: seq<string>, gaps: seq<string>)
    requires IsSplit(after, words, gaps) && Blank(gap) && IsWord(word)
    requires after == "" || IsSpace(after[0])
    ensures IsSplit(gap + word + after, [word] + words, [gap] + gaps)
  {
    var w, g := [word] + words, [gap] + gaps;
    assert w[1..] == words && g[1..] == gaps;
    hide IsSpace;
  }

  /** Joining words with single spaces. */
  lemma {:induction false} JoinIsSpread(words: seq<string>)
    ensures JoinWords(words) == Spread(words, SingleSpaces(|words|))
  {
    var gaps := SingleSpaces(|words|);
    if |words| == 1 {
      assert Spread([], gaps[1..]) == "";
    } else if words != [] {
      JoinIsSpread(words[1..]);
      SpacesBefore(words);
    }
  }

  lemma {:induction false} SpacesBefore(words: seq<string>)
    requires |words| > 1
    ensures Spread(words, SingleSpaces(|words|))
         == words[0] + " " + Spread(words[1..], SingleSpaces(|words| - 1))
  {
    var gaps, fewer := SingleSpaces(|words|), SingleSpaces(|words| - 1);
    var tail, rest := words[1..], Spread(words[2..], gaps[2..]);
    assert gaps[1..][1..] == gaps[2..] == fewer[1..] && tail[1..] == words[2..];
    assert Spread(tail, gaps[1..]) == " " + tail[0] + rest;
    assert Spread(tail, fewer) == "" + tail[0] + rest;
    assert " " + tail[0] + rest == " " + ("" + tail[0] + rest);
    assert "" + words[0] == words[0];
    ConcatAssociates(words[0], " ", Spread(tail, fewer));
  }

  /** A squeezed query holds the words of the query, in their order, with one space between neighbours. */
  lemma {:induction false} SqueezeKeepsWords(s: string) returns (words: seq<string>, gaps: seq<string>)
    ensures IsSplit(s, words, gaps)
    ensures Squeeze(s) == Spread(words, SingleSpaces(|words|))
  {
    words := Words(s);
    gaps := WordsSplit(s);
    JoinIsSpread(words);
  }

  // --- the order of the usable queries ---

  /** The usable queries are the squeezed queries at these positions, in order; the others are empty or repeat, up to
      case folding, one that was seen or an earlier one. */
  predicate UsableAt(fold: Casefold, queries: seq<string>, seen: set<string>, k: nat, all: seq<string>, at: seq<nat>)
    requires k <= |queries|
  {
    && |at| == |all|
    && (forall i | 0 <= i < |at| :: at[i] < k && all[i] == Squeeze(queries[at[i]]))
    && (forall i, j | 0 <= i < j < |at| :: at[i] < at[j])
    && (forall p: nat | p < k && p !in at ::
          var q := Squeeze(queries[p]);
          q == "" || fold(q) in seen || exists p': nat :: p' < p && p' in at && fold(Squeeze(queries[p'])) == fold(q))
  }

  lemma {:induction false} UsableInOrder(fold: Casefold, queries: seq<string>, seen: set<string>, k: nat)
    returns (at: seq<nat>)
    requires k <= |queries|
    ensures UsableAt(fold, queries, seen, k, Usable(fold, queries, seen, k), at)
    decreases k
  {
    if k == 0 {
      at := [];
    } else {
      at := UsableInOrder(fold, queries, seen, k - 1);
      hide Squeeze, UsableAt;
      var all, q := Usable(fold, queries, seen, k - 1), Squeeze(queries[k - 1]);
      if q == "" || fold(q) in seen + FoldAll(fold, all) {
        NotUsable(fold, queries, seen, k, all, at);
      } else {
        OneMoreUsable(fold, queries, seen, k, all, at);
        at := at + [k - 1];
      }
    }
  }

  lemma {:induction false} NotUsable(
      fold: Casefold, queries: seq<string>, seen: set<string>, k: nat, all: seq<string>, at: seq<nat>)
    requires 0 < k <= |queries| && UsableAt(fold, queries, seen, k - 1, all, at)
    requires var q := Squeeze(queries[k - 1]); q == "" || fold(q) in seen + FoldAll(fold, all)
    ensures UsableAt(fold, queries, seen, k, all, at)
  {
    hide Squeeze;
    var q := Squeeze(queries[k - 1]);
    if q != "" && fold(q) !in seen {
      var i :| 0 <= i < |all| && fold(all[i]) == fold(q);
      assert at[i] in at && at[i] < k - 1;
    }
  }

  lemma {:induction false} OneMoreUsable(
      fold: Casefold, queries: seq<string>, seen: set<string>, k: nat, all: seq<string>, at: seq<nat>)
    requires 0 < k <= |queries| && UsableAt(fold, queries, seen, k - 1, all, at)
    ensures UsableAt(fold, queries, seen, k, all + [Squeeze(queries[k - 1])], at + [k - 1])
  {
    hide Squeeze;
    var more := at + [k - 1];
    assert forall p :: p in more <==> p in at || p == k - 1;
  }
}
