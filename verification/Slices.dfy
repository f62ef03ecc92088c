/** Small facts about sequence slices, each proved alone so that larger proofs need no extensional reasoning. */
module Slices {

  lemma {:induction false} TakeTake<T>(s: seq<T>, i: nat, j: nat)
    requires i <= j <= |s|
    ensures s[..j][..i] == s[..i]
  {
  }

  lemma {:induction false} CutJoin<T>(s: seq<T>, k: nat)
    requires k <= |s|
    ensures s[..k] + s[k..] == s
  {
  }

  lemma {:induction false} JoinCut<T>(a: seq<T>, b: seq<T>)
    ensures (a + b)[..|a|] == a && (a + b)[|a|..] == b
  {
  }

  lemma {:induction false} SliceRight<T>(a: seq<T>, b: seq<T>, lo: nat, hi: nat)
    requires |a| <= lo <= hi <= |a| + |b|
    ensures (a + b)[lo..hi] == b[lo - |a|..hi - |a|]
  {
  }

  lemma {:induction false} SliceLeft<T>(a: seq<T>, b: seq<T>, lo: nat, hi: nat)
    requires lo <= hi <= |a|
    ensures (a + b)[lo..hi] == a[lo..hi]
  {
  }

  lemma {:induction false} SliceAcross<T>(a: seq<T>, b: seq<T>, lo: nat, hi: nat)
    requires lo <= |a| <= hi <= |a| + |b|
    ensures (a + b)[lo..hi] == a[lo..] + b[0..hi - |a|]
  {
  }

  lemma {:induction false} ConcatAssociates<T>(a: seq<T>, b: seq<T>, c: seq<T>)
    ensures a + b + c == a + (b + c)
  {
  }

  lemma {:induction false} ConcatEmpty<T>(a: seq<T>)
    ensures a + [] == a && [] + a == a
  {
  }

  lemma {:induction false} HeadTail<T>(a: seq<T>)
    requires a != []
    ensures [a[0]] + a[1..] == a
  {
  }

  lemma {:induction false} HeadTailOfConcat<T>(a: seq<T>, b: seq<T>)
    requires a != []
    ensures (a + b)[0] == a[0] && (a + b)[1..] == a[1..] + b
  {
  }

  lemma {:induction false} TailSlice<T>(a: seq<T>, lo: nat, hi: nat)
    requires lo <= hi < |a|
    ensures a[1..][lo..hi] == a[lo + 1..hi + 1]
  {
  }

  lemma {:induction false} TakeSnoc<T>(a: seq<T>, k: nat)
    requires 0 < k <= |a|
    ensures a[..k] == a[..k - 1] + [a[k - 1]]
  {
  }

  lemma {:induction false} TakeAll<T>(a: seq<T>)
    ensures a[..|a|] == a
  {
  }

  lemma {:induction false} SliceOfSlice<T>(s: seq<T>, lo: nat, hi: nat, a: nat, b: nat)
    requires lo <= hi <= |s| && a <= b <= hi - lo
    ensures s[lo..hi][a..b] == s[lo + a..lo + b]
  {
    forall i | 0 <= i < b - a ensures s[lo..hi][a..b][i] == s[lo + a..lo + b][i] { }
  }
}
