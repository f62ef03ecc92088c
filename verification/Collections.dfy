/** Shared notions on sequences, sets and maps. */
module Collections {

  predicate Distinct<T(==)>(s: seq<T>) {
    forall i, j | 0 <= i < j < |s| :: s[i] != s[j]
  }

  /** `s[:n]`. */
  function Capped<T>(s: seq<T>, n: nat): seq<T> {
    if |s| <= n then s else s[..n]
  }

  /** The second map holds every entry of the first, unchanged. */
  predicate Kept<K, V(==)>(a: map<K, V>, b: map<K, V>) {
    forall k | k in a :: k in b && b[k] == a[k]
  }

  lemma {:induction false} KeptSelf<K, V>(a: map<K, V>)
    ensures Kept(a, a)
  {
  }

  lemma {:induction false} SubsetSize<T>(a: set<T>, b: set<T>)
    requires a <= b
    ensures |a| <= |b|
  {
    assert b == a + (b - a);
  }

  lemma {:induction false} OneMore<T>(a: set<T>, b: set<T>, x: T)
    requires x !in a && a <= b && b <= a + {x}
    ensures |b| == |a| + if x in b then 1 else 0
  {
    var d := b - a;
    assert b == a + d;
    if x in b { assert d == {x}; } else { assert d == {}; }
  }

  /** Multiplication by a natural number is monotone. */
  lemma {:induction false} ProductGrows(d: nat, a: int, b: int)
    requires a <= b
    ensures d * a <= d * b
  {
  }
}
