/** UTF-8 (RFC 3629, section 3): encoding, Python's strict and "ignore" decoders, and character boundaries. */
module Utf8 {
  import opened Slices
  import opened Text

  type byte = b: int | 0 <= b < 256
  type bytes = seq<byte>

  function EncodeChar(c: char): (e: bytes)
    ensures 1 <= |e| <= 4
    ensures !IsContinuation(e[0])
    ensures forall i | 1 <= i < |e| :: IsContinuation(e[i])
  {
    var n := c as int;
    if n < 0x80 then [n]
    else if n < 0x800 then [0xC0 + n / 64, 0x80 + n % 64]
    else if n < 0x10000 then [0xE0 + n / 4096, 0x80 + n / 64 % 64, 0x80 + n % 64]
    else [0xF0 + n / 262144, 0x80 + n / 4096 % 64, 0x80 + n / 64 % 64, 0x80 + n % 64]
  }

  /** `b & 0b11000000 == 0b10000000`. */
  predicate IsContinuation(b: byte) {
    0x80 <= b < 0xC0
  }

  /** The six payload bits of a continuation byte. */
  function Low(b: byte): int {
    b - 0x80
  }

  function Encode(s: string): bytes {
    if s == "" then [] else EncodeChar(s[0]) + Encode(s[1..])
  }

  /** Byte length of a text. */
  function Size(s: string): nat {
    |Encode(s)|
  }

  /** Byte offset of the k-th character. */
  function Offset(s: string, k: nat): nat
    requires k <= |s|
  {
    Size(s[..k])
  }

  datatype Lead = NoChar | Lead(c: char, width: nat)

  /** The character that starts at the head of `b` with its width, if a complete well-formed sequence does. */
  function DecodeFirst(b: bytes): (r: Lead)
    requires b != []
    ensures r.Lead? ==> 1 <= r.width <= |b|
  {
    var b0: int := b[0];
    if b0 < 0x80 then Lead(b0 as char, 1)
    else if 0xC2 <= b0 < 0xE0 && |b| >= 2 && IsContinuation(b[1]) then
      Lead(((b0 - 0xC0) * 64 + Low(b[1])) as char, 2)
    else if 0xE0 <= b0 < 0xF0 && |b| >= 3 && IsContinuation(b[1]) && IsContinuation(b[2]) then
      var n := (b0 - 0xE0) * 4096 + Low(b[1]) * 64 + Low(b[2]);
      if 0x800 <= n && !(0xD800 <= n < 0xE000) then Lead(n as char, 3) else NoChar
    else if 0xF0 <= b0 < 0xF5 && |b| >= 4 && IsContinuation(b[1]) && IsContinuation(b[2]) && IsContinuation(b[3]) then
      var n := (b0 - 0xF0) * 262144 + Low(b[1]) * 4096 + Low(b[2]) * 64 + Low(b[3]);
      if 0x10000 <= n < 0x110000 then Lead(n as char, 4) else NoChar
    else NoChar
  }

  /** `bytes.decode("utf-8", errors="ignore")`: bytes that start no well-formed sequence are dropped. */
  function DecodeIgnore(b: bytes): string {
    if b == [] then "" else
    match DecodeFirst(b)
    case Lead(c, width) => [c] + DecodeIgnore(b[width..])
    case NoChar => DecodeIgnore(b[1..])
  }

  /** `bytes.decode("utf-8")`, None where Python raises. */
  function Decode(b: bytes): Option<string> {
    if b == [] then Some("") else
    match DecodeFirst(b)
    case NoChar => None
    case Lead(c, width) =>
      match Decode(b[width..])
      case None => None
      case Some(s) => Some([c] + s)
  }

  /** A byte position is a character boundary when no continuation byte stands there. */
  predicate IsBoundary(b: bytes, p: nat)
    requires p <= |b|
  {
    p == |b| || !IsContinuation(b[p])
  }

  /** The last character whose offset is at most p. */
  function Floor(s: string, p: nat): (k: nat)
    ensures k <= |s|
  {
    if s == "" || |EncodeChar(s[0])| > p then 0 else 1 + Floor(s[1..], p - |EncodeChar(s[0])|)
  }

  /** The first character whose offset is at least p. */
  function Ceil(s: string, p: int): (k: nat)
    ensures k <= |s|
  {
    if s == "" || p <= 0 then 0 else 1 + Ceil(s[1..], p - |EncodeChar(s[0])|)
  }

  // --- encoding ---

  lemma {:induction false} EncodeConcat(a: string, b: string)
    ensures Encode(a + b) == Encode(a) + Encode(b)
  {
    hide EncodeChar;
    if a == "" {
      ConcatEmpty(b);
      ConcatEmpty(Encode(b));
    } else {
      EncodeConcat(a[1..], b);
      HeadTailOfConcat(a, b);
      ConcatAssociates(EncodeChar(a[0]), Encode(a[1..]), Encode(b));
    }
  }

  /** Cutting the text at a character cuts the bytes at its offset. */
  lemma {:induction false} EncodedCut(s: string, k: nat)
    requires k <= |s|
    ensures Offset(s, k) <= Size(s)
    ensures Encode(s)[..Offset(s, k)] == Encode(s[..k])
    ensures Encode(s)[Offset(s, k)..] == Encode(s[k..])
  {
    hide Encode;
    EncodeConcat(s[..k], s[k..]);
    CutJoin(s, k);
    JoinCut(Encode(s[..k]), Encode(s[k..]));
  }

  /** The bytes between two character offsets encode the characters between them. */
  lemma {:induction false} EncodedSlice(s: string, i: nat, j: nat)
    requires i <= j <= |s|
    ensures Offset(s, i) <= Offset(s, j) <= Size(s)
    ensures Offset(s, j) - Offset(s, i) == Size(s[i..j])
    ensures Encode(s)[Offset(s, i)..Offset(s, j)] == Encode(s[i..j])
  {
    hide Encode;
    EncodedCut(s, j);
    EncodedCut(s[..j], i);
    TakeTake(s, i, j);
  }

  lemma {:induction false} EmptySize()
    ensures Size("") == 0
  {
  }

  lemma {:induction false} SizeAtLeastLength(s: string)
    ensures |s| <= Size(s) <= 4 * |s|
  {
    if s != "" {
      SizeAtLeastLength(s[1..]);
    }
  }

  lemma {:induction false} OffsetStrict(s: string, i: nat, j: nat)
    requires i < j <= |s|
    ensures Offset(s, i) < Offset(s, j)
  {
    EncodedSlice(s, i, j);
    SizeAtLeastLength(s[i..j]);
  }

  // --- decoding ---

  lemma {:induction false} ThreeDigits(n: nat)
    ensures n / 4096 * 4096 + n / 64 % 64 * 64 + n % 64 == n
  {
    assert n / 64 / 64 == n / 4096;
  }

  lemma {:induction false} FourDigits(n: nat)
    ensures n / 262144 * 262144 + n / 4096 % 64 * 4096 + n / 64 % 64 * 64 + n % 64 == n
  {
    ThreeDigits(n);
    assert n / 4096 / 64 == n / 262144;
  }

  lemma {:induction false} FirstOfPrefix(c: char, b: bytes)
    requires |EncodeChar(c)| <= |b|
    requires forall i | 0 <= i < |EncodeChar(c)| :: b[i] == EncodeChar(c)[i]
    ensures DecodeFirst(b) == Lead(c, |EncodeChar(c)|)
  {
    var n := c as int;
    var e := EncodeChar(c);
    if n < 0x80 {
      assert b[0] == e[0];
    } else if n < 0x800 {
      assert b[0] == e[0] && b[1] == e[1];
    } else if n < 0x10000 {
      ThreeDigits(n);
      assert b[0] == e[0] && b[1] == e[1] && b[2] == e[2];
    } else {
      FourDigits(n);
      assert b[0] == e[0] && b[1] == e[1] && b[2] == e[2] && b[3] == e[3];
    }
  }

  lemma {:induction false} FirstOfEncoded(c: char, rest: bytes)
    ensures DecodeFirst(EncodeChar(c) + rest) == Lead(c, |EncodeChar(c)|)
  {
    hide EncodeChar, DecodeFirst;
    FirstOfPrefix(c, EncodeChar(c) + rest);
  }

  lemma {:induction false} DecodeIgnoreAfterText(s: string, rest: bytes)
    ensures DecodeIgnore(Encode(s) + rest) == s + DecodeIgnore(rest)
  {
    hide EncodeChar, DecodeFirst;
    if s == "" {
      ConcatEmpty(rest);
      ConcatEmpty(DecodeIgnore(rest));
    } else {
      var e, tail := EncodeChar(s[0]), Encode(s[1..]) + rest;
      DecodeIgnoreAfterText(s[1..], rest);
      ConcatAssociates(e, Encode(s[1..]), rest);
      FirstOfEncoded(s[0], tail);
      JoinCut(e, tail);
      HeadTail(s);
      ConcatAssociates([s[0]], s[1..], DecodeIgnore(rest));
    }
  }

  /** Strict decoding inverts encoding. */
  lemma {:induction false} DecodeEncode(s: string)
    ensures Decode(Encode(s)) == Some(s)
  {
    if s != "" {
      FirstOfEncoded(s[0], Encode(s[1..]));
      assert Encode(s)[|EncodeChar(s[0])|..] == Encode(s[1..]);
      DecodeEncode(s[1..]);
      assert [s[0]] + s[1..] == s;
    }
  }

  /** Strict decoding of bytes that follow a text. */
  lemma {:induction false} DecodeAfterText(s: string, rest: bytes)
    ensures Decode(Encode(s) + rest) == match Decode(rest) case None => None case Some(t) => Some(s + t)
  {
    hide EncodeChar, DecodeFirst;
    if s == "" {
      ConcatEmpty(rest);
      if Decode(rest).Some? { ConcatEmpty(Decode(rest).value); }
    } else {
      var e, tail := EncodeChar(s[0]), Encode(s[1..]) + rest;
      DecodeAfterText(s[1..], rest);
      ConcatAssociates(e, Encode(s[1..]), rest);
      FirstOfEncoded(s[0], tail);
      JoinCut(e, tail);
      HeadTail(s);
      if Decode(rest).Some? { ConcatAssociates([s[0]], s[1..], Decode(rest).value); }
    }
  }

  lemma {:induction false} CutFirstChar(c: char, p: nat)
    requires 0 < p < |EncodeChar(c)|
    ensures Decode(EncodeChar(c)[..p]).None?
  {
    assert EncodeChar(c)[..p][0] == EncodeChar(c)[0] && DecodeFirst(EncodeChar(c)[..p]) == NoChar;
  }

  /** Strict decoding of a cut text gives the characters before the cut, and raises if the cut is inside a character. */
  lemma {:induction false} CutDecodes(s: string, p: nat)
    requires p <= Size(s)
    ensures Decode(Encode(s)[..p]) == if Offset(s, Floor(s, p)) == p then Some(s[..Floor(s, p)]) else None
  {
    hide EncodeChar, DecodeFirst;
    if s != "" {
      var e, k := EncodeChar(s[0]), Floor(s, p);
      if p < |e| {
        assert Encode(s)[..p] == e[..p];
        if p > 0 { CutFirstChar(s[0], p); }
      } else {
        var rest := Encode(s[1..])[..p - |e|];
        CutDecodes(s[1..], p - |e|);
        assert Encode(s)[..p] == e + rest;
        FirstOfEncoded(s[0], rest);
        JoinCut(e, rest);
        assert s[..k] == [s[0]] + s[1..][..k - 1] && s[..k][1..] == s[1..][..k - 1];
      }
    }
  }

  /** Leading continuation bytes are dropped. */
  lemma {:induction false} DecodeIgnoreSkips(t: bytes, rest: bytes)
    requires forall i | 0 <= i < |t| :: IsContinuation(t[i])
    ensures DecodeIgnore(t + rest) == DecodeIgnore(rest)
  {
    if t == [] {
      assert t + rest == rest;
    } else {
      assert (t + rest)[0] == t[0] && (t + rest)[1..] == t[1..] + rest;
      DecodeIgnoreSkips(t[1..], rest);
    }
  }

  /** A sequence cut short yields nothing. */
  lemma {:induction false} DecodeIgnoreCutChar(c: char, k: nat)
    requires k < |EncodeChar(c)|
    ensures DecodeIgnore(EncodeChar(c)[..k]) == ""
  {
    var t := EncodeChar(c)[..k];
    if k > 0 {
      assert t[0] == EncodeChar(c)[0];
      assert DecodeFirst(t) == NoChar;
      assert t[1..] + [] == t[1..];
      DecodeIgnoreSkips(t[1..], []);
    }
  }

  /** A range that ends inside its first character yields nothing. */
  lemma {:induction false} SliceInsideChar(c: char, lo: nat, hi: nat)
    requires lo <= hi < |EncodeChar(c)|
    ensures DecodeIgnore(EncodeChar(c)[lo..hi]) == ""
  {
    var e := EncodeChar(c);
    if lo == 0 {
      DecodeIgnoreCutChar(c, hi);
      assert e[lo..hi] == e[..hi];
    } else {
      assert e[lo..hi] + [] == e[lo..hi];
      DecodeIgnoreSkips(e[lo..hi], []);
    }
  }

  /** A range that starts inside a character loses that character, one that starts at it keeps it. */
  lemma {:induction false} SliceFromChar(c: char, lo: nat, rest: bytes)
    requires lo < |EncodeChar(c)|
    ensures DecodeIgnore(EncodeChar(c)[lo..] + rest) == (if lo == 0 then [c] else "") + DecodeIgnore(rest)
  {
    var e := EncodeChar(c);
    if lo == 0 {
      assert e[0..] == Encode([c]);
      DecodeIgnoreAfterText([c], rest);
    } else {
      DecodeIgnoreSkips(e[lo..], rest);
    }
  }

  /** Whole characters of `s` inside the byte range [lo, hi). */
  function Inside(s: string, lo: nat, hi: nat): string {
    if Ceil(s, lo) <= Floor(s, hi) then s[Ceil(s, lo)..Floor(s, hi)] else ""
  }

  lemma {:induction false} InsideShift(s: string, lo: nat, hi: nat)
    requires s != "" && |EncodeChar(s[0])| <= lo <= hi
    ensures Inside(s, lo, hi) == Inside(s[1..], lo - |EncodeChar(s[0])|, hi - |EncodeChar(s[0])|)
  {
    hide EncodeChar;
    var w := |EncodeChar(s[0])|;
    var c, f := Ceil(s[1..], lo - w), Floor(s[1..], hi - w);
    if c <= f { TailSlice(s, c, f); }
  }

  lemma {:induction false} InsideHead(s: string, lo: nat, hi: nat)
    requires s != "" && lo < |EncodeChar(s[0])| <= hi
    ensures Inside(s, lo, hi) == (if lo == 0 then [s[0]] else "") + Inside(s[1..], 0, hi - |EncodeChar(s[0])|)
  {
    hide EncodeChar;
    var w := |EncodeChar(s[0])|;
    var f := Floor(s[1..], hi - w);
    assert Ceil(s[1..], 0) == 0 && Ceil(s[1..], lo - w) == 0;
    assert s[1..][0..f] == s[1..f + 1];
    assert [s[0]] + s[1..f + 1] == s[0..f + 1];
  }

  /** Decoding any byte range of a text with errors ignored yields the whole characters inside the range. */
  lemma {:induction false} SliceDecodes(s: string, lo: nat, hi: nat)
    requires lo <= hi <= Size(s)
    ensures DecodeIgnore(Encode(s)[lo..hi]) == Inside(s, lo, hi)
    decreases |s|
  {
    if s == "" {
      assert Encode(s)[lo..hi] == [];
    } else {
      var w := |EncodeChar(s[0])|;
      if w <= lo {
        SliceDecodes(s[1..], lo - w, hi - w);
        SliceDecodesTail(s, lo, hi);
      } else if hi < w {
        SliceInsideChar(s[0], lo, hi);
        SliceLeft(EncodeChar(s[0]), Encode(s[1..]), lo, hi);
        NothingInside(s, lo, hi);
      } else {
        SliceDecodes(s[1..], 0, hi - w);
        SliceDecodesHead(s, lo, hi);
      }
    }
  }

  lemma {:induction false} SliceDecodesTail(s: string, lo: nat, hi: nat)
    requires s != "" && |EncodeChar(s[0])| <= lo <= hi <= Size(s)
    requires var w := |EncodeChar(s[0])|;
             DecodeIgnore(Encode(s[1..])[lo - w..hi - w]) == Inside(s[1..], lo - w, hi - w)
    ensures DecodeIgnore(Encode(s)[lo..hi]) == Inside(s, lo, hi)
  {
    hide EncodeChar, DecodeIgnore, DecodeFirst, Inside;
    SliceRight(EncodeChar(s[0]), Encode(s[1..]), lo, hi);
    InsideShift(s, lo, hi);
  }

  lemma {:induction false} SliceDecodesHead(s: string, lo: nat, hi: nat)
    requires s != "" && lo < |EncodeChar(s[0])| <= hi <= Size(s)
    requires var w := |EncodeChar(s[0])|;
             DecodeIgnore(Encode(s[1..])[0..hi - w]) == Inside(s[1..], 0, hi - w)
    ensures DecodeIgnore(Encode(s)[lo..hi]) == Inside(s, lo, hi)
  {
    hide EncodeChar, DecodeIgnore, DecodeFirst, Inside;
    SliceAcross(EncodeChar(s[0]), Encode(s[1..]), lo, hi);
    InsideHead(s, lo, hi);
    SliceFromChar(s[0], lo, Encode(s[1..])[0..hi - |EncodeChar(s[0])|]);
  }

  lemma {:induction false} NothingInside(s: string, lo: nat, hi: nat)
    requires s != "" && lo <= hi < |EncodeChar(s[0])|
    ensures Inside(s, lo, hi) == ""
  {
  }

  // --- boundaries ---

  /** Floor and Ceil are the Galois bounds of Offset. */
  lemma {:induction false} FloorIsGreatest(s: string, p: nat, k: nat)
    requires k <= |s|
    ensures Offset(s, k) <= p <==> k <= Floor(s, p)
    decreases |s|
  {
    if k == 0 {
    } else {
      assert s[..k][0] == s[0] && s[..k][1..] == s[1..][..k - 1];
      if |EncodeChar(s[0])| <= p {
        FloorIsGreatest(s[1..], p - |EncodeChar(s[0])|, k - 1);
      }
    }
  }

  lemma {:induction false} CeilIsLeast(s: string, p: int, k: nat)
    requires k <= |s| && p <= Size(s)
    ensures p <= Offset(s, k) <==> Ceil(s, p) <= k
    decreases |s|
  {
    if s == "" || p <= 0 {
    } else if k == 0 {
    } else {
      assert s[..k][0] == s[0] && s[..k][1..] == s[1..][..k - 1];
      CeilIsLeast(s[1..], p - |EncodeChar(s[0])|, k - 1);
    }
  }

  lemma {:induction false} FloorCeilOfOffset(s: string, k: nat)
    requires k <= |s|
    ensures Offset(s, k) <= Size(s)
    ensures Floor(s, Offset(s, k)) == k == Ceil(s, Offset(s, k))
  {
    EncodedSlice(s, k, |s|);
    assert s[..|s|] == s;
    var p := Offset(s, k);
    FloorIsGreatest(s, p, k);
    FloorIsGreatest(s, p, Floor(s, p));
    if k < Floor(s, p) { OffsetStrict(s, k, Floor(s, p)); }
    CeilIsLeast(s, p, k);
    CeilIsLeast(s, p, Ceil(s, p));
    if Ceil(s, p) < k { OffsetStrict(s, Ceil(s, p), k); }
  }

  /** Boundaries of an encoded text are exactly the character offsets. */
  lemma {:induction false} BoundaryIsOffset(s: string, p: nat)
    requires p <= Size(s)
    ensures IsBoundary(Encode(s), p) <==> Offset(s, Floor(s, p)) == p
    decreases |s|
  {
    if s == "" {
    } else {
      var e := EncodeChar(s[0]);
      if |e| <= p {
        BoundaryIsOffset(s[1..], p - |e|);
        var f := Floor(s[1..], p - |e|);
        assert s[..f + 1][0] == s[0] && s[..f + 1][1..] == s[1..][..f];
      } else {
        assert Encode(s)[p] == e[p];
      }
    }
  }

  /** Of four adjacent bytes at least one starts a character. */
  lemma {:induction false} NoFourContinuations(s: string, p: nat)
    requires p + 3 < Size(s)
    ensures exists q | p <= q <= p + 3 :: IsBoundary(Encode(s), q)
    decreases |s|
  {
    var e, rest := EncodeChar(s[0]), Encode(s[1..]);
    assert Encode(s) == e + rest;
    if |e| <= p {
      NoFourContinuations(s[1..], p - |e|);
      var q :| p - |e| <= q <= p - |e| + 3 && IsBoundary(rest, q);
      assert IsBoundary(Encode(s), q + |e|);
    } else if p == 0 {
      assert IsBoundary(Encode(s), 0);
    } else {
      assert s[1..] != "";
      assert IsBoundary(rest, 0);
      assert IsBoundary(Encode(s), |e|);
    }
  }

  /** Strict decoding between two boundaries succeeds and yields the characters between them. */
  lemma {:induction false} BoundarySliceDecodes(s: string, lo: nat, hi: nat)
    requires lo <= hi <= Size(s)
    requires IsBoundary(Encode(s), lo) && IsBoundary(Encode(s), hi)
    ensures Floor(s, lo) <= Floor(s, hi)
    ensures Decode(Encode(s)[lo..hi]) == Some(s[Floor(s, lo)..Floor(s, hi)])
  {
    BoundaryIsOffset(s, lo);
    BoundaryIsOffset(s, hi);
    var i, j := Floor(s, lo), Floor(s, hi);
    FloorIsGreatest(s, hi, i);
    EncodedSlice(s, i, j);
    DecodeEncode(s[i..j]);
  }

  // --- truncation ---

  /** `_truncate_utf8`. */
  function Truncate(s: string, maxBytes: nat): string {
    if Size(s) <= maxBytes then s else DecodeIgnore(Encode(s)[..maxBytes])
  }

  /** Truncation keeps the longest prefix that fits the byte bound. */
  lemma {:induction false} TruncateIsLongestPrefix(s: string, maxBytes: nat)
    ensures var k := |Truncate(s, maxBytes)|;
            && k <= |s| && Truncate(s, maxBytes) == s[..k]
            && Offset(s, k) <= maxBytes
            && forall j | k < j <= |s| :: maxBytes < Offset(s, j)
  {
    assert s[..|s|] == s;
    if Size(s) <= maxBytes {
    } else {
      var f := Floor(s, maxBytes);
      assert Encode(s)[0..maxBytes] == Encode(s)[..maxBytes];
      SliceDecodes(s, 0, maxBytes);
      FloorIsGreatest(s, maxBytes, f);
      forall j | f < j <= |s| ensures maxBytes < Offset(s, j) {
        FloorIsGreatest(s, maxBytes, j);
      }
    }
  }
}
