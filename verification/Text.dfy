/** Python text operations shared by the modules: whitespace, strip and split-join. */
module Text {

  datatype Option<+T> = None | Some(value: T)

  /** The characters that Python's `str.isspace`, `strip`, `split` and the regex class `\s` accept. */
  predicate IsSpace(c: char) {
    var n := c as int;
    || 0x09 <= n <= 0x0D
    || 0x1C <= n <= 0x20
    || n == 0x85 || n == 0xA0 || n == 0x1680
    || 0x2000 <= n <= 0x200A
    || n == 0x2028 || n == 0x2029 || n == 0x202F || n == 0x205F || n == 0x3000
  }

  predicate Blank(s: string) {
    forall i | 0 <= i < |s| :: IsSpace(s[i])
  }

  /** Number of leading whitespace characters. */
  function LeadingSpace(s: string): (n: nat)
    ensures n <= |s|
    ensures forall i | 0 <= i < n :: IsSpace(s[i])
    ensures n < |s| ==> !IsSpace(s[n])
  {
    if s == "" || !IsSpace(s[0]) then 0 else
    var rest := LeadingSpace(s[1..]);
    assert forall i | 1 <= i < 1 + rest :: s[i] == s[1..][i - 1];
    1 + rest
  }

  /** End of the text once trailing whitespace is removed. */
  function TrimmedEnd(s: string): (n: nat)
    ensures n <= |s|
    ensures forall i | n <= i < |s| :: IsSpace(s[i])
    ensures n > 0 ==> !IsSpace(s[n - 1])
  {
    if s == "" || !IsSpace(s[|s| - 1]) then |s| else TrimmedEnd(s[..|s| - 1])
  }

  /** `str.strip()` as the range of characters it keeps. */
  function StripRange(s: string): (r: (nat, nat))
    ensures r.0 <= r.1 <= |s|
    ensures forall i | 0 <= i < |s| && !IsSpace(s[i]) :: r.0 <= i < r.1
    ensures r.0 < r.1 ==> !IsSpace(s[r.0]) && !IsSpace(s[r.1 - 1])
    ensures r.0 == r.1 <==> Blank(s)
  {
    var lo, hi := LeadingSpace(s), TrimmedEnd(s);
    if lo <= hi then (lo, hi) else (lo, lo)
  }

  function Strip(s: string): string {
    var r := StripRange(s);
    s[r.0..r.1]
  }

  /** A text with no whitespace at either end is its own strip. */
  lemma {:induction false} StripKeepsTrimmed(s: string)
    requires s != "" ==> !IsSpace(s[0]) && !IsSpace(s[|s| - 1])
    ensures Strip(s) == s
  {
    if s != "" {
      var r := StripRange(s);
      assert r.0 <= 0 < r.1 && r.0 <= |s| - 1 < r.1;
    }
  }

  lemma {:induction false} StripIsTrimmed(s: string)
    ensures var t := Strip(s); t != "" ==> !IsSpace(t[0]) && !IsSpace(t[|t| - 1])
    ensures Strip(s) == "" <==> Blank(s)
  {
  }

  /** Stripping removes whitespace at the two ends, and nothing else. */
  lemma {:induction false} StripRemovesEnds(s: string) returns (before: string, after: string)
    ensures s == before + Strip(s) + after && Blank(before) && Blank(after)
  {
    var r := StripRange(s);
    before, after := s[..r.0], s[r.1..];
  }

  lemma {:induction false} NonBlankStrip(s: string)
    requires Strip(s) != ""
    ensures !Blank(Strip(s))
  {
    StripIsTrimmed(s);
    assert !IsSpace(Strip(s)[0]);
  }

  // --- validated text ---

  /** Whitespace in the record validators' patterns: unlike Python's, it excludes U+001C to U+001F. */
  predicate IsPatternSpace(c: char) {
    IsSpace(c) && !(0x1C <= c as int <= 0x1F)
  }

  /** `NonBlankStr`. */
  predicate HasText(s: string) {
    exists i :: 0 <= i < |s| && !IsPatternSpace(s[i])
  }

  predicate AllHaveText(texts: seq<string>) {
    forall i | 0 <= i < |texts| :: HasText(texts[i])
  }

  /** `Sha256Digest`. */
  predicate IsDigest(s: string) {
    |s| == 64 && forall i | 0 <= i < |s| :: '0' <= s[i] <= '9' || 'a' <= s[i] <= 'f'
  }
}
