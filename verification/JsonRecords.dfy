/** Serialised evidence records and the longest excerpt that fits a byte budget (`_json_text`, `_fit_context_record`).
    */
module JsonRecords {
  import opened Slices
  import opened Text
  import opened Utf8

  type ChunkId = string

  /** The serialised object on either side of the excerpt's characters. */
  datatype Base = Base(before: string, after: string)

  datatype Record = Record(chunkId: ChunkId, base: Base, excerpt: string)

  function HexDigit(n: nat): char
    requires n < 16
  {
    "0123456789abcdef"[n]
  }

  /** String escapes of RFC 8259, section 7, as `json.dumps(..., ensure_ascii=False)` writes them. */
  function EscapeChar(c: char): (r: string)
    ensures r != ""
  {
    if c == '"' || c == '\\' then ['\\', c]
    else if c == '\n' then "\\n"
    else if c == '\r' then "\\r"
    else if c == '\t' then "\\t"
    else if c as int == 0x0C then "\\f"
    else if c as int == 0x08 then "\\b"
    else if (c as int) < 0x20 then "\\u00" + [HexDigit(c as int / 16), HexDigit(c as int % 16)]
    else [c]
  }

  function Escape(s: string): string {
    if s == "" then "" else EscapeChar(s[0]) + Escape(s[1..])
  }

  function RecordText(r: Record): string {
    r.base.before + Escape(r.excerpt) + r.base.after
  }

  /** Comma-separated record texts. */
  function Body(records: seq<Record>): string
    decreases |records|
  {
    if records == [] then ""
    else if |records| == 1 then RecordText(records[0])
    else Body(records[..|records| - 1]) + "," + RecordText(records[|records| - 1])
  }

  /** `_json_text` of a list of records. */
  function JsonText(records: seq<Record>): string {
    "[" + Body(records) + "]"
  }

  function JsonSize(records: seq<Record>): nat {
    Size(JsonText(records))
  }

  lemma {:induction false} SizeOf3(a: string, b: string, c: string)
    ensures Size(a + b + c) == Size(a) + Size(b) + Size(c)
  {
    hide Encode;
    EncodeConcat(a + b, c);
    EncodeConcat(a, b);
  }

  lemma {:induction false} AsciiSize(c: char)
    requires c as int < 0x80
    ensures Size([c]) == 1
  {
    assert [c][1..] == "";
    assert Encode([c]) == EncodeChar(c) + [];
  }

  /** Brackets, commas and record texts add up. */
  lemma {:induction false} JsonSizeSnoc(records: seq<Record>, r: Record)
    ensures JsonSize([]) == 2
    ensures JsonSize(records + [r]) == JsonSize(records) + (if records == [] then 0 else 1) + Size(RecordText(r))
  {
    JoinCut(records, [r]);
    AsciiSize('[');
    AsciiSize(']');
    AsciiSize(',');
    hide Encode, RecordText;
    SizeOf3("[", Body([]), "]");
    SizeOf3("[", Body(records), "]");
    SizeOf3("[", Body(records + [r]), "]");
    EmptySize();
    if records == [] {
      assert records + [r] == [r];
    } else {
      SizeOf3(Body(records), ",", RecordText(r));
    }
  }

  lemma {:induction false} EscapeConcat(a: string, b: string)
    ensures Escape(a + b) == Escape(a) + Escape(b)
  {
    hide EscapeChar;
    if a == "" {
      ConcatEmpty(b);
      ConcatEmpty(Escape(b));
    } else {
      EscapeConcat(a[1..], b);
      HeadTailOfConcat(a, b);
      ConcatAssociates(EscapeChar(a[0]), Escape(a[1..]), Escape(b));
    }
  }

  /** Escaping never shortens a text. */
  lemma {:induction false} EscapeLength(s: string)
    ensures |s| <= |Escape(s)|
  {
    if s != "" { EscapeLength(s[1..]); }
  }

  /** A longer excerpt makes a strictly longer record. */
  lemma {:induction false} LongerExcerptIsBigger(id: ChunkId, base: Base, excerpt: string, i: nat, j: nat)
    requires i < j <= |excerpt|
    ensures Size(RecordText(Record(id, base, excerpt[..i]))) < Size(RecordText(Record(id, base, excerpt[..j])))
  {
    var a, b := excerpt[..i], excerpt[i..j];
    assert a + b == excerpt[..j];
    EscapeConcat(a, b);
    EscapeLength(b);
    hide Encode, Escape;
    SizeOf3(base.before, Escape(a), base.after);
    SizeOf3(base.before, Escape(a + b), base.after);
    EncodeConcat(Escape(a), Escape(b));
    SizeAtLeastLength(Escape(b));
  }

  // --- the longest excerpt that fits ---

  predicate FitsWith(existing: seq<Record>, r: Record, maxBytes: nat) {
    JsonSize(existing + [r]) <= maxBytes
  }

  /** Largest k such that the first k characters fit; 0 also when not even the empty excerpt does. */
  function LongestFit(existing: seq<Record>, id: ChunkId, base: Base, excerpt: string, maxBytes: nat, k: nat): (n: nat)
    requires k <= |excerpt|
    ensures n <= k
    decreases k
  {
    if k == 0 || FitsWith(existing, Record(id, base, excerpt[..k]), maxBytes) then k
    else LongestFit(existing, id, base, excerpt, maxBytes, k - 1)
  }

  /** The value of `_fit_context_record`. */
  function Fitted(existing: seq<Record>, id: ChunkId, base: Base, excerpt: string, maxBytes: nat): Option<Record> {
    var n := LongestFit(existing, id, base, excerpt, maxBytes, |excerpt|);
    if n == 0 then None else Some(Record(id, base, excerpt[..n]))
  }

  /** Fitting is monotone: whatever fits, every shorter prefix fits. */
  lemma {:induction false} ShorterFits(
      existing: seq<Record>, id: ChunkId, base: Base, excerpt: string, maxBytes: nat, i: nat, j: nat)
    requires i <= j <= |excerpt| && FitsWith(existing, Record(id, base, excerpt[..j]), maxBytes)
    ensures FitsWith(existing, Record(id, base, excerpt[..i]), maxBytes)
  {
    hide RecordText, JsonSize;
    JsonSizeSnoc(existing, Record(id, base, excerpt[..i]));
    JsonSizeSnoc(existing, Record(id, base, excerpt[..j]));
    if i < j { LongerExcerptIsBigger(id, base, excerpt, i, j); }
  }

  lemma {:induction false} LongestFitIsLargest(
      existing: seq<Record>, id: ChunkId, base: Base, excerpt: string, maxBytes: nat, k: nat, j: nat)
    requires 0 < j <= k <= |excerpt|
    ensures FitsWith(existing, Record(id, base, excerpt[..j]), maxBytes)
       <==> j <= LongestFit(existing, id, base, excerpt, maxBytes, k)
    decreases k
  {
    hide FitsWith;
    if FitsWith(existing, Record(id, base, excerpt[..k]), maxBytes) {
      ShorterFits(existing, id, base, excerpt, maxBytes, j, k);
    } else if j < k {
      LongestFitIsLargest(existing, id, base, excerpt, maxBytes, k - 1, j);
    }
  }

  /** `_fit_context_record` keeps the longest non-empty prefix that fits, and gives up exactly when none does. */
  lemma {:induction false} FittedIsMaximal(
      existing: seq<Record>, id: ChunkId, base: Base, excerpt: string, maxBytes: nat)
    ensures var r := Fitted(existing, id, base, excerpt, maxBytes);
            && (r.None? <==> forall k | 0 < k <= |excerpt| ::
                !FitsWith(existing, Record(id, base, excerpt[..k]), maxBytes))
            && (r.Some? ==>
                && r.value.chunkId == id && r.value.base == base
                && 0 < |r.value.excerpt| <= |excerpt| && r.value.excerpt == excerpt[..|r.value.excerpt|]
                && FitsWith(existing, r.value, maxBytes)
                && forall k | |r.value.excerpt| < k <= |excerpt| ::
                     !FitsWith(existing, Record(id, base, excerpt[..k]), maxBytes))
  {
    var n := LongestFit(existing, id, base, excerpt, maxBytes, |excerpt|);
    forall k | 0 < k <= |excerpt|
      ensures FitsWith(existing, Record(id, base, excerpt[..k]), maxBytes) <==> k <= n
    {
      LongestFitIsLargest(existing, id, base, excerpt, maxBytes, |excerpt|, k);
    }
    if n > 0 { assert FitsWith(existing, Record(id, base, excerpt[..n]), maxBytes); }
  }

  /** `_fit_context_record`: the empty record first, then a binary search over prefix lengths. */
  method FitContextRecord(existing: seq<Record>, id: ChunkId, base: Base, excerpt: string, maxBytes: nat)
    returns (r: Option<Record>)
    ensures r == Fitted(existing, id, base, excerpt, maxBytes)
  {
    ghost var n := LongestFit(existing, id, base, excerpt, maxBytes, |excerpt|);
    var empty := Record(id, base, "");
    assert excerpt[..0] == "";
    if JsonSize(existing + [empty]) > maxBytes {
      if n > 0 {
        LongestFitIsLargest(existing, id, base, excerpt, maxBytes, |excerpt|, n);
        ShorterFits(existing, id, base, excerpt, maxBytes, 0, n);
      }
      return None;
    }
    var low, high := 0, |excerpt|;
    var best := empty;
    while low <= high
      invariant 0 <= low <= high + 1 && high <= |excerpt|
      invariant n <= high && low <= n + 1
      invariant best == Record(id, base, excerpt[..if low == 0 then 0 else low - 1])
      decreases high - low + 1
    {
      hide LongestFit, JsonSize;
      var middle := (low + high) / 2;
      var candidate := Record(id, base, excerpt[..middle]);
      if middle > 0 {
        LongestFitIsLargest(existing, id, base, excerpt, maxBytes, |excerpt|, middle);
      } else {
        assert candidate == empty;
      }
      if JsonSize(existing + [candidate]) <= maxBytes {
        best := candidate;
        low := middle + 1;
      } else {
        high := middle - 1;
      }
    }
    r := if best.excerpt != "" then Some(best) else None;
  }
}
