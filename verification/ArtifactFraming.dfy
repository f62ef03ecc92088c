/** The length-prefixed byte stream that is fed to the combined artifact hash (`_combined_artifact_hash`). */
module ArtifactFraming {
  import opened Slices
  import opened Text
  import opened Utf8

  const BUILDLOG_ARTIFACTS: seq<string> := [
    "ingestion-report.md", "02_plan.json", "03_draft.md", "04_evaluation.json",
    "05_final.md", "run_metadata.json", "timeline.json", "events.jsonl"]

  type Artifacts = map<string, bytes>

  function Power256(n: nat): nat {
    if n == 0 then 1 else 256 * Power256(n - 1)
  }

  /** `n.to_bytes(width, "big")`. */
  function BigEndian(n: nat, width: nat): (r: bytes)
    requires n < Power256(width)
    ensures |r| == width
  {
    if width == 0 then [] else BigEndian(n / 256, width - 1) + [n % 256]
  }

  function FromBigEndian(b: bytes): nat {
    if b == [] then 0 else FromBigEndian(b[..|b| - 1]) * 256 + b[|b| - 1]
  }

  lemma {:induction false} BigEndianRoundTrip(n: nat, width: nat)
    requires n < Power256(width)
    ensures FromBigEndian(BigEndian(n, width)) == n
    decreases width
  {
    if width > 0 {
      BigEndianRoundTrip(n / 256, width - 1);
      JoinCut(BigEndian(n / 256, width - 1), [n % 256]);
    }
  }

  /** Lengths that `to_bytes` can write in 4 and 8 bytes. */
  predicate Framable(name: string, value: bytes) {
    Size(name) < Power256(4) && |value| < Power256(8)
  }

  predicate AllFramable(artifacts: Artifacts, names: seq<string>) {
    forall i | 0 <= i < |names| && names[i] in artifacts :: Framable(names[i], artifacts[names[i]])
  }

  function Entry(name: string, value: bytes): bytes
    requires Framable(name, value)
  {
    BigEndian(Size(name), 4) + (Encode(name) + (BigEndian(|value|, 8) + value))
  }

  /** Everything `digest.update` receives, in order; absent artifacts are skipped. */
  function Frame(artifacts: Artifacts, names: seq<string>): bytes
    requires AllFramable(artifacts, names)
    decreases |names|
  {
    if names == [] then [] else
    var rest := Frame(artifacts, names[1..]);
    if names[0] in artifacts then Entry(names[0], artifacts[names[0]]) + rest else rest
  }

  datatype Item = Item(name: string, value: bytes)

  /** The artifacts present, in the fixed order. */
  function Present(artifacts: Artifacts, names: seq<string>): seq<Item>
    decreases |names|
  {
    if names == [] then [] else
    (if names[0] in artifacts then [Item(names[0], artifacts[names[0]])] else []) + Present(artifacts, names[1..])
  }

  /** A reader of the stream: fields are cut by their length prefixes alone. */
  function Parse(b: bytes): Option<seq<Item>>
    decreases |b|
  {
    if b == [] then Some([])
    else if |b| < 4 then None else
    var nameLength := FromBigEndian(b[..4]);
    var afterName := b[4..];
    if |afterName| < nameLength then None else
    var name := Decode(afterName[..nameLength]);
    var sized := afterName[nameLength..];
    if name.None? || |sized| < 8 then None else
    var valueLength := FromBigEndian(sized[..8]);
    var body := sized[8..];
    if |body| < valueLength then None else
    match Parse(body[valueLength..])
    case None => None
    case Some(rest) => Some([Item(name.value, body[..valueLength])] + rest)
  }

  lemma {:induction false} ParseEntry(name: string, value: bytes, rest: bytes)
    requires Framable(name, value)
    ensures Parse(Entry(name, value) + rest)
         == match Parse(rest) case None => None case Some(items) => Some([Item(name, value)] + items)
  {
    var h, n, l := BigEndian(Size(name), 4), Encode(name), BigEndian(|value|, 8);
    BigEndianRoundTrip(Size(name), 4);
    BigEndianRoundTrip(|value|, 8);
    DecodeEncode(name);
    var b := Entry(name, value) + rest;
    hide Encode, Decode, BigEndian, FromBigEndian, Power256;
    ConcatAssociates(h, n + (l + value), rest);
    ConcatAssociates(n, l + value, rest);
    ConcatAssociates(l, value, rest);
    JoinCut(h, n + (l + (value + rest)));
    JoinCut(n, l + (value + rest));
    JoinCut(l, value + rest);
    JoinCut(value, rest);
    assert b == h + (n + (l + (value + rest)));
  }

  /** Reading the stream back yields exactly the artifacts that were framed. */
  lemma {:induction false} ParseFrame(artifacts: Artifacts, names: seq<string>)
    requires AllFramable(artifacts, names)
    ensures Parse(Frame(artifacts, names)) == Some(Present(artifacts, names))
    decreases |names|
  {
    if names != [] {
      hide Parse, Entry;
      ParseFrame(artifacts, names[1..]);
      if names[0] in artifacts {
        ParseEntry(names[0], artifacts[names[0]], Frame(artifacts, names[1..]));
      } else {
        ConcatEmpty(Present(artifacts, names[1..]));
      }
    } else {
      assert Parse([]) == Some([]);
    }
  }

  lemma {:induction false} PresentMembers(artifacts: Artifacts, names: seq<string>, item: Item)
    ensures item in Present(artifacts, names)
       <==> item.name in names && item.name in artifacts && artifacts[item.name] == item.value
    decreases |names|
  {
    if names != [] {
      PresentMembers(artifacts, names[1..], item);
      HeadTail(names);
    }
  }

  /** Two artifact maps feed the hash the same bytes only if they agree on every named artifact. */
  lemma {:induction false} FramingIsInjective(a: Artifacts, b: Artifacts, names: seq<string>, name: string)
    requires AllFramable(a, names) && AllFramable(b, names)
    requires Frame(a, names) == Frame(b, names)
    requires name in names
    ensures name in a <==> name in b
    ensures name in a ==> a[name] == b[name]
  {
    ParseFrame(a, names);
    ParseFrame(b, names);
    hide Parse, Frame;
    if name in a {
      PresentMembers(a, names, Item(name, a[name]));
      PresentMembers(b, names, Item(name, a[name]));
    }
    if name in b {
      PresentMembers(a, names, Item(name, b[name]));
      PresentMembers(b, names, Item(name, b[name]));
    }
  }

  /** The update loop; `fed` collects what the digest has received. */
  method CombinedArtifactBytes(artifacts: Artifacts) returns (fed: bytes)
    requires AllFramable(artifacts, BUILDLOG_ARTIFACTS)
    ensures fed == Frame(artifacts, BUILDLOG_ARTIFACTS)
  {
    hide Entry, Power256, BigEndian;
    var names := BUILDLOG_ARTIFACTS;
    fed := [];
    ConcatEmpty(Frame(artifacts, names));
    assert names[0..] == names;
    for k := 0 to |names|
      invariant AllFramable(artifacts, names[k..])
      invariant fed + Frame(artifacts, names[k..]) == Frame(artifacts, names)
    {
      var name := names[k];
      assert names[k..][0] == name && names[k..][1..] == names[k + 1..];
      ghost var rest := Frame(artifacts, names[k + 1..]);
      if name in artifacts {
        var value := artifacts[name];
        ConcatAssociates(fed, Entry(name, value), rest);
        EntryUpdates(fed, name, value);
        fed := fed + BigEndian(Size(name), 4);
        fed := fed + Encode(name);
        fed := fed + BigEndian(|value|, 8);
        fed := fed + value;
      }
    }
    ConcatEmpty(fed);
  }

  lemma {:induction false} EntryUpdates(fed: bytes, name: string, value: bytes)
    requires Framable(name, value)
    ensures fed + Entry(name, value) == fed + BigEndian(Size(name), 4) + Encode(name) + BigEndian(|value|, 8) + value
  {
    hide Encode, BigEndian, Power256;
    var h, n, l := BigEndian(Size(name), 4), Encode(name), BigEndian(|value|, 8);
    ConcatAssociates(fed, h, n + (l + value));
    ConcatAssociates(fed + h, n, l + value);
    ConcatAssociates(fed + h + n, l, value);
  }
}
