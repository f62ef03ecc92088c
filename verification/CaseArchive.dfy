/** The content-addressed archive of one directory: names derived from a digest, never overwritten. */
module CaseArchive {
  import opened Collections
  import opened Text
  import opened Utf8

  /** What `hexdigest` of SHA-256 returns. */
  type Digest = s: string | IsDigest(s) witness seq(64, _ => '0')

  type Hash = bytes -> Digest

  /** `ReceiptId`; the ids of receipts are generated in this form. */
  predicate IsReceiptId(s: string) {
    && 1 <= |s| <= 128 && IsAlphanumeric(s[0])
    && forall i | 0 <= i < |s| :: IsAlphanumeric(s[i]) || s[i] == '.' || s[i] == '_' || s[i] == '-'
  }

  predicate IsAlphanumeric(c: char) {
    'a' <= c <= 'z' || 'A' <= c <= 'Z' || '0' <= c <= '9'
  }

  type ReceiptId = s: string | IsReceiptId(s) witness "0"

  type Counter = n: nat | n >= 2 witness 2

  /** A file name: the digest, or the digest, a dash and a counter from 2. Digests contain no dash. */
  datatype Name = Plain(digest: Digest) | Numbered(digest: Digest, counter: Counter)

  type Directory = map<Name, bytes>

  datatype FileReceipt = FileReceipt(receiptId: ReceiptId, sourcePath: string, name: Name, sha: Digest, size: nat)

  /** The n-th name tried for a digest, counting from 1. */
  function Candidate(digest: Digest, n: nat): Name {
    if n <= 1 then Plain(digest) else Numbered(digest, n)
  }

  function NumberOf(name: Name): nat {
    if name.Plain? then 1 else name.counter
  }

  /** The names in use from the n-th on. */
  function Taken(dir: Directory, digest: Digest, n: nat): set<Name> {
    set x | x in dir.Keys && x.digest == digest && n <= NumberOf(x)
  }

  lemma {:induction false} TakenShrinks(dir: Directory, digest: Digest, n: nat)
    requires n >= 1 && Candidate(digest, n) in dir
    ensures |Taken(dir, digest, n + 1)| < |Taken(dir, digest, n)|
  {
    var name := Candidate(digest, n);
    assert name in Taken(dir, digest, n) && name !in Taken(dir, digest, n + 1);
    assert Taken(dir, digest, n + 1) <= Taken(dir, digest, n) - {name};
    SubsetSize(Taken(dir, digest, n + 1), Taken(dir, digest, n) - {name});
  }

  /** The first free name from the n-th on. */
  function FirstFree(dir: Directory, digest: Digest, n: nat): (name: Name)
    requires n >= 1
    ensures name !in dir && name.digest == digest
    decreases |Taken(dir, digest, n)|
  {
    if Candidate(digest, n) !in dir then Candidate(digest, n)
    else
      TakenShrinks(dir, digest, n);
      FirstFree(dir, digest, n + 1)
  }

  /** `_available_hash_filename`. */
  method AvailableName(dir: Directory, digest: Digest) returns (name: Name)
    ensures name == FirstFree(dir, digest, 1)
  {
    name := Plain(digest);
    var counter := 2;
    while name in dir
      invariant counter >= 2 && name == Candidate(digest, counter - 1)
      invariant FirstFree(dir, digest, 1) == FirstFree(dir, digest, counter - 1)
      decreases |Taken(dir, digest, counter - 1)|
    {
      TakenShrinks(dir, digest, counter - 1);
      name := Numbered(digest, counter);
      counter := counter + 1;
    }
  }

  /** All names tried before the chosen one are in use. */
  lemma {:induction false} FirstFreeIsFirst(dir: Directory, digest: Digest, n: nat, m: nat)
    requires 1 <= n <= m < NumberOf(FirstFree(dir, digest, n))
    ensures Candidate(digest, m) in dir
    decreases |Taken(dir, digest, n)|
  {
    if Candidate(digest, n) in dir && n < m {
      TakenShrinks(dir, digest, n);
      FirstFreeIsFirst(dir, digest, n + 1, m);
    }
  }

  /** `_verify_receipt`. */
  predicate Verifies(hash: Hash, dir: Directory, r: FileReceipt) {
    r.name in dir && |dir[r.name]| == r.size && hash(dir[r.name]) == r.sha
  }

  // --- evidence: every source gets a name of its own ---

  datatype Source = Source(path: string, content: Option<bytes>)

  /** `_validate_receipt_source`. */
  predicate Readable(s: Source) {
    s.content.Some? && s.content.value != []
  }

  /** The receipts and the directory after archiving the first k sources. */
  datatype Archived = Archived(receipts: seq<FileReceipt>, dir: Directory)

  function ArchiveAll(hash: Hash, sources: seq<Source>, ids: seq<ReceiptId>, k: nat): (a: Archived)
    requires k <= |sources| == |ids| && forall i | 0 <= i < |sources| :: Readable(sources[i])
    ensures |a.receipts| == k
    decreases k
  {
    if k == 0 then Archived([], map[]) else
    var before := ArchiveAll(hash, sources, ids, k - 1);
    var content := sources[k - 1].content.value;
    var name := FirstFree(before.dir, hash(content), 1);
    Archived(before.receipts + [FileReceipt(ids[k - 1], sources[k - 1].path, name, hash(content), |content|)],
             before.dir[name := content])
  }

  /** Each receipt verifies and is exactly its source's bytes, and no two share a file. */
  lemma {:induction false} ArchiveAllIsSound(hash: Hash, sources: seq<Source>, ids: seq<ReceiptId>, k: nat)
    requires k <= |sources| == |ids| && forall i | 0 <= i < |sources| :: Readable(sources[i])
    ensures var a := ArchiveAll(hash, sources, ids, k);
            && (forall i | 0 <= i < k ::
                Verifies(hash, a.dir, a.receipts[i]) && a.dir[a.receipts[i].name] == sources[i].content.value)
            && (forall i, j | 0 <= i < j < k :: a.receipts[i].name != a.receipts[j].name)
    decreases k
  {
    hide FirstFree;
    if k > 0 {
      ArchiveAllIsSound(hash, sources, ids, k - 1);
      var before, after := ArchiveAll(hash, sources, ids, k - 1), ArchiveAll(hash, sources, ids, k);
      assert forall i | 0 <= i < k - 1 :: after.receipts[i] == before.receipts[i];
    }
  }

  method ArchiveSources(hash: Hash, sources: seq<Source>, ids: seq<ReceiptId>) returns (a: Archived)
    requires |sources| == |ids| && forall i | 0 <= i < |sources| :: Readable(sources[i])
    ensures a == ArchiveAll(hash, sources, ids, |sources|)
  {
    hide FirstFree;
    a := Archived([], map[]);
    var i := 0;
    while i < |sources|
      invariant i <= |sources| && a == ArchiveAll(hash, sources, ids, i)
    {
      var content := sources[i].content.value;
      var name := AvailableName(a.dir, hash(content));
      a := Archived(a.receipts + [FileReceipt(ids[i], sources[i].path, name, hash(content), |content|)],
        a.dir[name := content]);
      i := i + 1;
    }
  }

  // --- practice receipts: an identical file is reused ---

  datatype Placed = Placed(name: Name, isNew: bool)

  /** `_archive_file_reusing_identical`. */
  function Place(hash: Hash, dir: Directory, content: bytes): (p: Placed)
    ensures p.isNew ==> p.name !in dir
    ensures !p.isNew ==> p.name in dir && hash(dir[p.name]) == hash(content) && |dir[p.name]| == |content|
  {
    var name := Plain(hash(content));
    if name in dir && hash(dir[name]) == hash(content) && |dir[name]| == |content| then Placed(name, false)
    else Placed(FirstFree(dir, hash(content), 1), true)
  }

  function WithFile(dir: Directory, p: Placed, content: bytes): Directory {
    if p.isNew then dir[p.name := content] else dir
  }

  /** A placed file verifies, and every receipt that verified before still does. */
  lemma {:induction false} PlacingKeepsReceipts(hash: Hash, dir: Directory, content: bytes, r: FileReceipt)
    ensures var p := Place(hash, dir, content);
            && Verifies(hash, WithFile(dir, p, content),
                FileReceipt(r.receiptId, r.sourcePath, p.name, hash(content), |content|))
            && (Verifies(hash, dir, r) ==> Verifies(hash, WithFile(dir, p, content), r))
  {
    hide FirstFree;
  }
}
