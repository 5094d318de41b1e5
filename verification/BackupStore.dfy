/** The backup store (src/backup/store.ts) over a map of files. A target's key is the name of its directory. */
module BackupStores {
  import opened Sorting
  import opened Options
  import opened Folding
  import opened Eviction
  import opened BackupPolicy
  import opened LineDiff

  datatype Sidecar = Sidecar(
    hash: Option<Digest>,
    kind: KindName,
    requiresBaseHash: Option<Option<Digest>>,
    reanchored: bool,
    blobPath: Option<FileName>)

  datatype File = BlobFile(blob: Blob) | MetaFile(meta: Sidecar) | CorruptFile

  type Files = map<FileName, File>

  function BlobOf(m: FileName): FileName { FileName(m.key, m.stamp, Gz) }

  // ---- Invariant of the files ----

  /** Every blob fits the write it was taken for, and the sidecar beside it describes it. */
  ghost predicate Honest(sha: Sha, files: Files, writes: map<FileName, Write>) {
    && (forall p | p in files && p.ext == Gz :: p in writes && files[p].BlobFile? && Fits(sha, files[p].blob, writes[p]))
    && (forall p | p in files && p.ext == Meta :: files[p].MetaFile? && Describes(sha, files, writes, p, files[p].meta))
  }

  ghost predicate Describes(sha: Sha, files: Files, writes: map<FileName, Write>, p: FileName, m: Sidecar) {
    if m.kind == MetadataOnlyKind then m.blobPath == None && BlobOf(p) !in files else
      && m.blobPath == Some(BlobOf(p))
      && (BlobOf(p) in files ==>
        && files[BlobOf(p)].BlobFile? && BlobOf(p) in writes
        && DescribesBlob(sha, files[BlobOf(p)].blob, writes[BlobOf(p)], m))
  }

  ghost predicate DescribesBlob(sha: Sha, blob: Blob, w: Write, m: Sidecar) {
    && m.hash == Some(ContentHash(sha, w.text))
    && m.requiresBaseHash.Some? && Requires(blob, m.requiresBaseHash.value)
    && (m.kind == GzipFullKind && !m.reanchored ==> blob == Raw(w.text))
  }

  /** Deleting files keeps the rest honest. */
  lemma DeletingKeepsHonest(sha: Sha, before: Files, after: Files, writes: map<FileName, Write>)
    requires Honest(sha, before, writes)
    requires forall p | p in after :: p in before && after[p] == before[p]
    ensures Honest(sha, after, writes)
  {
    hide Fits, Requires, DescribesBlob;
  }

  // ---- Listing ----

  /** What `Date` makes of a file's stamp, whose colons and dots were replaced by dashes. */
  type Clock = FileName -> Option<int>

  /** One entry per file, in some order, with whatever sizes the files have. */
  ghost predicate IsListing(entries: seq<BackupEntry>, files: Files, timeOf: Clock) {
    && DistinctPaths(entries)
    && (forall e: BackupEntry | e in entries :: e.path in files && e.fileKey == e.path.key && e.timestamp == timeOf(e.path))
    && (forall p | p in files :: Lists(entries, p))
  }

  ghost predicate Lists(entries: seq<BackupEntry>, p: FileName) { exists e: BackupEntry :: e in entries && e.path == p }

  /** The files left when only the listed ones stay. */
  ghost predicate OnlyListed(after: Files, before: Files, kept: seq<BackupEntry>) {
    forall p: FileName :: (p in after <==> p in before && Lists(kept, p)) && (p in after ==> after[p] == before[p])
  }

  method ListEntries(files: Files, sizeOf: File -> nat, timeOf: Clock) returns (entries: seq<BackupEntry>)
    ensures IsListing(entries, files, timeOf)
  {
    entries := [];
    var todo := files.Keys;
    while todo != {}
      invariant todo <= files.Keys && DistinctPaths(entries)
      invariant forall e: BackupEntry | e in entries ::
        e.path in files && e.path !in todo && e.fileKey == e.path.key && e.timestamp == timeOf(e.path)
      invariant forall p | p in files && p !in todo :: Lists(entries, p)
      decreases |todo|
    {
      var p :| p in todo;
      var e := BackupEntry(p, p.key, timeOf(p), sizeOf(files[p]));
      ghost var prev := entries;
      entries := entries + [e];
      todo := todo - {p};
      forall q | q in files && q !in todo ensures Lists(entries, q) {
        if q == p { assert e in entries && e.path == q; }
        else { var x: BackupEntry :| x in prev && x.path == q; assert x in entries; }
      }
    }
  }

  /** Of a partition with distinct paths, a path is in one half or the other. */
  lemma PartitionLists(gone: seq<BackupEntry>, kept: seq<BackupEntry>, all: seq<BackupEntry>, p: FileName)
    requires DistinctPaths(all) && multiset(gone) + multiset(kept) == multiset(all)
    ensures Lists(all, p) <==> Lists(gone, p) || Lists(kept, p)
    ensures !(Lists(gone, p) && Lists(kept, p))
  {
    SameElements(gone + kept, all);
    if Lists(gone, p) || Lists(kept, p) {
      var e: BackupEntry :| (e in gone || e in kept) && e.path == p;
      assert e in gone + kept;
    }
    if Lists(all, p) {
      var e: BackupEntry :| e in all && e.path == p;
      assert e in gone + kept;
    }
    PartPaths(gone, kept, all);
    if Lists(gone, p) { ListedOnce(gone, kept, p); }
  }

  lemma ListedOnce(gone: seq<BackupEntry>, kept: seq<BackupEntry>, p: FileName)
    requires DistinctPaths(gone + kept) && Lists(gone, p)
    ensures !Lists(kept, p)
  {
    var e: BackupEntry :| e in gone && e.path == p;
    var i :| 0 <= i < |gone| && gone[i] == e;
    forall f: BackupEntry | f in kept ensures f.path != p {
      var j :| 0 <= j < |kept| && kept[j] == f;
      assert (gone + kept)[i] == e && (gone + kept)[|gone| + j] == f;
    }
  }

  // ---- Looking a version up ----

  /** The sidecar `p` offers `blob` to writes of content with this hash. */
  ghost predicate Offers(files: Files, p: FileName, hash: Digest, blob: FileName) {
    && p in files && p.ext == Meta && files[p].MetaFile?
    && files[p].meta.hash == Some(hash)
    && !files[p].meta.reanchored
    && blob == (if files[p].meta.blobPath.Some? then files[p].meta.blobPath.value else BlobOf(p))
    && blob in files
  }

  ghost predicate IsHashMap(m: map<Digest, FileName>, files: Files) {
    && (forall h | h in m :: exists p :: Offers(files, p, h, m[h]))
    && (forall p, h, b | Offers(files, p, h, b) :: h in m)
  }

  function HashIn(files: Files, p: FileName): Option<Digest>
    requires p in files
  {
    if files[p].MetaFile? then files[p].meta.hash else None
  }

  /** The newest sidecar of the key that has a hash has this one. */
  ghost predicate IsLatestHash(files: Files, key: string, r: Option<Digest>) {
    if r.None? then forall p | p in files && p.ext == Meta && p.key == key :: HashIn(files, p) == None
    else exists p ::
      && p in files && p.ext == Meta && p.key == key && HashIn(files, p) == r
      && forall q | q in files && q.ext == Meta && q.key == key && q.stamp > p.stamp :: HashIn(files, q) == None
  }

  ghost predicate Records(files: Files, p: FileName, h: Digest) {
    p in files && p.ext == Meta && files[p].MetaFile? && files[p].meta.hash == Some(h)
  }

  /** `h` is the content hash on record for the last write of the key: of its sidecars with a hash, the newest. */
  ghost predicate LastRecorded(files: Files, key: string, h: Digest) {
    exists p: FileName ::
      && p.key == key && Records(files, p, h)
      && forall q: FileName, g | q.key == key && Records(files, q, g) :: q.stamp <= p.stamp
  }

  lemma LatestIsLast(files: Files, key: string, r: Option<Digest>)
    requires IsLatestHash(files, key, r)
    ensures forall h :: LastRecorded(files, key, h) <==> r == Some(h)
  {
    forall h ensures LastRecorded(files, key, h) <==> r == Some(h) {
      if LastRecorded(files, key, h) {
        var p: FileName :|
          p.key == key && Records(files, p, h) && forall q: FileName, g | q.key == key && Records(files, q, g) :: q.stamp <= p.stamp;
        if r.Some? {
          var m :| m in files && m.ext == Meta && m.key == key && HashIn(files, m) == r
                   && forall q | q in files && q.ext == Meta && q.key == key && q.stamp > m.stamp :: HashIn(files, q) == None;
          assert Records(files, m, r.value);
          assert m == p;
        }
      }
      if r == Some(h) {
        var m :| m in files && m.ext == Meta && m.key == key && HashIn(files, m) == r
                 && forall q | q in files && q.ext == Meta && q.key == key && q.stamp > m.stamp :: HashIn(files, q) == None;
        assert Records(files, m, h);
      }
    }
  }

  predicate NewerFirst(a: FileName, b: FileName) { a.stamp >= b.stamp }

  ghost predicate AreMetas(metas: seq<FileName>, files: Files, key: string) {
    forall p :: p in metas <==> p in files && p.ext == Meta && p.key == key
  }

  lemma FirstHashIsLatest(files: Files, key: string, metas: seq<FileName>, i: nat)
    requires AreMetas(metas, files, key) && SortedBy(NewerFirst, metas) && i < |metas|
    requires metas[i] in metas && forall j | 0 <= j < i :: metas[j] in files && HashIn(files, metas[j]) == None
    requires HashIn(files, metas[i]).Some?
    ensures IsLatestHash(files, key, HashIn(files, metas[i]))
  {
    hide HashIn;
    var f := metas[i];
    forall q | q in files && q.ext == Meta && q.key == key && q.stamp > f.stamp ensures HashIn(files, q) == None {
      var j :| 0 <= j < |metas| && metas[j] == q;
      assert j > i ==> NewerFirst(metas[i], metas[j]);
    }
  }

  lemma NoHash(files: Files, key: string, metas: seq<FileName>)
    requires AreMetas(metas, files, key) && forall j | 0 <= j < |metas| :: metas[j] in files && HashIn(files, metas[j]) == None
    ensures IsLatestHash(files, key, None)
  {
    hide HashIn;
    forall q | q in files && q.ext == Meta && q.key == key ensures HashIn(files, q) == None {
      var j :| 0 <= j < |metas| && metas[j] == q;
    }
  }

  function RestoreOf(sha: Sha, files: Files, path: FileName, current: Option<string>): Restored {
    if path !in files then Threw(BackupNotFound)
    else if path.ext == Meta then NothingStored
    else match files[path]
      case BlobFile(blob) => Restores(sha, blob, current)
      case _ => Threw(NotABlob)
  }

  /** The path and the view a listed version is classified by; a lone sidecar lists as metadata-only. */
  function ListedPath(files: Files, key: string, stamp: int): FileName {
    FileName(key, stamp, if FileName(key, stamp, Gz) in files then Gz else Meta)
  }

  function ListedView(files: Files, key: string, stamp: int): RevertibilityView {
    var meta := FileName(key, stamp, Meta);
    if FileName(key, stamp, Gz) !in files then View(MetadataOnlyKind, None, None)
    else if meta in files && files[meta].MetaFile? then
      View(files[meta].meta.kind, files[meta].meta.requiresBaseHash, files[meta].meta.hash)
    else View(GzipFullKind, None, None)
  }

  /** What listing says of a version is what restoring it does, for every version that has its sidecar. */
  lemma ListedVerdictIsExact(sha: Sha, files: Files, writes: map<FileName, Write>, key: string, stamp: int, current: Option<string>)
    requires Honest(sha, files, writes) && FileName(key, stamp, Meta) in files
    requires FileName(key, stamp, Gz) in files ==> DoNotCollide(sha, current, writes[FileName(key, stamp, Gz)].text)
    ensures ListedPath(files, key, stamp) in files && (ListedPath(files, key, stamp).ext == Gz <==> FileName(key, stamp, Gz) in files)
    ensures FileName(key, stamp, Gz) in files ==> ListedView(files, key, stamp).kind == files[FileName(key, stamp, Meta)].meta.kind
    ensures FileName(key, stamp, Gz) !in files ==> ListedView(files, key, stamp).kind == MetadataOnlyKind
    ensures ClassifyRevertibility(ListedView(files, key, stamp), HashOf(sha, current)) == Revertible
      <==> RestoreOf(sha, files, ListedPath(files, key, stamp), current).Content?
  {
    hide Fits, Restores, ContentHash, Requires;
    var b, m := FileName(key, stamp, Gz), FileName(key, stamp, Meta);
    assert Describes(sha, files, writes, m, files[m].meta);
    if b in files {
      assert DescribesBlob(sha, files[b].blob, writes[b], files[m].meta);
      VerdictIsExact(sha, files[b].blob, writes[b], ListedView(files, key, stamp), current);
    }
  }

  /** A blob whose sidecar is gone is always called revertible; that is wrong exactly when it is a delta and the
      live file is not the one it was taken against. */
  lemma BareBlobVerdict(sha: Sha, files: Files, writes: map<FileName, Write>, key: string, stamp: int, current: Option<string>)
    requires Honest(sha, files, writes) && FileName(key, stamp, Gz) in files && FileName(key, stamp, Meta) !in files
    requires DoNotCollide(sha, current, writes[FileName(key, stamp, Gz)].text)
    ensures ListedPath(files, key, stamp) == FileName(key, stamp, Gz) && ListedView(files, key, stamp).kind == GzipFullKind
    ensures ClassifyRevertibility(ListedView(files, key, stamp), HashOf(sha, current)) == Revertible
    ensures
      var b := FileName(key, stamp, Gz);
      RestoreOf(sha, files, b, current).Content? <==> files[b].blob.Raw? || current == Some(writes[b].text)
  {
    hide ContentHash;
    var b := FileName(key, stamp, Gz);
    assert Fits(sha, files[b].blob, writes[b]);
    if files[b].blob.Delta? && current.Some? && ContentHash(sha, current.value) == files[b].blob.baseHash {
      assert current.value == writes[b].text;
    }
  }

  /** A deduplicated write points at a blob taken when the same content was written before: with the file as just
      written it restores, to what that earlier write replaced or, for a full copy, to the content itself. */
  lemma DedupRestores(sha: Sha, files: Files, writes: map<FileName, Write>, meta: FileName, blob: FileName, text: string)
    requires Honest(sha, files, writes) && Offers(files, meta, ContentHash(sha, text), blob)
    requires blob in writes ==> NoTextCollision(sha, {text, writes[blob].text})
    ensures blob in writes && writes[blob].text == text
    ensures
      var r := RestoreOf(sha, files, blob, Some(text));
      r.Content? && (r == Content(text) || Some(r.text) == writes[blob].before)
  {
    hide ContentHash, SplitLines, Applied, JoinLines;
    assert Describes(sha, files, writes, meta, files[meta].meta);
    assert DescribesBlob(sha, files[blob].blob, writes[blob], files[meta].meta);
  }

  // ---- Which files outlive an eviction ----

  /** In the order the plan works in, fewer than the per-file cap of the file's entries come after this one, and
      it fits into the global cap together with what the per-file cap leaves after it. */
  ghost predicate Outlives(listing: seq<BackupEntry>, perFileCap: nat, globalCap: nat, p: FileName) {
    var s := Sort(OlderFirst, listing);
    exists i | 0 <= i < |s| ::
      && s[i].path == p
      && |Versions(s[i + 1..], s[i].fileKey)| < perFileCap && Total(KeepNewest(s[i..], perFileCap)) <= globalCap
  }

  lemma EvictionSpares(listing: seq<BackupEntry>, before: Files, after: Files, timeOf: Clock, perFileCap: nat, globalCap: nat, p: FileName)
    requires IsListing(listing, before, timeOf) && p in before
    requires OnlyListed(after, before, Eviction.Kept(listing, perFileCap, globalCap))
    ensures p in after <==> Outlives(listing, perFileCap, globalCap, p)
  {
    hide Sort, Versions, KeepNewest, Total, Eviction.Kept;
    var s := Sort(OlderFirst, listing);
    SortedPaths(listing);
    SameElements(s, listing);
    SameLength(s, listing);
    var e: BackupEntry :| e in listing && e.path == p;
    var i :| 0 <= i < |s| && s[i] == e;
    hide *;
    SurvivesIff(listing, perFileCap, globalCap, i);
    KeptAreListed(listing, perFileCap, globalCap);
    ListedAsKept(s, Eviction.Kept(listing, perFileCap, globalCap), i);
    OutlivesAt(listing, perFileCap, globalCap, i);
    StaysIfListed(after, before, Eviction.Kept(listing, perFileCap, globalCap), p);
  }

  lemma StaysIfListed(after: Files, before: Files, kept: seq<BackupEntry>, p: FileName)
    requires OnlyListed(after, before, kept) && p in before
    ensures p in after <==> Lists(kept, p)
  {}

  lemma ListedAsKept(s: seq<BackupEntry>, kept: seq<BackupEntry>, i: nat)
    requires DistinctPaths(s) && i < |s| && forall e | e in kept :: e in s
    ensures Lists(kept, s[i].path) <==> s[i] in kept
  {
    if Lists(kept, s[i].path) {
      var f: BackupEntry :| f in kept && f.path == s[i].path;
      var j :| 0 <= j < |s| && s[j] == f;
    }
  }

  lemma OutlivesAt(listing: seq<BackupEntry>, perFileCap: nat, globalCap: nat, i: nat)
    requires i < |Sort(OlderFirst, listing)| && DistinctPaths(Sort(OlderFirst, listing))
    ensures
      var s := Sort(OlderFirst, listing);
      Outlives(listing, perFileCap, globalCap, s[i].path) <==>
        |Versions(s[i + 1..], s[i].fileKey)| < perFileCap && Total(KeepNewest(s[i..], perFileCap)) <= globalCap
  {
    hide Sort, Versions, KeepNewest, Total;
  }

  lemma KeptAreListed(listing: seq<BackupEntry>, perFileCap: nat, globalCap: nat)
    requires DistinctPaths(listing)
    ensures forall e | e in Eviction.Kept(listing, perFileCap, globalCap) :: e in Sort(OlderFirst, listing)
  {
    hide Sort, KeepNewest, DropOldest;
    var s := Sort(OlderFirst, listing);
    SortedPaths(listing);
    KeepNewestMembers(s, perFileCap);
    DropOldestFits(KeepNewest(s, perFileCap), globalCap);
    forall e | e in Eviction.Kept(listing, perFileCap, globalCap) ensures e in s {
      SuffixMember(Eviction.Kept(listing, perFileCap, globalCap), KeepNewest(s, perFileCap), e);
    }
  }

  /** A raw blob and the sidecar beside it. */
  function OneVersion(sha: Sha, blob: FileName, text: string): Files {
    map[blob := BlobFile(Raw(text)),
        FileName(blob.key, blob.stamp, Meta) :=
          MetaFile(Sidecar(Some(ContentHash(sha, text)), GzipFullKind, Some(None), false, Some(blob)))]
  }

  lemma OneVersionIsHonest(sha: Sha, blob: FileName, text: string)
    requires blob.ext == Gz
    ensures Honest(sha, OneVersion(sha, blob, text), map[blob := Write(text, None)])
    ensures Offers(OneVersion(sha, blob, text), FileName(blob.key, blob.stamp, Meta), ContentHash(sha, text), blob)
  {
    hide ContentHash;
  }

  lemma UntimedPair(sha: Sha, blob: FileName, text: string, first: BackupEntry, second: BackupEntry)
    requires blob.ext == Gz
    requires first == BackupEntry(blob, blob.key, None, 1)
    requires second == BackupEntry(FileName(blob.key, blob.stamp, Meta), blob.key, None, 1)
    ensures IsListing([first, second], OneVersion(sha, blob, text), _ => None)
    ensures Eviction.Kept([first, second], 1, 100) == [second]
  {
    hide ContentHash, KeepNewest, DropOldest, Sort;
    assert first in [first, second] && second in [first, second];
    UntimedKeepOrder([first, second]);
    PairKept(first, second, 100);
  }

  /** A blob listed before its sidecar, a cap of one entry per file: a write of the same content is pointed at the
      blob, and the eviction of that very call deletes it. */
  lemma DedupTargetCanGo(sha: Sha)
    ensures
      var blob, meta := FileName("k", 1, Gz), FileName("k", 1, Meta);
      var files, listing := OneVersion(sha, blob, "a"), [BackupEntry(blob, "k", None, 1), BackupEntry(meta, "k", None, 1)];
      && Honest(sha, files, map[blob := Write("a", None)]) && Offers(files, meta, ContentHash(sha, "a"), blob)
      && IsListing(listing, files, _ => None)
      && !Lists(Eviction.Kept(listing, 1, 100), blob)
  {
    hide Honest, Offers, IsListing, Eviction.Kept, OneVersion, ContentHash;
    var blob := FileName("k", 1, Gz);
    OneVersionIsHonest(sha, blob, "a");
    UntimedPair(sha, blob, "a", BackupEntry(blob, "k", None, 1), BackupEntry(FileName("k", 1, Meta), "k", None, 1));
  }

  /** A delta without its sidecar, the file edited since: called revertible, and restoring it fails. */
  lemma BareDeltaExample(sha: Sha)
    requires NoTextCollision(sha, {"b", "c"})
    ensures
      var blob := FileName("k", 1, Gz);
      var files: Files := map[blob := BlobFile(Delta(ContentHash(sha, "b"), [Delete(1), Insert(["a"])]))];
      && Honest(sha, files, map[blob := Write("b", Some("a"))])
      && ClassifyRevertibility(ListedView(files, "k", 1), HashOf(sha, Some("c"))) == Revertible
      && RestoreOf(sha, files, blob, Some("c")) == Threw(StaleBase)
  {
    hide ContentHash, Applied;
    DeltaOfOneLine();
    assert "b" in {"b", "c"} && "c" in {"b", "c"};
  }

  lemma LineOf(c: char)
    requires c != '\n'
    ensures SplitLines([c]) == [[c]]
  {
    var rest := SplitLines([c][1..]);
    assert [c][1..] == "" && rest == [""] && rest[1..] == [];
    assert [c] + rest[0] == [c];
  }

  lemma RunOneLine(script: seq<RawEdit>, src: seq<Line>, line: Line)
    requires script == [DeleteLine, InsertLine(line)]
    ensures RunEdits(script, src) == At(1, [line])
  {
    assert script[..1] == [DeleteLine] && script[..1][..0] == [];
    assert RunEdits(script[..1], src) == At(1, []);
  }

  lemma DeltaOfOneLine()
    ensures Applied([Delete(1), Insert(["a"])], SplitLines("b")) == Some(["a"]) && JoinLines(["a"]) == "a"
  {
    var hunks, script := [Delete(1), Insert(["a"])], [DeleteLine, InsertLine("a")];
    LineOf('b');
    assert hunks[..1] == [Delete(1)] && hunks[..1][..0] == [];
    assert Repeat(DeleteLine, 1) == [DeleteLine] && Inserts(["a"]) == [InsertLine("a")];
    assert Expand(hunks[..1]) == [DeleteLine];
    assert Expand(hunks) == script;
    RunOneLine(script, ["b"], "a");
  }

  // ---- The store ----

  datatype BackupResult = BackupResult(backupPath: Option<FileName>, existingPath: Option<FileName>, revertible: bool)

  /** The kind is one chosen for this write. */
  ghost predicate IsSoundKind(sha: Sha, kind: BackupKind, newHash: Digest, w: Write) {
    (kind.GzipDiff? || kind.GzipFull?) ==>
      && newHash == ContentHash(sha, w.text)
      && Fits(sha, kind.blob, w)
      && Requires(kind.blob, BaseRequirement(kind))
      && (kind.GzipFull? && !kind.reanchored ==> kind.blob == Raw(w.text))
  }

  /** The files after one more version. */
  function WithVersion(files: Files, key: string, stamp: int, kind: BackupKind, newHash: Digest): Files {
    var blob, meta := FileName(key, stamp, Gz), FileName(key, stamp, Meta);
    match kind
    case Dedup(_) => files
    case MetadataOnly => files[meta := MetaFile(Sidecar(Some(newHash), MetadataOnlyKind, None, false, None))]
    case GzipDiff(b, base) =>
      files[blob := BlobFile(b)][meta := MetaFile(Sidecar(Some(newHash), GzipDiffKind, Some(base), false, Some(blob)))]
    case GzipFull(b, reanchored) =>
      files[blob := BlobFile(b)][meta := MetaFile(Sidecar(Some(newHash), GzipFullKind, Some(None), reanchored, Some(blob)))]
  }

  lemma VersionKeepsHonest(sha: Sha, files: Files, writes: map<FileName, Write>, key: string, stamp: int, kind: BackupKind, newHash: Digest, w: Write)
    requires Honest(sha, files, writes) && IsSoundKind(sha, kind, newHash, w)
    requires FileName(key, stamp, Gz) !in files && FileName(key, stamp, Meta) !in files
    ensures Honest(sha, WithVersion(files, key, stamp, kind, newHash), writes[FileName(key, stamp, Gz) := w])
  {
    hide Fits, Requires, ContentHash, DescribesBlob, IsSoundKind;
    var blob := FileName(key, stamp, Gz);
    var after, all := WithVersion(files, key, stamp, kind, newHash), writes[blob := w];
    SoundKindDescribed(sha, kind, newHash, w, blob);
    forall p | p in after && p.ext == Meta ensures after[p].MetaFile? && Describes(sha, after, all, p, after[p].meta) {
      if p != FileName(key, stamp, Meta) {
        assert p in files && Describes(sha, files, writes, p, files[p].meta);
        assert BlobOf(p) != blob;
      }
    }
  }

  lemma SoundKindDescribed(sha: Sha, kind: BackupKind, newHash: Digest, w: Write, path: FileName)
    requires IsSoundKind(sha, kind, newHash, w)
    ensures kind.GzipDiff? || kind.GzipFull? ==> Fits(sha, kind.blob, w)
    ensures kind.GzipDiff? ==>
      DescribesBlob(sha, kind.blob, w, Sidecar(Some(newHash), GzipDiffKind, Some(kind.requiresBaseHash), false, Some(path)))
    ensures kind.GzipFull? ==>
      DescribesBlob(sha, kind.blob, w, Sidecar(Some(newHash), GzipFullKind, Some(None), kind.reanchored, Some(path)))
  {
    hide Fits, Requires, ContentHash;
  }

  class BackupStore {
    const sha: Sha
    const sizeOf: File -> nat
    const timeOf: Clock
    const perFileVersionCap: nat
    const globalSizeCapBytes: nat
    var files: Files
    /** What each blob was taken for. */
    ghost var writes: map<FileName, Write>

    constructor (sha: Sha, sizeOf: File -> nat, timeOf: Clock, perFileVersionCap: nat, globalSizeCapBytes: nat)
      ensures this.sha == sha && files == map[] && Valid()
    {
      this.sha, this.sizeOf, this.timeOf := sha, sizeOf, timeOf;
      this.perFileVersionCap, this.globalSizeCapBytes := perFileVersionCap, globalSizeCapBytes;
      files, writes := map[], map[];
    }

    ghost predicate Valid()
      reads this
    {
      Honest(sha, files, writes)
    }

    method BuildExistingHashMap() returns (m: map<Digest, FileName>)
      ensures IsHashMap(m, files)
    {
      m := map[];
      var todo := files.Keys;
      while todo != {}
        invariant todo <= files.Keys
        invariant forall h | h in m :: exists p :: Offers(files, p, h, m[h])
        invariant forall p, h, b | Offers(files, p, h, b) && p !in todo :: h in m
        decreases |todo|
      {
        var p :| p in todo;
        todo := todo - {p};
        if p.ext != Meta || !files[p].MetaFile? { continue; }
        var meta := files[p].meta;
        if meta.hash.None? || meta.reanchored { continue; }
        var blob := if meta.blobPath.Some? then meta.blobPath.value else BlobOf(p);
        if blob in files {
          assert Offers(files, p, meta.hash.value, blob);
          m := m[meta.hash.value := blob];
        }
      }
    }

    /** The hash the last recorded write of this target left on disk. */
    method LatestBaseHash(key: string) returns (r: Option<Digest>)
      ensures IsLatestHash(files, key, r)
    {
      hide Sort, SortedBy, HashIn, IsLatestHash;
      var listed := ListMetas(files, key);
      var metas := Sort(NewerFirst, listed);
      SameElements(metas, listed);
      SortSorted(NewerFirst, listed);
      for i := 0 to |metas|
        invariant forall j | 0 <= j < i :: HashIn(files, metas[j]) == None
      {
        assert metas[i] in metas;
        var f := metas[i];
        if HashIn(files, f).Some? {
          FirstHashIsLatest(files, key, metas, i);
          return HashIn(files, f);
        }
      }
      NoHash(files, key, metas);
      return None;
    }

    /** Deletes what the plan over some listing does not keep. */
    method RunEviction() returns (ghost listing: seq<BackupEntry>)
      modifies this`files
      ensures IsListing(listing, old(files), timeOf)
      ensures OnlyListed(files, old(files), Eviction.Kept(listing, perFileVersionCap, globalSizeCapBytes))
      ensures old(Valid()) ==> Valid()
    {
      hide Eviction.Kept, IsEvicted, Honest;
      var entries := ListEntries(files, sizeOf, timeOf);
      var plan := PlanEviction(entries, perFileVersionCap, globalSizeCapBytes);
      ghost var before := files;
      for i := 0 to |plan.toDelete|
        invariant forall p :: (p in files <==> p in before && !Lists(plan.toDelete[..i], p)) && (p in files ==> files[p] == before[p])
      {
        var e := plan.toDelete[i];
        ListsPush(plan.toDelete, i);
        files := files - {e.path};
      }
      assert plan.toDelete[..|plan.toDelete|] == plan.toDelete;
      forall p { PartitionLists(plan.toDelete, plan.toKeep, entries, p); }
      if old(Valid()) { DeletingKeepsHonest(sha, before, files, writes); }
      listing := entries;
    }

    /** Planned retention never leaves the store over its cap, so the fail-safe never fires. */
    method CheckDiskPressure() returns (pressure: bool)
      ensures !pressure
    {
      var entries := ListEntries(files, sizeOf, timeOf);
      var plan := PlanEviction(entries, perFileVersionCap, globalSizeCapBytes);
      KeptTotal(entries, perFileVersionCap, globalSizeCapBytes);
      pressure := IsOverCap(plan.toKeep, globalSizeCapBytes);
    }

    /** Evicts, then adds the version. `w` is the write it is taken for. */
    method StoreBackup(key: string, kind: BackupKind, newHash: Digest, stamp: int, ghost w: Write)
      returns (result: BackupResult, ghost listing: seq<BackupEntry>, ghost evicted: Files)
      requires FileName(key, stamp, Gz) !in files && FileName(key, stamp, Meta) !in files
      modifies this
      ensures IsListing(listing, old(files), timeOf)
      ensures OnlyListed(evicted, old(files), Eviction.Kept(listing, perFileVersionCap, globalSizeCapBytes))
      ensures files == WithVersion(evicted, key, stamp, kind, newHash)
      ensures writes == old(writes)[FileName(key, stamp, Gz) := w]
      ensures match kind
        case Dedup(path) =>
          && result == BackupResult(None, Some(path), true)
          && (path in old(files) ==> (path in files <==> Outlives(listing, perFileVersionCap, globalSizeCapBytes, path)))
        case MetadataOnly => result == BackupResult(Some(FileName(key, stamp, Meta)), None, false)
        case _ => result == BackupResult(Some(FileName(key, stamp, Gz)), None, true)
      ensures old(Valid()) && IsSoundKind(sha, kind, newHash, w) ==> Valid()
    {
      hide Honest, IsSoundKind, Eviction.Kept, IsListing, Outlives, Lists;
      listing := RunEviction();
      evicted := files;
      ghost var known := writes;
      writes := writes[FileName(key, stamp, Gz) := w];
      if old(Valid()) && IsSoundKind(sha, kind, newHash, w) {
        VersionKeepsHonest(sha, evicted, known, key, stamp, kind, newHash, w);
      }
      if kind.Dedup? && kind.existingPath in old(files) {
        EvictionSpares(listing, old(files), evicted, timeOf, perFileVersionCap, globalSizeCapBytes, kind.existingPath);
      }
      if kind.Dedup? { return BackupResult(None, Some(kind.existingPath), true), listing, evicted; }
      var metaPath := FileName(key, stamp, Meta);
      if kind.MetadataOnly? {
        files := files[metaPath := MetaFile(Sidecar(Some(newHash), MetadataOnlyKind, None, false, None))];
        return BackupResult(Some(metaPath), None, false), listing, evicted;
      }
      var blobPath := FileName(key, stamp, Gz);
      files := files[blobPath := BlobFile(kind.blob)];
      var requiresBaseHash := if kind.GzipDiff? then kind.requiresBaseHash else None;
      var reanchored := if kind.GzipFull? then kind.reanchored else false;
      var name := if kind.GzipDiff? then GzipDiffKind else GzipFullKind;
      files := files[metaPath := MetaFile(Sidecar(Some(newHash), name, Some(requiresBaseHash), reanchored, Some(blobPath)))];
      return BackupResult(Some(blobPath), None, true), listing, evicted;
    }

    method Restore(path: FileName, current: Option<string>) returns (r: Restored)
      ensures r == RestoreOf(sha, files, path, current)
      ensures path !in files ==> r == Threw(BackupNotFound)
      ensures path in files && path.ext == Meta ==> r == NothingStored
    {
      if path !in files { return Threw(BackupNotFound); }
      if path.ext == Meta { return NothingStored; }
      match files[path]
      case BlobFile(blob) => r := ApplyReverseDiff(sha, blob, current);
      case MetaFile(_) => return Threw(NotABlob);
      case CorruptFile => return Threw(NotABlob);
    }
  }

  lemma ListsPush(s: seq<BackupEntry>, i: nat)
    requires i < |s|
    ensures forall p :: Lists(s[..i + 1], p) <==> Lists(s[..i], p) || p == s[i].path
  {
    assert s[..i + 1] == s[..i] + [s[i]];
    forall p ensures Lists(s[..i + 1], p) <==> Lists(s[..i], p) || p == s[i].path {
      if Lists(s[..i], p) { var e: BackupEntry :| e in s[..i] && e.path == p; assert e in s[..i + 1]; }
      if p == s[i].path { assert s[i] in s[..i + 1]; }
    }
  }

  /** The sidecars of one directory, in some order. */
  method ListMetas(files: Files, key: string) returns (metas: seq<FileName>)
    ensures AreMetas(metas, files, key)
  {
    metas := [];
    var todo := set p | p in files && p.ext == Meta && p.key == key;
    ghost var all := todo;
    while todo != {}
      invariant todo <= all && forall p :: p in metas <==> p in all && p !in todo
      decreases |todo|
    {
      var p :| p in todo;
      metas := metas + [p];
      todo := todo - {p};
    }
  }
}
