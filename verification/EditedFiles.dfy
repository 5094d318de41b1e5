/** From a file to the drift report (src/integrity/tree.ts, src/integrity/diff.ts): an edited file is reported, and a file
    read the same is not. */
module EditedFiles {
  import opened Utf8
  import opened ForestPaths
  import opened Folding
  import opened Options
  import opened MerkleTrees
  import opened TreeDiff
  import opened NodeStores
  import opened Synthesis
  import opened Numerals
  import opened Assembly
  import opened Forest
  import opened ForestAssembly
  import opened AssembledForests
  import CleanFolds

  // ---- A source's nodes in the forest ----

  lemma PrefixInTree(sha: Sha, level: Level, globs: seq<string>, src: Source, m: EntryMap, t: Tree)
    requires IsSynthesis(src.prefix, src.enumerated, m) && IsAssembled(sha, JobOf(level, globs, src, m), t)
    ensures src.prefix in t
  {
    hide NodeFor;
  }

  lemma SameSource(sources: seq<Source>, i: nat, k: nat, p: string)
    requires Unrelated(sources) && i < |sources| && k < |sources|
    requires AtOrBelow(sources[i].prefix, p) && AtOrBelow(sources[k].prefix, p)
    ensures i == k
  {
    hide AtOrBelow;
    OneChain(sources[i].prefix, sources[k].prefix, p);
  }

  /** Every path of a tree in the union lies below that tree's prefix. */
  lemma TreeBelow(sha: Sha, level: Level, globs: seq<string>, frozen: FrozenBaseline, sources: seq<Source>, trees: seq<Tree>, i: nat)
    returns (pre: Preimages)
    requires AllGood(sha, frozen, sources) && AreSourceTrees(sha, level, globs, frozen, sources, trees) && i < |sources|
    ensures IsPiece(sha, sources[i].prefix, trees[i], pre)
  {
    hide IsSourceTree, GoodSource, IsPiece, Unrelated;
    pre := SourcePiece(sha, level, globs, frozen, sources[i], trees[i]);
  }

  lemma UnionOwner(sha: Sha, level: Level, globs: seq<string>, frozen: FrozenBaseline, sources: seq<Source>, trees: seq<Tree>, i: nat, p: string)
    requires AllGood(sha, frozen, sources) && AreSourceTrees(sha, level, globs, frozen, sources, trees) && i < |sources|
    requires AtOrBelow(sources[i].prefix, p) && p in Union(trees)
    ensures p in trees[i] && Union(trees)[p] == trees[i][p]
  {
    hide IsSourceTree, GoodSource, Union, AtOrBelow, Unrelated, Grounded, Connected, Plain;
    UnionHas(trees, p);
    var k :| 0 <= k < |trees| && p in trees[k] && trees[k][p] == Union(trees)[p];
    var pre := TreeBelow(sha, level, globs, frozen, sources, trees, k);
    SameSource(sources, i, k, p);
  }

  /** No path at or below a reachable source's prefix is in the layer above. */
  lemma NotInLayer(sha: Sha, level: Level, globs: seq<string>, frozen: FrozenBaseline, sources: seq<Source>, trees: seq<Tree>, i: nat, p: string)
    requires AllGood(sha, frozen, sources) && AreSourceTrees(sha, level, globs, frozen, sources, trees) && i < |sources|
    requires sources[i].prefix in trees[i] && AtOrBelow(sources[i].prefix, p)
    ensures !MissingAbove(Union(trees), p)
  {
    hide IsSourceTree, GoodSource, Union, AtOrBelow, Unrelated, Grounded, Plain, Connected;
    if MissingAbove(Union(trees), p) {
      var q :| q in Union(trees) && AtOrBelow(p, q);
      AtOrBelowTransitive(sources[i].prefix, p, q);
      UnionOwner(sha, level, globs, frozen, sources, trees, i, q);
      var pre := TreeBelow(sha, level, globs, frozen, sources, trees, i);
      NoGap(trees[i], sources[i].prefix, p, q);
      InUnion(trees, i, p);
    }
  }

  lemma {:induction false} InUnion(trees: seq<Tree>, i: nat, p: string)
    requires i < |trees| && p in trees[i]
    ensures p in Union(trees)
    decreases |trees|
  {
    if i < |trees| - 1 { InUnion(trees[..|trees| - 1], i, p); }
  }

  /** What the forest has below a reachable source is what that source's assembly gives. */
  lemma OwnNode(sha: Sha, level: Level, globs: seq<string>, frozen: FrozenBaseline, sources: seq<Source>, src: Source, w: Tree, p: string)
    returns (m: EntryMap, t: Tree)
    requires AllGood(sha, frozen, sources) && IsForest(sha, level, globs, frozen, sources, w)
    requires src in sources && src.available && AtOrBelow(src.prefix, p) && p in w
    ensures IsSynthesis(src.prefix, src.enumerated, m) && IsAssembled(sha, JobOf(level, globs, src, m), t) && p in t && w[p] == t[p]
  {
    hide AllGood, Union, IsSynthesis, IsAssembled, JobOf, AtOrBelow, GroupNode, MissingAbove;
    var trees, layer :| IsLayered(sha, level, globs, frozen, sources, trees, layer) && w == Union(trees) + layer;
    var i :| 0 <= i < |sources| && sources[i] == src;
    m :| IsSynthesis(src.prefix, src.enumerated, m) && IsAssembled(sha, JobOf(level, globs, src, m), trees[i]);
    t := trees[i];
    PrefixInTree(sha, level, globs, src, m, t);
    NotInLayer(sha, level, globs, frozen, sources, trees, i, p);
    UnionOwner(sha, level, globs, frozen, sources, trees, i, p);
  }

  // ---- Main results ----

  /** The source can be reached, and the last thing it enumerates at `p` is `f`, a readable file. */
  ghost predicate EnumeratesFile(src: Source, f: EnumeratedEntry, p: string) {
    && src.available && AtOrBelow(src.prefix, p) && f.kind == File && !f.unreadable
    && exists i: nat :: IsLast(src.prefix, src.enumerated, i) && src.enumerated[i] == f && ForestPathOf(src.prefix, f) == p
  }

  function Seconds(f: EnumeratedEntry): int { if f.mtime.Some? then f.mtime.value else 0 }

  /** The bytes a file is hashed from: its modification time at L1, its content hash at L2 and L3. */
  ghost predicate IsInput(level: Level, src: Source, f: EnumeratedEntry, p: string, bytes: seq<byte>) {
    if level == L1 then exists text :: IsDecimal(text, Seconds(f)) && bytes == [0] + Encode(text)
    else src.content(p).Some? && bytes == [0] + src.content(p).value
  }

  /** What a level reads of a file is the same in both sources. */
  predicate ReadsSame(level: Level, one: Source, f: EnumeratedEntry, other: Source, g: EnumeratedEntry, p: string) {
    if level == L1 then Seconds(f) == Seconds(g) else one.content(p) == other.content(p)
  }

  lemma JobReads(level: Level, globs: seq<string>, src: Source, f: EnumeratedEntry, m: EntryMap, p: string)
    requires IsSynthesis(src.prefix, src.enumerated, m) && p in m && EnumeratesFile(src, f, p)
    ensures
      var j := JobOf(level, globs, src, m);
      && j.level == level && p in j.entries && j.entries[p].kind == File && j.entries[p].state == Present
      && SecondsAt(j, p) == Seconds(f) && j.content(p) == src.content(p)
      && forall bytes :: IsInput(level, src, f, p, bytes) ==> IsLeafInput(j, p, bytes)
  {
    hide AtOrBelow, Synthesis.EntryFor, IsDecimal;
    var i: nat :| IsLast(src.prefix, src.enumerated, i) && src.enumerated[i] == f && ForestPathOf(src.prefix, f) == p;
    LastEntryCounts(src.prefix, src.enumerated, i);
  }

  lemma FileInForest(sha: Sha, level: Level, globs: seq<string>, frozen: FrozenBaseline, sources: seq<Source>, src: Source,
                     f: EnumeratedEntry, w: Tree, p: string)
    returns (j: Job, t: Tree)
    requires AllGood(sha, frozen, sources) && IsForest(sha, level, globs, frozen, sources, w)
    requires src in sources && p in w && EnumeratesFile(src, f, p)
    ensures IsAssembled(sha, j, t) && IsFile(j, t, p) && w[p] == t[p] && j.level == level && w[p].IsLeaf() && w[p].state == Present
    ensures p in j.entries && SecondsAt(j, p) == Seconds(f) && j.content(p) == src.content(p)
    ensures forall bytes :: IsInput(level, src, f, p, bytes) ==> IsLeafInput(j, p, bytes)
  {
    hide *;
    ReadableBelow(src, f, p);
    var m;
    m, t := OwnNode(sha, level, globs, frozen, sources, src, w, p);
    j := JobOf(level, globs, src, m);
    NodeIsEntry(sha, level, globs, src, m, t, p);
    JobReads(level, globs, src, f, m, p);
    IsFileHere(j, t, p);
    FileNode(sha, j, t, p);
  }

  lemma ReadableBelow(src: Source, f: EnumeratedEntry, p: string)
    requires EnumeratesFile(src, f, p)
    ensures src.available && AtOrBelow(src.prefix, p)
  {}

  lemma IsFileHere(j: Job, t: Tree, p: string)
    requires p in t && p in j.entries && j.entries[p].kind == File && j.entries[p].state == Present
    ensures IsFile(j, t, p)
  {}

  lemma NodeIsEntry(sha: Sha, level: Level, globs: seq<string>, src: Source, m: EntryMap, t: Tree, p: string)
    requires IsAssembled(sha, JobOf(level, globs, src, m), t) && p in t
    ensures p in m
  {
    hide NodeFor;
    IncludedAreEntries(JobOf(level, globs, src, m));
  }

  /** A file that both forests have hashes the same exactly when the level reads the same of it. */
  lemma FileHashIff(
    sha: Sha, level: Level, globs: seq<string>, frozenB: FrozenBaseline, before: seq<Source>, b: Tree, one: Source, f: EnumeratedEntry,
    frozenW: FrozenBaseline, after: seq<Source>, w: Tree, other: Source, g: EnumeratedEntry, p: string, x: seq<byte>, y: seq<byte>)
    requires AllGood(sha, frozenB, before) && IsForest(sha, level, globs, frozenB, before, b) && one in before && EnumeratesFile(one, f, p)
    requires AllGood(sha, frozenW, after) && IsForest(sha, level, globs, frozenW, after, w) && other in after && EnumeratesFile(other, g, p)
    requires p in b && p in w && IsInput(level, one, f, p, x) && IsInput(level, other, g, p, y) && NoCollision(sha, {x, y})
    ensures b[p].hash == w[p].hash <==> ReadsSame(level, one, f, other, g, p)
    ensures b[p].IsLeaf() && w[p].IsLeaf() && b[p].state == w[p].state == Present
  {
    hide *;
    var j, t := FileInForest(sha, level, globs, frozenB, before, one, f, b, p);
    var k, u := FileInForest(sha, level, globs, frozenW, after, other, g, w, p);
    SameFileIff(sha, j, t, k, u, p, x, y);
    SameReads(j, k, level, one, f, other, g, p);
  }

  lemma SameReads(j: Job, k: Job, level: Level, one: Source, f: EnumeratedEntry, other: Source, g: EnumeratedEntry, p: string)
    requires p in j.entries && p in k.entries && j.level == k.level == level
    requires SecondsAt(j, p) == Seconds(f) && j.content(p) == one.content(p)
    requires SecondsAt(k, p) == Seconds(g) && k.content(p) == other.content(p)
    ensures SameFile(j, k, p) <==> ReadsSame(level, one, f, other, g, p)
  {
    hide Seconds, SecondsAt;
  }

  /** Main result: a file that both forests have, readable in both, is reported as changed exactly when what the level
      reads of it has changed: the time at L1, the content at L2 and L3. */
  lemma EditedFileIsReported(
    sha: Sha, level: Level, globs: seq<string>, frozenB: FrozenBaseline, before: seq<Source>, b: Tree, preB: Preimages,
    one: Source, f: EnumeratedEntry,
    frozenW: FrozenBaseline, after: seq<Source>, w: Tree, preW: Preimages,
    other: Source, g: EnumeratedEntry, p: string, x: seq<byte>, y: seq<byte>)
    requires AllGood(sha, frozenB, before) && IsForest(sha, level, globs, frozenB, before, b) && one in before && EnumeratesFile(one, f, p)
    requires AllGood(sha, frozenW, after) && IsForest(sha, level, globs, frozenW, after, w) && other in after && EnumeratesFile(other, g, p)
    requires p in b && p in w && IsInput(level, one, f, p, x) && IsInput(level, other, g, p, y)
    requires Merkle(sha, b, preB) && Merkle(sha, w, preW) && NoCollision(sha, preB.Values + preW.Values) && NoCollision(sha, {x, y})
    ensures Rooted(b) && Rooted(w)
    ensures ReadsSame(level, one, f, other, g, p) ==> forall e | e in Drift(b, w, SUPER_ROOT) :: e.path != p
    ensures !ReadsSame(level, one, f, other, g, p) ==>
      DriftEntry(p, Changed, Some(b[p].hash), Some(w[p].hash), Some(Present), Some(Present)) in Drift(b, w, SUPER_ROOT)
  {
    hide *;
    FileHashIff(sha, level, globs, frozenB, before, b, one, f, frozenW, after, w, other, g, p, x, y);
    CleanFolds.MerkleLinked(sha, b, preB);
    CleanFolds.MerkleLinked(sha, w, preW);
    LinkedTrees(b, w);
    LeafPairReported(sha, b, preB, w, preW, p);
  }

  lemma LinkedTrees(b: Tree, w: Tree)
    requires AllLinked(b) && AllLinked(w)
    ensures Rooted(b) && Rooted(w)
  {}

  /** Two present files on one path are reported as changed exactly when their hashes differ. */
  lemma LeafPairReported(sha: Sha, b: Tree, preB: Preimages, w: Tree, preW: Preimages, p: string)
    requires Rooted(b) && Rooted(w) && Merkle(sha, b, preB) && Merkle(sha, w, preW) && NoCollision(sha, preB.Values + preW.Values)
    requires p in b && p in w && b[p].IsLeaf() && w[p].IsLeaf() && b[p].state == w[p].state == Present
    ensures b[p].hash == w[p].hash ==> forall e | e in Drift(b, w, SUPER_ROOT) :: e.path != p
    ensures b[p].hash != w[p].hash ==>
      DriftEntry(p, Changed, Some(b[p].hash), Some(w[p].hash), Some(Present), Some(Present)) in Drift(b, w, SUPER_ROOT)
  {
    hide Merkle, Rooted, NoCollision, Drift, AtOrBelow;
    SuperRootAboveAll(p);
    forall e | e in Drift(b, w, SUPER_ROOT) ensures b[p].hash == w[p].hash ==> e.path != p { DriftSound(b, w, SUPER_ROOT, e); }
    if b[p].hash != w[p].hash { DriftComplete(sha, b, preB, w, preW, SUPER_ROOT, p); }
  }
}
