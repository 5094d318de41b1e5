/** What a directory added with a file in it does to the baseline (src/integrity/integrityEngine.ts,
    foldLeafIntoBaseline): a case in which a fold breaks the Merkle tree, in the forests an assembly gives. */
module AddedDirectories {
  import opened Utf8
  import opened ForestPaths
  import opened Folding
  import opened Options
  import opened MerkleTrees
  import opened TreeDiff
  import opened BaselineFold
  import opened CleanFolds
  import opened BaselineDrift
  import opened NodeStores
  import opened Synthesis
  import opened Assembly
  import opened Forest
  import opened ForestAssembly

  // ---- Any added directory ----

  lemma AbsentHasNoKids(t: Tree, d: string)
    requires AllLinked(t) && d !in t
    ensures KidNames(t, d) == {}
  {
    hide LeafName, Proper;
    forall q | q in t ensures t[q].parentPath != Some(d) { assert Linked(t, q); }
  }

  /** One fold of a missing directory copies its node and gives it no child. */
  lemma CopiedAlone(sha: Sha, b: Tree, w: Tree, d: string)
    requires AllLinked(b) && Rooted(w) && d in w && d !in b
    ensures d in FoldPath(sha, b, w, d) && FoldPath(sha, b, w, d)[d] == w[d] && KidNames(FoldPath(sha, b, w, d), d) == {}
    ensures FoldedView(b, FoldPath(sha, b, w, d), w, {d}) && !Lifted(b.Keys + {d}, {d}, d)
    ensures FoldPath(sha, b, w, d).Keys == b.Keys + {d}
  {
    hide AllLinked, Rooted, FoldPath, FoldAll, KidNames, Lifted, KidRefs;
    var u := FoldPath(sha, b, w, d);
    OneFold(sha, b, w, d);
    FoldAllView(sha, b, w, [d]);
    FoldPathKeys(sha, b, w, d);
    OneUnlifted(u.Keys, d);
    assert FoldedAtPath(b, u, w, u.Keys, {d}, d);
    FoldKeepsKids(b, u, w, {d}, d);
    AbsentHasNoKids(b, d);
  }

  lemma ChildMissing(sha: Sha, b: Tree, w: Tree, preW: Preimages, d: string, pre: Preimages)
    requires AllLinked(b) && Merkle(sha, w, preW) && d in w && d !in b && KidNames(w, d) != {}
    ensures Rooted(w) && !Merkle(sha, FoldPath(sha, b, w, d), pre)
  {
    hide *;
    MerkleLinked(sha, w, preW);
    LinkedRooted(w);
    LinkedRooted(b);
    CopiedAlone(sha, b, w, d);
    if Merkle(sha, FoldPath(sha, b, w, d), pre) { CleanFolds.ListedKids(sha, FoldPath(sha, b, w, d), pre, w, preW, d); }
  }

  lemma LinkedRooted(t: Tree)
    requires AllLinked(t)
    ensures Rooted(t)
  {}

  lemma DirectoryMissing(sha: Sha, b: Tree, w: Tree, c: string, pre: Preimages)
    requires Rooted(b) && Rooted(w) && c in w && c != SUPER_ROOT && ParentForestPath(c) !in b
    ensures !Merkle(sha, FoldPath(sha, b, w, c), pre)
  {
    hide FoldPath, Rooted, Merkle, AllLinked, ParentForestPath;
    FoldPathKeys(sha, b, w, c);
    var u := FoldPath(sha, b, w, c);
    if Merkle(sha, u, pre) {
      MerkleLinked(sha, u, pre);
      LinkedParent(u, c);
      ParentIsOther(c);
    }
  }

  lemma TwoFirst(d: string, c: string)
    requires c != SUPER_ROOT && ParentForestPath(c) == d
    ensures AncestorsFirst([d, c]) && d != c && !AtOrBelow(c, d)
  {
    AncestorsAreShorter(c);
    ParentIsOther(c);
  }

  lemma BothFolded(w: Tree, d: string, c: string)
    requires d in w && c in w
    ensures Folded(w, [d, c]) == {d, c}
  {}

  lemma OverFile(keys: set<string>, p: string, d: string, c: string)
    requires c != SUPER_ROOT && ParentForestPath(c) == d && d != SUPER_ROOT && ParentForestPath(d) == p
    requires p in keys && d in keys && c in keys
    ensures Lifted(keys, {d, c}, d) && Lifted(keys, {d, c}, p)
  {
    ParentIsOther(c);
    ParentIsOther(d);
    assert Solid(keys, d, d) && Solid(keys, d, c) && Solid(keys, p, p) && Solid(keys, p, d);
  }

  lemma BothAreClean(sha: Sha, b: Tree, preB: Preimages, w: Tree, preW: Preimages, d: string, c: string)
    requires Merkle(sha, b, preB) && Merkle(sha, w, preW)
    requires d in w && c in w && d != SUPER_ROOT && c != SUPER_ROOT && ParentForestPath(d) in b && ParentForestPath(c) == d
    requires KidNames(b, c) == {} && KidNames(w, c) == {}
    ensures Rooted(b) && Rooted(w) && exists pre :: Merkle(sha, FoldAll(sha, b, w, [d, c]), pre)
  {
    hide FoldAll, Merkle, Rooted, KidNames, KidRefs, ParentForestPath, AllLinked, HangingPart, Lifted, Hangs, Folded, AncestorsFirst;
    var paths := [d, c];
    TwoFirst(d, c);
    BothFolded(w, d, c);
    MerkleLinked(sha, b, preB);
    MerkleLinked(sha, w, preW);
    LinkedRooted(b);
    LinkedRooted(w);
    FoldAllKeys(sha, b, w, paths);
    AllHang(b, w, paths, FoldAll(sha, b, w, paths));
    OverFile(b.Keys + {d, c}, ParentForestPath(d), d, c);
    NoKidsNoRefs(b, c);
    NoKidsNoRefs(w, c);
    var pre := CleanIsMerkle(sha, b, preB, w, preW, paths);
  }

  /** The refold gives the directory above a child and leaves its state. */
  lemma StaysEmpty(sha: Sha, b: Tree, w: Tree, d: string, c: string)
    requires Rooted(b) && Rooted(w) && d in w && c in w && d != SUPER_ROOT && c != SUPER_ROOT && ParentForestPath(c) == d
    requires ParentForestPath(d) in b && b[ParentForestPath(d)].state == EmptyDir
    ensures ParentForestPath(d) in FoldAll(sha, b, w, [d, c])
    ensures FoldAll(sha, b, w, [d, c])[ParentForestPath(d)].state == EmptyDir
    ensures !StatesHonest(sha, FoldAll(sha, b, w, [d, c]))
  {
    hide FoldAll, Rooted, KidNames, ParentForestPath, Lifted, Folded, AncestorsFirst, AtOrBelow;
    var u, p := FoldAll(sha, b, w, [d, c]), ParentForestPath(d);
    TwoFirst(d, c);
    BothFolded(w, d, c);
    FoldAllView(sha, b, w, [d, c]);
    FoldAllKeys(sha, b, w, [d, c]);
    OverFile(u.Keys, p, d, c);
    OtherThanBoth(d, c);
    assert FoldedAtPath(b, u, w, u.Keys, {d, c}, p);
    PlacedIsKid(u, d);
    assert !StateHonest(sha, u, p);
  }

  lemma OtherThanBoth(d: string, c: string)
    requires d != SUPER_ROOT && c != SUPER_ROOT && ParentForestPath(c) == d
    ensures ParentForestPath(d) != d && ParentForestPath(d) != c
  {}

  /** A directory that was added with a file in it. */
  ghost predicate IsAddition(b: Tree, w: Tree, d: string, c: string) {
    && d in w && d !in b && d != SUPER_ROOT && ParentForestPath(d) in b
    && c in w && c != SUPER_ROOT && ParentForestPath(c) == d && w[c].IsLeaf()
  }

  /** What its folds do: the directory folded alone misses its child and hides it from every later diff, the file
      folded alone is stored out of reach, and both in the order of the report are clean, except that a directory
      above that was recorded as empty has a child then and still is. */
  ghost predicate AdditionFolds(sha: Sha, b: Tree, w: Tree, d: string, c: string)
    requires Rooted(b) && Rooted(w) && ParentForestPath(d) in b
  {
    && (forall pre :: !Merkle(sha, FoldPath(sha, b, w, d), pre))
    && (forall r, e | AtOrBelow(r, d) && e in Drift(FoldPath(sha, b, w, d), w, r) :: !AtOrBelow(d, e.path))
    && (forall pre :: !Merkle(sha, FoldPath(sha, b, w, c), pre))
    && (exists pre :: Merkle(sha, FoldAll(sha, b, w, [d, c]), pre))
    && (b[ParentForestPath(d)].state == EmptyDir ==> !StatesHonest(sha, FoldAll(sha, b, w, [d, c])))
  }

  lemma AddedDirectory(sha: Sha, b: Tree, preB: Preimages, w: Tree, preW: Preimages, d: string, c: string)
    requires Merkle(sha, b, preB) && Merkle(sha, w, preW) && IsAddition(b, w, d, c)
    ensures Rooted(b) && Rooted(w) && ParentForestPath(d) in b && AdditionFolds(sha, b, w, d, c)
  {
    hide Merkle, Rooted, FoldPath, FoldAll, KidNames, AllLinked, ParentForestPath, StatesHonest, Drift, AtOrBelow, Lifted;
    MerkleLinked(sha, b, preB);
    MerkleLinked(sha, w, preW);
    LinkedRooted(b);
    LinkedRooted(w);
    PlacedIsKid(w, c);
    FileHasNoKids(sha, b, preB, w, preW, d, c);
    forall pre ensures !Merkle(sha, FoldPath(sha, b, w, d), pre) { ChildMissing(sha, b, w, preW, d, pre); }
    forall pre ensures !Merkle(sha, FoldPath(sha, b, w, c), pre) { DirectoryMissing(sha, b, w, c, pre); }
    CopiedAlone(sha, b, w, d);
    forall r, e | AtOrBelow(r, d) && e in Drift(FoldPath(sha, b, w, d), w, r) ensures !AtOrBelow(d, e.path) {
      SwallowedUnseen(b, FoldPath(sha, b, w, d), w, {d}, r, d, e);
    }
    BothAreClean(sha, b, preB, w, preW, d, c);
    if b[ParentForestPath(d)].state == EmptyDir { StaysEmpty(sha, b, w, d, c); }
  }

  lemma FileHasNoKids(sha: Sha, b: Tree, preB: Preimages, w: Tree, preW: Preimages, d: string, c: string)
    requires Merkle(sha, b, preB) && Merkle(sha, w, preW) && IsAddition(b, w, d, c)
    ensures KidNames(b, c) == {} && KidNames(w, c) == {}
  {
    hide KidNames, Hashed, Shape, ParentForestPath;
    ShapeLinked(b);
    ShapeLinked(w);
    LeavesHaveNoKids(w, c);
    if c in b { LinkedParent(b, c); }
    AbsentHasNoKids(b, c);
  }

  // ---- In the forests of one source ----

  /** Below its prefix the source had an empty directory, and has a directory with a file in it there now. */
  datatype Names = Names(host: string, etc: string, foo: string, conf: string) {
    /** Each path is one segment longer than the one before. */
    predicate Chain() {
      && Proper(host) && PlainPath(host) && ParentForestPath(host) == SUPER_ROOT
      && etc != "" && ParentForestPath(etc) == host && foo != "" && ParentForestPath(foo) == etc
      && conf != "" && ParentForestPath(conf) == foo
    }
  }

  lemma ChainWays(n: Names)
    requires n.Chain()
    ensures forall a :: AtOrBelow(a, SUPER_ROOT) <==> a == SUPER_ROOT
    ensures forall a :: AtOrBelow(a, n.host) <==> a == n.host || a == SUPER_ROOT
    ensures forall a :: AtOrBelow(a, n.etc) <==> a == n.etc || a == n.host || a == SUPER_ROOT
    ensures forall a :: AtOrBelow(a, n.foo) <==> a == n.foo || a == n.etc || a == n.host || a == SUPER_ROOT
    ensures forall a :: AtOrBelow(a, n.conf) <==> a == n.conf || a == n.foo || a == n.etc || a == n.host || a == SUPER_ROOT
    ensures |SUPER_ROOT| < |n.host| < |n.etc| < |n.foo| < |n.conf|
  {
    hide Proper, ParentForestPath;
    assert n.host != "";
    AncestorsAreShorter(n.host);
    AncestorsAreShorter(n.etc);
    AncestorsAreShorter(n.foo);
    AncestorsAreShorter(n.conf);
  }

  /** Above the paths of the chain there is only the chain. */
  lemma OnChain(n: Names, a: string, q: string)
    requires n.Chain() && AtOrBelow(a, q)
    ensures q == n.host || q == n.etc ==> a == n.etc || a == n.host || a == SUPER_ROOT
    ensures q == n.foo || q == n.conf ==> a == n.conf || a == n.foo || a == n.etc || a == n.host || a == SUPER_ROOT
  {
    hide AtOrBelow, ParentForestPath, Proper;
    ChainWays(n);
    if q == n.host {
    } else if q == n.etc {
    } else if q == n.foo {
    } else if q == n.conf {
    }
  }

  lemma AllEntriesIncluded(j: Job)
    requires j.level != L2
    ensures Included(j) == j.entries.Keys
  {}

  lemma OneSource(sha: Sha, level: Level, globs: seq<string>, frozen: FrozenBaseline, src: Source, t: Tree)
    returns (m: EntryMap, part: Tree, layer: Tree)
    requires IsForest(sha, level, globs, frozen, [src], t) && src.available && level != L2
    ensures IsSynthesis(src.prefix, src.enumerated, m) && IsAssembled(sha, JobOf(level, globs, src, m), part) && part.Keys == m.Keys
    ensures IsRootLayer(sha, part, layer) && t == part + layer
  {
    hide *;
    var trees, above := TheLayers(sha, level, globs, frozen, src, t);
    part, layer := trees, above;
    m := TheEntries(sha, level, globs, frozen, src, part);
    JobEntries(level, globs, src, m);
    AllEntriesIncluded(JobOf(level, globs, src, m));
    TreeKeys(sha, JobOf(level, globs, src, m), part);
  }

  lemma JobEntries(level: Level, globs: seq<string>, src: Source, m: EntryMap)
    ensures JobOf(level, globs, src, m).entries == m && JobOf(level, globs, src, m).level == level
  {}

  lemma TreeKeys(sha: Sha, j: Job, t: Tree)
    requires IsAssembled(sha, j, t)
    ensures t.Keys == Included(j)
  {
    hide NodeFor, Included;
  }

  lemma TheLayers(sha: Sha, level: Level, globs: seq<string>, frozen: FrozenBaseline, src: Source, t: Tree)
    returns (part: Tree, layer: Tree)
    requires IsForest(sha, level, globs, frozen, [src], t)
    ensures IsSourceTree(sha, level, globs, frozen, src, part) && IsRootLayer(sha, part, layer) && t == part + layer
  {
    hide IsSourceTree, IsRootLayer;
    var trees, above :| IsLayered(sha, level, globs, frozen, [src], trees, above) && t == Union(trees) + above;
    assert trees == [trees[0]] && trees[..0] == [] && Union(trees) == trees[0];
    assert IsSourceTree(sha, level, globs, frozen, [src][0], trees[0]);
    part, layer := trees[0], above;
  }

  lemma TheEntries(sha: Sha, level: Level, globs: seq<string>, frozen: FrozenBaseline, src: Source, part: Tree) returns (m: EntryMap)
    requires IsSourceTree(sha, level, globs, frozen, src, part) && src.available
    ensures IsSynthesis(src.prefix, src.enumerated, m) && IsAssembled(sha, JobOf(level, globs, src, m), part)
  {
    hide IsSynthesis, IsAssembled, JobOf;
    m :| IsSynthesis(src.prefix, src.enumerated, m) && IsAssembled(sha, JobOf(level, globs, src, m), part);
  }

  /** The layer above the subtree of one prefix is the super-root. */
  lemma RootAbove(sha: Sha, n: Names, part: Tree, layer: Tree)
    requires n.Chain() && IsRootLayer(sha, part, layer) && n.host in part && SUPER_ROOT !in part
    requires part.Keys == {n.host, n.etc} || part.Keys == {n.host, n.etc, n.foo, n.conf}
    ensures layer.Keys == {SUPER_ROOT}
  {
    hide GroupNode, AtOrBelow;
    ChainWays(n);
    assert AtOrBelow(SUPER_ROOT, n.host);
    assert MissingAbove(part, SUPER_ROOT);
    forall a | a in layer ensures a == SUPER_ROOT {
      assert MissingAbove(part, a);
      var q :| q in part && AtOrBelow(a, q);
      assert q in {n.host, n.etc, n.foo, n.conf};
      OnChain(n, a, q);
    }
  }

  /** `es` is the enumeration before: the directory, empty. */
  predicate Before(n: Names, es: seq<EnumeratedEntry>) {
    |es| == 1 && IsDirAt(n, es[0], n.etc)
  }

  predicate IsDirAt(n: Names, e: EnumeratedEntry, p: string) { e.kind == Dir && !e.unreadable && ForestPathOf(n.host, e) == p }

  /** The enumeration afterwards: a directory in it, and a file in that. */
  predicate Afterwards(n: Names, es: seq<EnumeratedEntry>) {
    && |es| == 3 && IsDirAt(n, es[0], n.etc) && IsDirAt(n, es[1], n.foo)
    && es[2].kind == File && ForestPathOf(n.host, es[2]) == n.conf
  }

  lemma BeforeEntries(n: Names, es: seq<EnumeratedEntry>, m: EntryMap)
    requires n.Chain() && Before(n, es) && IsSynthesis(n.host, es, m)
    ensures m.Keys == {n.host, n.etc} && m[n.etc].kind == Dir && m[n.etc].state == Present
  {
    hide AtOrBelow, ParentForestPath, ToForestPath, Proper;
    ChainWays(n);
    assert es[0] in es && AtOrBelow(n.host, n.host) && AtOrBelow(n.host, n.etc) && AtOrBelow(n.etc, n.etc);
    assert Between(n.host, n.etc, ForestPathOf(n.host, es[0]));
    forall q | q in m ensures q in {n.host, n.etc} {
      if q != n.host {
        var e :| e in es && Between(n.host, q, ForestPathOf(n.host, e));
        assert e == es[0];
        OnChain(n, q, n.etc);
      }
    }
  }

  lemma AfterEntries(n: Names, es: seq<EnumeratedEntry>, m: EntryMap)
    requires n.Chain() && Afterwards(n, es) && IsSynthesis(n.host, es, m)
    ensures m.Keys == {n.host, n.etc, n.foo, n.conf} && m[n.conf].kind == File
  {
    hide AtOrBelow, ParentForestPath, ToForestPath, Proper;
    ChainWays(n);
    assert es[0] in es && es[1] in es && es[2] in es;
    assert AtOrBelow(n.host, n.etc) && AtOrBelow(n.host, n.foo) && AtOrBelow(n.host, n.conf);
    assert Between(n.host, n.etc, ForestPathOf(n.host, es[0]));
    assert Between(n.host, n.foo, ForestPathOf(n.host, es[1]));
    assert Between(n.host, n.conf, ForestPathOf(n.host, es[2]));
    forall q | q in m ensures q in {n.host, n.etc, n.foo, n.conf} {
      if q != n.host {
        var e :| e in es && Between(n.host, q, ForestPathOf(n.host, e));
        assert e == es[0] || e == es[1] || e == es[2];
        OnChain(n, q, ForestPathOf(n.host, e));
      }
    }
  }

  lemma EmptyAt(sha: Sha, j: Job, t: Tree, n: Names)
    requires n.Chain() && IsAssembled(sha, j, t) && t.Keys == {n.host, n.etc}
    requires n.etc in j.entries && j.entries[n.etc].kind == Dir && j.entries[n.etc].state == Present
    ensures t[n.etc].state == EmptyDir
  {
    hide KidRefs, SortedNames, ParentForestPath, LeafName, Proper, FileBytes, Included;
    ChainWays(n);
    IncludedAreEntries(j);
    forall q | q in t ensures t[q].parentPath != Some(n.etc) { assert t[q] == NodeFor(sha, j, t, q); }
    assert KidNames(t, n.etc) == {};
  }

  lemma FileAt(sha: Sha, j: Job, t: Tree, p: string)
    requires IsAssembled(sha, j, t) && p in t && p in j.entries && j.entries[p].kind == File
    ensures t[p].IsLeaf()
  {
    hide KidRefs, KidNames, SortedNames, ParentForestPath, FileBytes, Included;
  }

  lemma ForestBefore(sha: Sha, level: Level, globs: seq<string>, frozen: FrozenBaseline, n: Names, src: Source, b: Tree)
    requires n.Chain() && src.prefix == n.host && src.available && Before(n, src.enumerated) && level != L2
    requires IsForest(sha, level, globs, frozen, [src], b)
    ensures b.Keys == {SUPER_ROOT, n.host, n.etc} && b[n.etc].state == EmptyDir
  {
    hide *;
    var m, part, layer := OneSource(sha, level, globs, frozen, src, b);
    BeforeEntries(n, src.enumerated, m);
    ChainLengths(n);
    RootAbove(sha, n, part, layer);
    JobEntries(level, globs, src, m);
    EmptyAt(sha, JobOf(level, globs, src, m), part, n);
    assert b.Keys == part.Keys + layer.Keys;
  }

  lemma ChainLengths(n: Names)
    requires n.Chain()
    ensures |SUPER_ROOT| < |n.host| < |n.etc| < |n.foo| < |n.conf|
  {
    hide *;
    ChainWays(n);
  }

  lemma ForestAfter(sha: Sha, level: Level, globs: seq<string>, frozen: FrozenBaseline, n: Names, src: Source, w: Tree)
    requires n.Chain() && src.prefix == n.host && src.available && Afterwards(n, src.enumerated) && level != L2
    requires IsForest(sha, level, globs, frozen, [src], w)
    ensures w.Keys == {SUPER_ROOT, n.host, n.etc, n.foo, n.conf} && w[n.conf].IsLeaf()
  {
    hide *;
    var m, part, layer := OneSource(sha, level, globs, frozen, src, w);
    AfterEntries(n, src.enumerated, m);
    ChainLengths(n);
    RootAbove(sha, n, part, layer);
    JobEntries(level, globs, src, m);
    FileAt(sha, JobOf(level, globs, src, m), part, n.conf);
    assert w.Keys == part.Keys + layer.Keys;
  }

  // ---- The next diff after the directory alone ----

  lemma OnlyKid(t: Tree, c: string)
    requires Rooted(t) && c in t && c != SUPER_ROOT
    requires forall q | q in t && q != SUPER_ROOT && ParentForestPath(q) == ParentForestPath(c) :: q == c
    ensures KidNames(t, ParentForestPath(c)) == {LeafName(c)} && JoinPath(ParentForestPath(c), LeafName(c)) == c
  {
    hide LeafName, Rooted, ParentForestPath, Proper;
    PlacedIsKid(t, c);
    forall q | q in t && t[q].parentPath == Some(ParentForestPath(c)) ensures q == c { RootedAt(t, q); }
  }

  /** A refolded directory with the one child of the working tree, unchanged, has its hash. */
  lemma SameAbove(sha: Sha, b: Tree, u: Tree, w: Tree, preW: Preimages, q: string, c: string)
    requires Rooted(u) && Merkle(sha, w, preW) && LiftedHashed(sha, u, {q}) && c in u && c in w && c != SUPER_ROOT
    requires ParentForestPath(c) in u && Lifted(u.Keys, {q}, ParentForestPath(c)) && u[c].hash == w[c].hash
    requires forall x | x in u.Keys + w.Keys && x != SUPER_ROOT && ParentForestPath(x) == ParentForestPath(c) :: x == c
    ensures ParentForestPath(c) in w && u[ParentForestPath(c)].hash == w[ParentForestPath(c)].hash
  {
    hide LeafName, Rooted, ParentForestPath, KidNames, KidRefs, NodeBytes, Lifted, Merkle;
    MerkleLinked(sha, w, preW);
    var p := ParentForestPath(c);
    OnlyKid(u, c);
    OnlyKid(w, c);
    KidRefsFrame(u, w, p);
    DirectoryBytes(sha, w, preW, p);
  }

  lemma ChainParents(n: Names)
    requires n.Chain()
    ensures ParentForestPath(n.host) == SUPER_ROOT && ParentForestPath(n.etc) == n.host
    ensures ParentForestPath(n.foo) == n.etc && ParentForestPath(n.conf) == n.foo
  {}

  lemma ChainLifted(n: Names, keys: set<string>)
    requires n.Chain() && keys == {SUPER_ROOT, n.host, n.etc, n.foo}
    ensures Lifted(keys, {n.foo}, n.etc) && Lifted(keys, {n.foo}, n.host) && Lifted(keys, {n.foo}, SUPER_ROOT)
  {
    hide ParentForestPath, Proper, PlainPath;
    ChainLengths(n);
    ChainParents(n);
    var f := n.foo;
    assert f in {f};
    assert Solid(keys, n.etc, n.etc) && Solid(keys, n.etc, f);
    assert Solid(keys, n.host, n.host) && Solid(keys, n.host, n.etc) && Solid(keys, n.host, f);
    assert Solid(keys, SUPER_ROOT, SUPER_ROOT) && Solid(keys, SUPER_ROOT, n.host) && Solid(keys, SUPER_ROOT, n.etc) && Solid(keys, SUPER_ROOT, f);
  }

  /** The directory folded alone gives every directory above it the hash of the working tree. */
  lemma HashesAgree(sha: Sha, b: Tree, w: Tree, preW: Preimages, n: Names)
    requires n.Chain() && AllLinked(b) && Merkle(sha, w, preW)
    requires b.Keys == {SUPER_ROOT, n.host, n.etc} && w.Keys == {SUPER_ROOT, n.host, n.etc, n.foo, n.conf}
    ensures Rooted(b) && Rooted(w) && Drift(FoldPath(sha, b, w, n.foo), w, SUPER_ROOT) == []
  {
    hide *;
    MerkleLinked(sha, w, preW);
    LinkedRooted(b);
    LinkedRooted(w);
    var u := FoldPath(sha, b, w, n.foo);
    ChainLengths(n);
    ChainParents(n);
    CopiedAlone(sha, b, w, n.foo);
    FoldIsLifted(sha, b, w, preW, n.foo);
    assert u.Keys == {SUPER_ROOT, n.host, n.etc, n.foo};
    ChainLifted(n, u.Keys);
    SameAbove(sha, b, u, w, preW, n.foo, n.foo);
    SameAbove(sha, b, u, w, preW, n.foo, n.etc);
    SameAbove(sha, b, u, w, preW, n.foo, n.host);
    EqualOrOwnDrift(u, w, SUPER_ROOT);
  }

  lemma FoldIsLifted(sha: Sha, b: Tree, w: Tree, preW: Preimages, q: string)
    requires AllLinked(b) && Rooted(b) && Merkle(sha, w, preW) && q in w
    ensures Rooted(b) && Rooted(w) && LiftedHashed(sha, FoldPath(sha, b, w, q), {q})
  {
    hide Hashed, FoldPath, FoldAll, LiftedHashed, Linked, Folded, AncestorsFirst, AllLinked, ParentForestPath;
    MerkleShape(sha, w, preW);
    OneFold(sha, b, w, q);
    BatchLifts(sha, b, w, [q]);
  }

  /** A directory with a file, added at L1 or L3 to a directory that was empty: the forests are any the assembly of one
      source gives. After the directory was folded alone the whole diff is empty, although its file is in no
      baseline. */
  lemma AdditionInForests(
    sha: Sha, level: Level, globs: seq<string>, frozen: FrozenBaseline, n: Names, before: Source, after: Source, b: Tree, w: Tree)
    requires n.Chain() && level != L2 && before.available && after.available && before.prefix == n.host == after.prefix
    requires Before(n, before.enumerated) && Afterwards(n, after.enumerated)
    requires AllGood(sha, frozen, [before]) && AllGood(sha, frozen, [after])
    requires IsForest(sha, level, globs, frozen, [before], b) && IsForest(sha, level, globs, frozen, [after], w)
    ensures Rooted(b) && Rooted(w) && ParentForestPath(n.foo) in b && AdditionFolds(sha, b, w, n.foo, n.conf)
    ensures !StatesHonest(sha, FoldAll(sha, b, w, [n.foo, n.conf]))
    ensures n.conf in w && n.conf !in FoldPath(sha, b, w, n.foo) && Drift(FoldPath(sha, b, w, n.foo), w, SUPER_ROOT) == []
  {
    hide *;
    var preB := ForestOfSourcesIsMerkle(sha, level, globs, frozen, [before], b);
    var preW := ForestOfSourcesIsMerkle(sha, level, globs, frozen, [after], w);
    ForestBefore(sha, level, globs, frozen, n, before, b);
    ForestAfter(sha, level, globs, frozen, n, after, w);
    IsAdded(n, b, w);
    AddedDirectory(sha, b, preB, w, preW, n.foo, n.conf);
    ChainParents(n);
    ChainLengths(n);
    StaysEmpty(sha, b, w, n.foo, n.conf);
    MerkleLinked(sha, b, preB);
    HashesAgree(sha, b, w, preW, n);
    FoldPathKeys(sha, b, w, n.foo);
  }

  lemma IsAdded(n: Names, b: Tree, w: Tree)
    requires n.Chain() && b.Keys == {SUPER_ROOT, n.host, n.etc} && w.Keys == {SUPER_ROOT, n.host, n.etc, n.foo, n.conf}
    requires w[n.conf].IsLeaf()
    ensures IsAddition(b, w, n.foo, n.conf)
  {
    hide ParentForestPath, Proper;
    ChainLengths(n);
    ChainParents(n);
  }

  // ---- A run ----

  const ETC_FOO := Names("host", "host/etc", "host/etc/foo", "host/etc/foo/x.conf")

  lemma EtcFooNames()
    ensures ETC_FOO.host == "host" && ETC_FOO.foo == "host/etc/foo" && ETC_FOO.conf == "host/etc/foo/x.conf"
  {}

  lemma EtcFooIsChain()
    ensures ETC_FOO.Chain()
  {
    hide ParentForestPath, Proper, PlainPath;
    Segment("host", "etc", "host/etc");
    Segment("host/etc", "foo", "host/etc/foo");
    Segment("host/etc/foo", "x.conf", "host/etc/foo/x.conf");
    Top("host");
  }

  lemma Segment(p: string, name: string, q: string)
    requires p != "" && '/' !in name && q == p + "/" + name
    ensures q != "" && ParentForestPath(q) == p
  {
    PartsOfJoin(p, name);
  }

  lemma Top(p: string)
    requires p != "" && '/' !in p && '\0' !in p
    ensures Proper(p) && PlainPath(p) && ParentForestPath(p) == SUPER_ROOT
  {
    assert p[0] in p;
    LastSlashUnique(p, -1);
  }

  lemma GoodAlone(sha: Sha, frozen: FrozenBaseline, n: Names, src: Source)
    requires n.Chain() && src.prefix == n.host && src.available && (Before(n, src.enumerated) || Afterwards(n, src.enumerated))
    requires AllAbsolute(src.enumerated) && forall e | e in src.enumerated :: NulFreePath(e.nodePath)
    ensures AllGood(sha, frozen, [src])
  {
    hide ParentForestPath, Proper, PlainPath, ToForestPath, AtOrBelow, Absolute, NulFreePath;
    ChainWays(n);
    assert NothingBelowLeaves(src.prefix, src.enumerated);
  }

  lemma EtcEmpty(etc: EnumeratedEntry)
    requires etc.nodePath == "/etc" && etc.kind == Dir && !etc.unreadable
    ensures Before(ETC_FOO, [etc]) && AllAbsolute([etc]) && forall e | e in [etc] :: NulFreePath(e.nodePath)
  {
    assert "host" + "/etc" == "host/etc";
  }

  lemma EtcWithFoo(etc: EnumeratedEntry, foo: EnumeratedEntry, conf: EnumeratedEntry)
    requires etc.nodePath == "/etc" && etc.kind == Dir && !etc.unreadable
    requires foo.nodePath == "/etc/foo" && foo.kind == Dir && !foo.unreadable
    requires conf.nodePath == "/etc/foo/x.conf" && conf.kind == File
    ensures Afterwards(ETC_FOO, [etc, foo, conf]) && AllAbsolute([etc, foo, conf])
    ensures forall e | e in [etc, foo, conf] :: NulFreePath(e.nodePath)
  {
    assert "host" + "/etc" == "host/etc" && "host" + "/etc/foo" == "host/etc/foo";
    assert "host" + "/etc/foo/x.conf" == "host/etc/foo/x.conf";
  }

  /** `/etc` empty in one assembly, `/etc/foo/x.conf` in the next. */
  method AddedDirectoryRun(sha: Sha, globs: seq<string>, content: ContentHash, mtime: Option<int>) returns (b: seq<StoredNode>, w: seq<StoredNode>)
    ensures Rooted(TreeOf(b)) && Rooted(TreeOf(w)) && ParentForestPath("host/etc/foo") in TreeOf(b)
    ensures AdditionFolds(sha, TreeOf(b), TreeOf(w), "host/etc/foo", "host/etc/foo/x.conf")
    ensures !StatesHonest(sha, FoldAll(sha, TreeOf(b), TreeOf(w), ["host/etc/foo", "host/etc/foo/x.conf"]))
    ensures "host/etc/foo/x.conf" in TreeOf(w) && "host/etc/foo/x.conf" !in FoldPath(sha, TreeOf(b), TreeOf(w), "host/etc/foo")
    ensures Drift(FoldPath(sha, TreeOf(b), TreeOf(w), "host/etc/foo"), TreeOf(w), SUPER_ROOT) == []
  {
    hide *;
    var etc := EnumeratedEntry("/etc", Dir, mtime, false);
    var foo := EnumeratedEntry("/etc/foo", Dir, mtime, false);
    var conf := EnumeratedEntry("/etc/foo/x.conf", File, mtime, false);
    var before, after := Source("host", true, [etc], content), Source("host", true, [etc, foo, conf], content);
    var frozen: FrozenBaseline := (_: string) => [];
    EtcFooNames();
    EtcFooIsChain();
    EtcEmpty(etc);
    EtcWithFoo(etc, foo, conf);
    GoodAlone(sha, frozen, ETC_FOO, before);
    GoodAlone(sha, frozen, ETC_FOO, after);
    b := AssembleForest(sha, L1, globs, frozen, [before]);
    w := AssembleForest(sha, L1, globs, frozen, [after]);
    AdditionInForests(sha, L1, globs, frozen, ETC_FOO, before, after, TreeOf(b), TreeOf(w));
  }
}
