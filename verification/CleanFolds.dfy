/** When folding leaves the baseline a Merkle tree (src/integrity/integrityEngine.ts, foldLeafIntoBaseline). */
module CleanFolds {
  import opened Utf8
  import opened ForestPaths
  import opened Folding
  import opened Options
  import opened MerkleTrees
  import opened TreeDiff
  import opened BaselineFold

  /** The nodes of `t` whose directories are all there. */
  ghost function HangingPart(t: Tree): Tree { map x | x in t && Hangs(t.Keys, x) :: t[x] }

  lemma {:induction false} LinkedHangs(t: Tree, x: string)
    requires AllLinked(t) && x in t
    ensures Hangs(t.Keys, x)
    decreases |x|
  {
    hide Proper, LeafName;
    assert Linked(t, x);
    if x != SUPER_ROOT { LinkedHangs(t, ParentForestPath(x)); }
  }

  lemma LinkedIsWhole(t: Tree)
    requires AllLinked(t)
    ensures HangingPart(t) == t
  {
    hide Solid, AllLinked;
    forall x | x in t ensures Hangs(t.Keys, x) { LinkedHangs(t, x); }
  }

  lemma KidHangs(t: Tree, x: string, n: string)
    requires Rooted(t) && Hangs(t.Keys, x) && n in KidNames(t, x)
    ensures JoinPath(x, n) in t && Hangs(t.Keys, JoinPath(x, n))
  {
    hide KidNames, ParentForestPath;
    KidPlaced(t, x, n);
  }

  lemma HangsIn(t: Tree, x: string)
    requires Hangs(t.Keys, x)
    ensures x in t && (x != SUPER_ROOT ==> ParentForestPath(x) in t && Hangs(t.Keys, ParentForestPath(x)))
  {
    hide ParentForestPath;
    if x != SUPER_ROOT { assert Solid(t.Keys, SUPER_ROOT, ParentForestPath(x)); }
  }

  lemma PartRooted(t: Tree)
    requires Rooted(t)
    ensures Rooted(HangingPart(t))
  {
    hide Hangs, RootedNode;
    var v := HangingPart(t);
    forall x | x in v ensures RootedNode(v[x]) && v[x].path == x { RootedAt(t, x); }
  }

  /** A node that hangs has the same children in the part that hangs. */
  lemma PartSameKids(t: Tree, x: string)
    requires Rooted(t) && Hangs(t.Keys, x)
    ensures x in HangingPart(t) && HangingPart(t)[x] == t[x] && SameKids(t, HangingPart(t), x)
  {
    hide LeafName, Rooted, ParentForestPath, JoinPath, Hangs;
    var v := HangingPart(t);
    HangsIn(t, x);
    forall n | n in KidNames(t, x) ensures n in KidNames(v, x) && HashAt(t, JoinPath(x, n)) == HashAt(v, JoinPath(x, n)) {
      KidPlaced(t, x, n);
      KidHangs(t, x, n);
      var c := JoinPath(x, n);
      assert c in v && v[c].parentPath == Some(x) && LeafName(c) == n;
    }
    assert KidNames(v, x) <= KidNames(t, x);
  }

  /** No segment holds a NUL. */
  ghost predicate PlainNames(t: Tree) { forall x | x in t :: '\0' !in LeafName(x) }

  lemma PartLinked(t: Tree)
    requires Rooted(t) && PlainNames(t)
    ensures AllLinked(HangingPart(t))
  {
    hide LeafName, Proper, ParentForestPath, Hangs;
    var v := HangingPart(t);
    PartRooted(t);
    forall x | x in v ensures Linked(v, x) {
      RootedAt(t, x);
      HangsIn(t, x);
    }
  }

  lemma PartSettled(sha: Sha, t: Tree, x: string, bytes: seq<byte>)
    requires Rooted(t) && x in t && Hangs(t.Keys, x) && Settled(sha, t, x, bytes)
    ensures x in HangingPart(t) && Settled(sha, HangingPart(t), x, bytes)
  {
    hide HangingPart, Settled, SameKids, Hangs, Rooted;
    HangsIn(t, x);
    PartSameKids(t, x);
    SettledFrame(sha, t, HangingPart(t), x, bytes);
  }

  lemma SettledParent(sha: Sha, t: Tree, x: string, bytes: seq<byte>)
    requires Rooted(t) && x in t && x != SUPER_ROOT && ParentForestPath(x) in t && Settled(sha, t, ParentForestPath(x), bytes)
    ensures !t[ParentForestPath(x)].IsLeaf()
  {
    hide KidNames, NodeHashed, ParentForestPath, LeafName;
    PlacedIsKid(t, x);
  }

  lemma PartIsMerkle(sha: Sha, t: Tree, pre: Preimages) returns (pre': Preimages)
    requires Rooted(t) && PlainNames(t)
    requires forall x | x in t && Hangs(t.Keys, x) :: x in pre && Settled(sha, t, x, pre[x])
    ensures Merkle(sha, HangingPart(t), pre')
  {
    hide Rooted, Settled, NodeHashed, PlainNames, ParentForestPath, Hangs, Proper, LeafName;
    var v := HangingPart(t);
    PartLinked(t);
    pre' := map x | x in v :: pre[x];
    forall x | x in v ensures Settled(sha, v, x, pre'[x]) && NodeHashed(sha, v, x, pre'[x]) {
      PartSettled(sha, t, x, pre[x]);
      SettledIsHashed(sha, v, x, pre[x]);
    }
    forall x | x in v && x != SUPER_ROOT && Linked(v, x) ensures !v[ParentForestPath(x)].IsLeaf() {
      SettledParent(sha, v, x, pre'[ParentForestPath(x)]);
    }
  }

  lemma SettledIsHashed(sha: Sha, t: Tree, x: string, bytes: seq<byte>)
    requires x in t && Settled(sha, t, x, bytes)
    ensures NodeHashed(sha, t, x, bytes)
  {}

  lemma MerkleIsBut(sha: Sha, t: Tree, pre: Preimages)
    requires Merkle(sha, t, pre)
    ensures MerkleBut(sha, t, pre, {}) && PlainNames(t) && HangingPart(t) == t
  {
    hide KidNames, NodeHashed, ParentForestPath;
    LinkedIsWhole(t);
    forall x | x in t ensures Settled(sha, t, x, pre[x]) && '\0' !in LeafName(x) {
      assert Linked(t, x);
      if t[x].IsLeaf() { LeavesHaveNoKids(t, x); }
    }
  }

  lemma LiftedParent(keys: set<string>, folded: set<string>, x: string, c: string)
    requires x in keys && c in keys && c != SUPER_ROOT && ParentForestPath(c) == x && (c in folded || Lifted(keys, folded, c))
    ensures Lifted(keys, folded, x)
  {
    ParentIsOther(c);
    assert Solid(keys, x, x) && Solid(keys, x, c);
    if c !in folded {
      var f :| f in folded && f != c && Solid(keys, c, f);
      SolidJoin(keys, x, c, f);
      SolidBelow(keys, c, f);
      AtOrBelowLength(c, f);
    }
  }

  /** A node no refold came by keeps its children. */
  lemma FoldKeepsKids(b: Tree, u: Tree, w: Tree, folded: set<string>, x: string)
    requires Rooted(b) && Rooted(u) && FoldedView(b, u, w, folded) && x in u && !Lifted(u.Keys, folded, x)
    ensures KidNames(b, x) == KidNames(u, x) && KidRefs(b, x) == KidRefs(u, x)
    ensures forall n | n in KidNames(b, x) :: HashAt(b, JoinPath(x, n)) == HashAt(u, JoinPath(x, n))
  {
    hide Lifted, JoinPath, LeafName, ParentForestPath, Proper, Rooted, KidRefs;
    forall q | q in u && u[q].parentPath == Some(x) ensures q in b && u[q] == b[q] { KidUnmoved(b, u, w, folded, x, q); }
    forall q | q in b && b[q].parentPath == Some(x) ensures u[q] == b[q] {
      RootedAt(b, q);
      RootedAt(u, q);
      KidUnmoved(b, u, w, folded, x, q);
    }
    assert KidNames(b, x) == KidNames(u, x);
    forall n | n in KidNames(b, x) ensures HashAt(b, JoinPath(x, n)) == HashAt(u, JoinPath(x, n)) { KidPlaced(b, x, n); }
    KidRefsFrame(b, u, x);
  }

  lemma KidUnmoved(b: Tree, u: Tree, w: Tree, folded: set<string>, x: string, q: string)
    requires Rooted(u) && FoldedView(b, u, w, folded) && x in u && !Lifted(u.Keys, folded, x)
    requires q in u && u[q].parentPath == Some(x)
    ensures q in b && u[q] == b[q]
  {
    hide Lifted;
    RootedAt(u, q);
    if q in folded || Lifted(u.Keys, folded, q) { LiftedParent(u.Keys, folded, x, q); }
    assert FoldedAtPath(b, u, w, u.Keys, folded, q);
  }

  /** Directories that list the same children fold to the same references. */
  lemma RefsNameKids(b: Tree, w: Tree, q: string)
    requires KidRefs(b, q) == KidRefs(w, q)
    ensures KidNames(b, q) == KidNames(w, q)
  {
    KidRefsElements(b, q);
    KidRefsElements(w, q);
    forall n ensures n in KidNames(b, q) <==> n in KidNames(w, q) {
      var r, s := ChildRef(n, HashAt(b, JoinPath(q, n))), ChildRef(n, HashAt(w, JoinPath(q, n)));
      assert r in KidRefs(b, q) <==> n in KidNames(b, q);
      assert s in KidRefs(w, q) <==> n in KidNames(w, q);
    }
  }

  lemma SettleFolded(sha: Sha, b: Tree, u: Tree, w: Tree, preW: Preimages, folded: set<string>, q: string)
    requires Merkle(sha, w, preW) && Rooted(b) && Rooted(u) && FoldedView(b, u, w, folded)
    requires q in folded && q in u && !Lifted(u.Keys, folded, q) && KidRefs(b, q) == KidRefs(w, q)
    ensures q in preW && Settled(sha, u, q, preW[q])
  {
    hide Lifted, KidRefs, KidNames, NodeBytes, SortedNames, Rooted;
    FoldKeepsKids(b, u, w, folded, q);
    RefsNameKids(b, w, q);
    assert FoldedAtPath(b, u, w, u.Keys, folded, q);
    assert NodeHashed(sha, w, q, preW[q]);
    if w[q].IsLeaf() { LeavesHaveNoKids(w, q); }
  }

  /** A folded path is clean where a refold came by later, or where the baseline has the children it lists. */
  ghost predicate CleanAt(b: Tree, w: Tree, paths: seq<string>, q: string) {
    Lifted(b.Keys + Folded(w, paths), Folded(w, paths), q) || KidRefs(b, q) == KidRefs(w, q)
  }

  /** Every folded path whose directories are all there in the end is clean. */
  ghost predicate CleanBatch(b: Tree, w: Tree, paths: seq<string>) {
    forall q | q in Folded(w, paths) && Hangs(b.Keys + Folded(w, paths), q) :: CleanAt(b, w, paths, q)
  }

  lemma CleanIsMerkle(sha: Sha, b: Tree, preB: Preimages, w: Tree, preW: Preimages, paths: seq<string>) returns (pre: Preimages)
    requires Merkle(sha, b, preB) && Merkle(sha, w, preW) && AncestorsFirst(paths) && CleanBatch(b, w, paths)
    ensures Rooted(b) && Rooted(w) && Merkle(sha, HangingPart(FoldAll(sha, b, w, paths)), pre)
  {
    hide Merkle, Rooted, FoldAll, Settled, KidRefs, Lifted, AncestorsFirst, Hangs, PlainNames, FoldedView, Folded;
    MerkleReady(sha, b, preB, w, preW, paths);
    var u, folded := FoldAll(sha, b, w, paths), Folded(w, paths);
    FoldAllView(sha, b, w, paths);
    FoldAllKeys(sha, b, w, paths);
    var mid := FoldAllOpens(sha, b, preB, {}, w, paths);
    var both := map x | x in u :: if x in folded && !Lifted(u.Keys, folded, x) && x in preW then preW[x] else if x in mid then mid[x] else [];
    forall x | x in u && Hangs(u.Keys, x) ensures x in both && Settled(sha, u, x, both[x]) {
      if x in folded && !Lifted(u.Keys, folded, x) { SettleFolded(sha, b, u, w, preW, folded, x); }
    }
    pre := PartIsMerkle(sha, u, both);
  }

  lemma MerkleReady(sha: Sha, b: Tree, preB: Preimages, w: Tree, preW: Preimages, paths: seq<string>)
    requires Merkle(sha, b, preB) && Merkle(sha, w, preW) && AncestorsFirst(paths)
    ensures BatchReady(b, w, paths) && MerkleBut(sha, b, preB, {})
    ensures PlainNames(b) && PlainNames(w) && PlainNames(FoldAll(sha, b, w, paths))
  {
    hide KidNames, Hashed, LeafName, FoldAll, AncestorsFirst;
    MerkleIsBut(sha, b, preB);
    MerkleIsBut(sha, w, preW);
    FoldAllKeys(sha, b, w, paths);
  }

  /** Settled directories that were hashed from the same bytes list the same references. */
  lemma SameBytesSameRefs(b: Tree, w: Tree, q: string)
    requires AllLinked(b) && AllLinked(w) && KidNames(b, q) == KidNames(w, q)
    requires NodeBytes(KidRefs(b, q)) == NodeBytes(KidRefs(w, q))
    ensures KidRefs(b, q) == KidRefs(w, q)
  {
    hide NodeBytes, SortedNames, JoinPath;
    KidRefsNulFree(b, q);
    KidRefsNulFree(w, q);
    NodeBytesInjective(KidRefs(b, q), KidRefs(w, q));
    KidRefsElements(b, q);
    KidRefsElements(w, q);
    forall n | n in KidNames(b, q) ensures HashAt(b, JoinPath(q, n)) == HashAt(w, JoinPath(q, n)) {
      assert ChildRef(n, HashAt(b, JoinPath(q, n))) in KidRefs(w, q);
    }
    KidRefsFrame(b, w, q);
  }

  lemma KidsHaveParent(t: Tree, q: string)
    requires Shape(t) && KidNames(t, q) != {}
    ensures q in t && !t[q].IsLeaf()
  {
    hide LeafName, Proper;
    var c :| c in t && t[c].parentPath == Some(q);
    assert Linked(t, c);
  }

  lemma DirectoryBytes(sha: Sha, t: Tree, pre: Preimages, q: string)
    requires Merkle(sha, t, pre) && KidNames(t, q) != {}
    ensures q in t && q in pre && !t[q].IsLeaf() && pre[q] == NodeBytes(KidRefs(t, q)) && t[q].hash == sha(pre[q])
    ensures pre[q] in pre.Values
  {
    hide KidNames, KidRefs, NodeBytes, SortedNames;
    KidsHaveParent(t, q);
    assert NodeHashed(sha, t, q, pre[q]);
  }

  /** What a node of `w` lists, a node with the same list in the folded tree has. */
  lemma ListedKids(sha: Sha, v: Tree, pre: Preimages, w: Tree, preW: Preimages, q: string)
    requires Merkle(sha, v, pre) && Merkle(sha, w, preW) && q in v && q in w && v[q] == w[q]
    ensures KidNames(v, q) == KidNames(w, q)
  {
    hide KidNames, KidRefs, NodeBytes, SortedNames;
    assert NodeHashed(sha, v, q, pre[q]) && NodeHashed(sha, w, q, preW[q]);
    if w[q].IsLeaf() {
      LeavesHaveNoKids(v, q);
      LeavesHaveNoKids(w, q);
    } else {
      SortedNamesDetermine(KidNames(v, q), KidNames(w, q));
    }
  }

  lemma SortedNamesDetermine(x: set<string>, y: set<string>)
    requires SortedNames(x) == SortedNames(y)
    ensures x == y
  {
    assert forall n :: n in x <==> n in SortedNames(x);
    assert forall n :: n in y <==> n in SortedNames(y);
  }

  lemma MerkleLandingIsClean(
    sha: Sha, b: Tree, preB: Preimages, v: Tree, pre: Preimages, w: Tree, preW: Preimages, q: string)
    requires Merkle(sha, b, preB) && Merkle(sha, v, pre) && Merkle(sha, w, preW) && NoCollision(sha, preB.Values + preW.Values)
    requires q in v && q in w && v[q] == w[q] && KidNames(v, q) == KidNames(b, q) && KidRefs(v, q) == KidRefs(b, q)
    ensures KidRefs(b, q) == KidRefs(w, q)
  {
    hide KidNames, KidRefs, NodeBytes, SortedNames, Hashed, Shape;
    ListedKids(sha, v, pre, w, preW, q);
    if KidNames(b, q) == {} {
      NoKidsNoRefs(b, q);
      NoKidsNoRefs(w, q);
    } else {
      DirectoryBytes(sha, b, preB, q);
      DirectoryBytes(sha, v, pre, q);
      DirectoryBytes(sha, w, preW, q);
      assert preB[q] == preW[q];
      ShapeLinked(b);
      ShapeLinked(w);
      SameBytesSameRefs(b, w, q);
    }
  }

  lemma NoKidsNoRefs(t: Tree, p: string)
    requires KidNames(t, p) == {}
    ensures SortedNames(KidNames(t, p)) == [] && KidRefs(t, p) == []
  {}

  lemma MerkleIsClean(sha: Sha, b: Tree, preB: Preimages, w: Tree, preW: Preimages, paths: seq<string>, pre: Preimages)
    requires Merkle(sha, b, preB) && Merkle(sha, w, preW) && AncestorsFirst(paths)
    requires NoCollision(sha, preB.Values + preW.Values)
    requires Merkle(sha, HangingPart(FoldAll(sha, b, w, paths)), pre)
    ensures CleanBatch(b, w, paths)
  {
    hide Merkle, Rooted, FoldAll, KidRefs, KidNames, Lifted, AncestorsFirst, Hangs, PlainNames, NoCollision, HashAt, Folded;
    MerkleReady(sha, b, preB, w, preW, paths);
    var u, folded := FoldAll(sha, b, w, paths), Folded(w, paths);
    FoldAllView(sha, b, w, paths);
    FoldAllKeys(sha, b, w, paths);
    forall q | q in folded && Hangs(u.Keys, q) && !Lifted(u.Keys, folded, q) ensures KidRefs(b, q) == KidRefs(w, q) {
      assert FoldedAtPath(b, u, w, u.Keys, folded, q);
      FoldKeepsKids(b, u, w, folded, q);
      PartSameKids(u, q);
      KidRefsFrame(u, HangingPart(u), q);
      MerkleLandingIsClean(sha, b, preB, HangingPart(u), pre, w, preW, q);
    }
  }

  /** A batch leaves the part of the baseline that hangs a Merkle tree exactly when every folded path in it with
      nothing folded below it has in the baseline the children it lists: a directory added with contents
      takes over the hash of children the baseline never gets, a file that replaces a directory leaves
      children below a file. */
  lemma CleanBatchIff(sha: Sha, b: Tree, preB: Preimages, w: Tree, preW: Preimages, paths: seq<string>)
    requires Merkle(sha, b, preB) && Merkle(sha, w, preW) && AncestorsFirst(paths)
    requires NoCollision(sha, preB.Values + preW.Values)
    ensures (exists pre :: Merkle(sha, HangingPart(FoldAll(sha, b, w, paths)), pre)) <==> CleanBatch(b, w, paths)
  {
    hide Merkle, Rooted, FoldAll, CleanBatch, NoCollision, AncestorsFirst;
    MerkleReady(sha, b, preB, w, preW, paths);
    if CleanBatch(b, w, paths) {
      var pre := CleanIsMerkle(sha, b, preB, w, preW, paths);
    }
    if pre :| Merkle(sha, HangingPart(FoldAll(sha, b, w, paths)), pre) {
      MerkleIsClean(sha, b, preB, w, preW, paths, pre);
    }
  }

  /** Every folded path has its directory, in the baseline or folded with it. */
  ghost predicate NoOrphans(b: Tree, w: Tree, paths: seq<string>) {
    forall q | q in Folded(w, paths) && q != SUPER_ROOT :: ParentForestPath(q) in b.Keys + Folded(w, paths)
  }

  lemma AllHang(b: Tree, w: Tree, paths: seq<string>, u: Tree)
    requires AllLinked(b) && NoOrphans(b, w, paths) && u.Keys == b.Keys + Folded(w, paths)
    ensures HangingPart(u) == u && forall q | q in Folded(w, paths) :: Hangs(b.Keys + Folded(w, paths), q)
  {
    hide ParentForestPath, Folded, Proper, Hangs;
    forall x | x in u.Keys && x != SUPER_ROOT ensures ParentForestPath(x) in u.Keys {
      if x in b { LinkedParent(b, x); }
    }
    forall x | x in u.Keys ensures Hangs(u.Keys, x) { ClosedHangs(u.Keys, x); }
  }

  lemma LinkedHasNoOrphans(b: Tree, w: Tree, paths: seq<string>, u: Tree)
    requires AllLinked(u) && u.Keys == b.Keys + Folded(w, paths)
    ensures NoOrphans(b, w, paths)
  {
    hide ParentForestPath, Folded;
    forall q | q in Folded(w, paths) && q != SUPER_ROOT ensures ParentForestPath(q) in b.Keys + Folded(w, paths) {
      LinkedParent(u, q);
    }
  }

  lemma {:induction false} ClosedHangs(all: set<string>, x: string)
    requires x in all && forall y | y in all && y != SUPER_ROOT :: ParentForestPath(y) in all
    ensures Hangs(all, x)
    decreases |x|
  {
    if x != SUPER_ROOT { ClosedHangs(all, ParentForestPath(x)); }
  }

  /** The whole baseline stays a Merkle tree exactly when, besides, no folded path is an orphan: one whose
      directory is missing is stored out of reach of the refold. */
  lemma WholeBatchIff(sha: Sha, b: Tree, preB: Preimages, w: Tree, preW: Preimages, paths: seq<string>)
    requires Merkle(sha, b, preB) && Merkle(sha, w, preW) && AncestorsFirst(paths)
    requires NoCollision(sha, preB.Values + preW.Values)
    ensures (exists pre :: Merkle(sha, FoldAll(sha, b, w, paths), pre)) <==>
            NoOrphans(b, w, paths) && forall q | q in Folded(w, paths) :: CleanAt(b, w, paths, q)
  {
    hide Shape, Rooted, FoldAll, CleanAt, NoCollision, AncestorsFirst, NoOrphans, Folded, Hashed, BatchReady, HangingPart, Hangs;
    MerkleReady(sha, b, preB, w, preW, paths);
    ReadyRooted(b, w, paths);
    CleanBatchIff(sha, b, preB, w, preW, paths);
    FoldAllKeys(sha, b, w, paths);
    var u := FoldAll(sha, b, w, paths);
    ShapeLinked(b);
    if NoOrphans(b, w, paths) { AllHang(b, w, paths, u); }
    if pre :| Merkle(sha, u, pre) {
      ShapeLinked(u);
      LinkedIsWhole(u);
      LinkedHasNoOrphans(b, w, paths, u);
    }
  }

  lemma ReadyRooted(b: Tree, w: Tree, paths: seq<string>)
    requires BatchReady(b, w, paths)
    ensures Rooted(b) && Rooted(w)
  {}

  lemma ShapeLinked(t: Tree)
    requires Shape(t)
    ensures AllLinked(t)
  {}

  lemma LinkedParent(t: Tree, q: string)
    requires AllLinked(t) && q in t && q != SUPER_ROOT
    ensures ParentForestPath(q) in t
  {
    assert Linked(t, q);
  }

  lemma OneFold(sha: Sha, b: Tree, w: Tree, q: string)
    requires Rooted(b) && Rooted(w) && q in w
    ensures FoldAll(sha, b, w, [q]) == FoldPath(sha, b, w, q) && Folded(w, [q]) == {q} && AncestorsFirst([q])
    ensures NoOrphans(b, w, [q]) <==> q == SUPER_ROOT || ParentForestPath(q) in b
    ensures CleanAt(b, w, [q], q) <==> KidRefs(b, q) == KidRefs(w, q)
  {
    hide Rooted, FoldPath, ParentForestPath, KidRefs, AtOrBelow, Lifted;
    assert [q][1..] == [];
    assert Folded(w, [q]) == {q};
    LiftedByOne(b.Keys + {q}, q, q);
    if q != SUPER_ROOT { ParentIsOther(q); }
  }

  /** Folding one path keeps the baseline a Merkle tree exactly when its directory is in the baseline and the
      baseline has below it the children the working node lists: for a file, none. */
  lemma CleanFoldIff(sha: Sha, b: Tree, preB: Preimages, w: Tree, preW: Preimages, q: string)
    requires Merkle(sha, b, preB) && Merkle(sha, w, preW) && q in w
    requires NoCollision(sha, preB.Values + preW.Values)
    ensures (exists pre :: Merkle(sha, FoldPath(sha, b, w, q), pre)) <==>
            (q == SUPER_ROOT || ParentForestPath(q) in b) && KidRefs(b, q) == KidRefs(w, q)
  {
    hide Shape, Rooted, FoldPath, FoldAll, NoCollision, ParentForestPath, KidRefs, Hashed, NoOrphans, CleanAt, AncestorsFirst, Folded;
    ShapeLinked(b);
    ShapeLinked(w);
    OneFold(sha, b, w, q);
    WholeBatchIff(sha, b, preB, w, preW, [q]);
  }

  // ---- States after a fold ----

  /** A directory that was hashed from its children is in neither sentinel state. */
  lemma KidsNoSentinel(sha: Sha, t: Tree, pre: Preimages, x: string)
    requires Merkle(sha, t, pre) && KidNames(t, x) != {} && NoCollision(sha, pre.Values + {UNREADABLE_BYTES})
    ensures x in t && !t[x].IsLeaf() && t[x].hash != UnreadableHash(sha)
    ensures StateHonest(sha, t, x) <==> t[x].state != Unreadable && t[x].state != EmptyDir
  {
    DirectoryBytes(sha, t, pre, x);
    assert UNREADABLE_BYTES in pre.Values + {UNREADABLE_BYTES} && pre[x] in pre.Values + {UNREADABLE_BYTES};
    assert pre[x] != UNREADABLE_BYTES by { assert NodeBytes(KidRefs(t, x))[0] == NODE_DOMAIN; }
    hide KidNames, KidRefs, NodeBytes;
  }

  lemma FoldAway(sha: Sha, b: Tree, u: Tree, w: Tree, q: string, x: string)
    requires AllLinked(b) && AllLinked(u) && FoldedView(b, u, w, {q}) && x in u && x != q && !Lifted(u.Keys, {q}, x)
    ensures x in b && u[x] == b[x] && KidNames(u, x) == KidNames(b, x)
  {
    hide Lifted, AllLinked, KidNames, KidRefs;
    assert FoldedAtPath(b, u, w, u.Keys, {q}, x);
    FoldKeepsKids(b, u, w, {q}, x);
  }

  lemma FoldAbove(sha: Sha, b: Tree, u: Tree, w: Tree, q: string, x: string)
    requires AllLinked(b) && AllLinked(u) && FoldedView(b, u, w, {q}) && x in u && x != q && Lifted(u.Keys, {q}, x)
    requires q in u && ParentForestPath(q) in b
    ensures x in b && u[x].state == b[x].state && KidNames(u, x) != {}
    ensures x != ParentForestPath(q) ==> KidNames(b, x) != {}
  {
    hide AllLinked, KidNames, Proper, LeafName, Lifted, ParentForestPath;
    assert FoldedAtPath(b, u, w, u.Keys, {q}, x);
    LiftedByOne(u.Keys, q, x);
    SolidBelow(u.Keys, x, q);
    LinkedBelow(u, x, q);
    if x != ParentForestPath(q) {
      SolidBelow(u.Keys, x, ParentForestPath(q));
      LinkedBelow(b, x, ParentForestPath(q));
    }
  }

  /** On the way to a node strictly below another there is a child of that one. */
  lemma LinkedBelow(t: Tree, x: string, y: string)
    requires AllLinked(t) && x != y && AtOrBelow(x, y) && y in t
    ensures KidNames(t, x) != {}
  {
    hide AllLinked, KidNames;
    var c := Toward(x, y);
    AncestorInTree(t, c, y);
    PlacedIsKid(t, c);
  }

  /** A clean fold keeps the states honest exactly when the directory it lands in was not recorded as empty or
      unreadable: the refold gives it children and a hash, and leaves its state. */
  lemma FoldKeepsStatesIff(sha: Sha, b: Tree, preB: Preimages, w: Tree, preW: Preimages, preU: Preimages, q: string)
    requires Merkle(sha, b, preB) && Merkle(sha, w, preW) && q in w && q != SUPER_ROOT
    requires Rooted(b) && Rooted(w) && Merkle(sha, FoldPath(sha, b, w, q), preU) && ParentForestPath(q) in b
    requires NoCollision(sha, preB.Values + preW.Values) && NoCollision(sha, preB.Values + {UNREADABLE_BYTES})
    requires NoCollision(sha, preU.Values + {UNREADABLE_BYTES})
    requires StatesHonest(sha, b) && StatesHonest(sha, w)
    ensures StatesHonest(sha, FoldPath(sha, b, w, q)) <==>
            b[ParentForestPath(q)].state != EmptyDir && b[ParentForestPath(q)].state != Unreadable
  {
    hide Merkle, Rooted, FoldPath, KidNames, KidRefs, NoCollision, Lifted, BatchReady, ParentForestPath, AllLinked, StateHonest, FoldAll, AtOrBelow;
    var u, p := FoldPath(sha, b, w, q), ParentForestPath(q);
    MerkleLinked(sha, b, preB);
    MerkleLinked(sha, w, preW);
    MerkleLinked(sha, u, preU);
    OneFold(sha, b, w, q);
    MerkleReady(sha, b, preB, w, preW, [q]);
    FoldAllView(sha, b, w, [q]);
    FoldAllKeys(sha, b, w, [q]);
    assert FoldedView(b, u, w, {q});
    OneUnlifted(u.Keys, q);
    CleanFoldIff(sha, b, preB, w, preW, q);
    assert exists pre :: Merkle(sha, u, pre);
    ParentIsOther(q);
    LiftedByOne(u.Keys, q, p);
    ParentSolid(u.Keys, q);
    FoldAbove(sha, b, u, w, q, p);
    KidsNoSentinel(sha, u, preU, p);
    forall x | x in u && x != p ensures StateHonest(sha, u, x) {
      if x == q {
        FoldedNodeHonest(sha, b, u, w, q);
      } else if Lifted(u.Keys, {q}, x) {
        FoldAbove(sha, b, u, w, q, x);
        KidsNoSentinel(sha, u, preU, x);
        KidsNoSentinel(sha, b, preB, x);
        assert StateHonest(sha, b, x);
      } else {
        FoldAway(sha, b, u, w, q, x);
        assert StateHonest(sha, b, x);
        SameStateHonest(sha, b, u, x);
      }
    }
  }

  lemma OneUnlifted(keys: set<string>, q: string)
    requires q in keys
    ensures !Lifted(keys, {q}, q)
  {
    hide Lifted, Solid;
    LiftedByOne(keys, q, q);
  }

  lemma ParentSolid(keys: set<string>, q: string)
    requires ParentForestPath(q) in keys
    ensures Solid(keys, ParentForestPath(q), ParentForestPath(q))
  {}

  lemma SameStateHonest(sha: Sha, b: Tree, u: Tree, x: string)
    requires x in b && x in u && u[x] == b[x] && KidNames(u, x) == KidNames(b, x) && StateHonest(sha, b, x)
    ensures StateHonest(sha, u, x)
  {
    hide KidNames;
  }

  lemma FoldedNodeHonest(sha: Sha, b: Tree, u: Tree, w: Tree, q: string)
    requires AllLinked(b) && AllLinked(u) && FoldedView(b, u, w, {q}) && q in u && !Lifted(u.Keys, {q}, q)
    requires q in w && StatesHonest(sha, w) && KidRefs(b, q) == KidRefs(w, q)
    ensures q in u && StateHonest(sha, u, q)
  {
    hide Lifted, AllLinked, KidNames, KidRefs;
    assert FoldedAtPath(b, u, w, u.Keys, {q}, q);
    FoldKeepsKids(b, u, w, {q}, q);
    RefsNameKids(b, w, q);
    assert StateHonest(sha, w, q);
    SameStateHonest(sha, w, u, q);
  }

  lemma MerkleLinked(sha: Sha, t: Tree, pre: Preimages)
    requires Merkle(sha, t, pre)
    ensures AllLinked(t)
  {}
}
