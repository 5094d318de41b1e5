/** What a new diff reports after a batch of folds (src/integrity/integrityEngine.ts, autoAccept), whatever the
    baseline was: with gaps, with children missing, or a Merkle tree. */
module BaselineDrift {
  import opened Utf8
  import opened ForestPaths
  import opened Folding
  import opened Options
  import opened MerkleTrees
  import opened TreeDiff
  import opened BaselineFold
  import opened CleanFolds

  /** The entries `verify` keeps for the policy: a leaf on either side, or one side only. */
  ghost predicate FileEntry(b: Tree, w: Tree, q: string) {
    (q in w && w[q].IsLeaf()) || (q in b && b[q].IsLeaf()) || (q in b) != (q in w)
  }

  // ---- How far the walk gets ----

  /** The walk from `r` comes to `x`: it goes below everything on the way. */
  predicate Reached(b: Tree, w: Tree, r: string, x: string)
    decreases |x|
  {
    x == r || (x != SUPER_ROOT && Descends(b, w, ParentForestPath(x)) && Reached(b, w, r, ParentForestPath(x)))
  }

  lemma {:induction false} ReachedBelow(b: Tree, w: Tree, r: string, x: string)
    requires Reached(b, w, r, x)
    ensures AtOrBelow(r, x)
    decreases |x|
  {
    if x != r { ReachedBelow(b, w, r, ParentForestPath(x)); }
  }

  lemma {:induction false} ReachedFrom(b: Tree, w: Tree, r: string, c: string, x: string)
    requires c != SUPER_ROOT && ParentForestPath(c) == r && AtOrBelow(c, x)
    ensures Reached(b, w, r, x) <==> Descends(b, w, r) && Reached(b, w, c, x)
    decreases |x|
  {
    hide Descends;
    AtOrBelowLength(c, x);
    if x != c { ReachedFrom(b, w, r, c, ParentForestPath(x)); }
  }

  lemma {:induction false} ReachedAt(b: Tree, w: Tree, r: string, y: string, x: string)
    requires Reached(b, w, r, x) && AtOrBelow(r, y) && AtOrBelow(y, x) && y != x
    ensures Descends(b, w, y) && Reached(b, w, r, y)
    decreases |x|
  {
    hide Descends;
    if x == r { AtOrBelowLength(r, y); AtOrBelowLength(y, x); }
    if y != ParentForestPath(x) { ReachedAt(b, w, r, y, ParentForestPath(x)); }
  }

  lemma WalkedKid(b: Tree, w: Tree, r: string, c: string)
    requires Rooted(b) && Rooted(w) && c != SUPER_ROOT && ParentForestPath(c) == r && (c in b || c in w)
    ensures LeafName(c) in KidNames(b, r) + KidNames(w, r) && JoinPath(r, LeafName(c)) == c
  {
    hide KidNames;
    if c in b { PlacedIsKid(b, c); } else { PlacedIsKid(w, c); }
  }

  /** Of any two stored trees, Merkle or not, the walk reports what it reaches, and reaches what nothing on the
      way hides. */
  lemma {:induction false} WalkIff(b: Tree, w: Tree, r: string, e: DriftEntry)
    requires Rooted(b) && Rooted(w)
    ensures e in Drift(b, w, r) <==> Reached(b, w, r, e.path) && e in OwnEntries(b, w, e.path)
    decreases Below(b, w, r)
  {
    hide KidNames, Below, WalkedNames, Rooted, Descends, Reached, DriftOfKids;
    var x := e.path;
    assert Reached(b, w, r, r) by { ReachedSelf(b, w, r); }
    if Descends(b, w, r) {
      var names := WalkedNames(b, w, r);
      KidsMember(b, w, r, names, e);
      if n :| n in names && e in Drift(b, w, JoinPath(r, n)) {
        KidIsDeeper(b, w, r, n);
        WalkIff(b, w, JoinPath(r, n), e);
        ReachedBelow(b, w, JoinPath(r, n), x);
        ReachedFrom(b, w, r, JoinPath(r, n), x);
      }
    }
    if Reached(b, w, r, x) && e in OwnEntries(b, w, x) && x != r {
      ReachedBelow(b, w, r, x);
      var c := Toward(r, x);
      ReachedFrom(b, w, r, c, x);
      ReachedPresent(b, w, c, x);
      WalkedKid(b, w, r, c);
      KidIsDeeper(b, w, r, LeafName(c));
      WalkIff(b, w, c, e);
      KidsMember(b, w, r, WalkedNames(b, w, r), e);
    }
  }

  lemma ReachedSelf(b: Tree, w: Tree, r: string)
    ensures Reached(b, w, r, r)
  {}

  lemma ReachedPresent(b: Tree, w: Tree, c: string, x: string)
    requires Reached(b, w, c, x) && OwnEntries(b, w, x) != []
    ensures c in b || c in w
  {
    if c != x {
      ReachedBelow(b, w, c, x);
      assert AtOrBelow(c, c);
      ReachedAt(b, w, c, c, x);
    }
  }

  // ---- The new diff in terms of the old baseline ----

  /** Where a refold came by, the walk of the next diff goes below as far as anything below differs. Below a node
      that was copied and not refolded since it never goes. */
  ghost predicate Passes(b: Tree, w: Tree, keys: set<string>, folded: set<string>, y: string) {
    Lifted(keys, folded, y) || (y !in folded && Descends(b, w, y))
  }

  ghost predicate StillReached(b: Tree, w: Tree, keys: set<string>, folded: set<string>, r: string, x: string)
    decreases |x|
  {
    x == r
    || (x != SUPER_ROOT && Passes(b, w, keys, folded, ParentForestPath(x)) && StillReached(b, w, keys, folded, r, ParentForestPath(x)))
  }

  /** What a batch leaves of the file drift. */
  ghost predicate LeftAt(b: Tree, w: Tree, folded: set<string>, r: string, e: DriftEntry) {
    var keys, x := b.Keys + folded, e.path;
    && x !in folded && !Lifted(keys, folded, x)
    && StillReached(b, w, keys, folded, r, x) && FileEntry(b, w, x) && e in OwnEntries(b, w, x)
  }

  /** The nodes a refold came by are folded from their children. */
  ghost predicate LiftedHashed(sha: Sha, u: Tree, folded: set<string>) {
    forall y | y in u && Lifted(u.Keys, folded, y) :: u[y].hash == sha(NodeBytes(KidRefs(u, y)))
  }

  ghost function LiftedBytes(u: Tree, folded: set<string>): set<seq<byte>> {
    set y | y in u && Lifted(u.Keys, folded, y) :: NodeBytes(KidRefs(u, y))
  }

  lemma LiftedKid(keys: set<string>, folded: set<string>, y: string) returns (c: string)
    requires Lifted(keys, folded, y)
    ensures y in keys && c in keys && c != SUPER_ROOT && ParentForestPath(c) == y && Solid(keys, y, c)
    ensures exists f | f in folded :: AtOrBelow(c, f)
  {
    var f :| f in folded && f != y && Solid(keys, y, f);
    SolidBelow(keys, y, f);
    c := Toward(y, f);
    SolidPart(keys, y, c, f);
  }

  /** A lifted node is a directory of the working tree, and has children on both sides. */
  lemma LiftedIsDirectory(b: Tree, u: Tree, w: Tree, folded: set<string>, y: string)
    requires Rooted(u) && Shape(w) && FoldedView(b, u, w, folded) && Lifted(u.Keys, folded, y)
    ensures y in u && !u[y].IsLeaf() && KidNames(u, y) != {}
    ensures y in w && !w[y].IsLeaf() && KidNames(w, y) != {}
  {
    hide KidNames, Lifted, Shape, Solid;
    var c := LiftedKid(u.Keys, folded, y);
    assert FoldedAtPath(b, u, w, u.Keys, folded, y);
    PlacedIsKid(u, c);
    var f :| f in folded && AtOrBelow(c, f);
    ShapeLinked(w);
    AncestorInTree(w, c, f);
    PlacedIsKid(w, c);
    KidsHaveParent(w, y);
  }

  /** Equal hashes of a lifted node and its working node mean the same children with the same hashes. */
  lemma LiftedAgrees(sha: Sha, b: Tree, u: Tree, w: Tree, preW: Preimages, folded: set<string>, y: string, c: string)
    requires Rooted(u) && PlainNames(u) && Merkle(sha, w, preW) && FoldedView(b, u, w, folded)
    requires LiftedHashed(sha, u, folded) && NoCollision(sha, LiftedBytes(u, folded) + preW.Values)
    requires Lifted(u.Keys, folded, y) && y in u && y in w && u[y].hash == w[y].hash
    requires c != SUPER_ROOT && ParentForestPath(c) == y
    ensures !Differs(u, w, c)
  {
    hide Lifted, KidNames, KidRefs, NodeBytes, Shape, Hashed, PlainNames, Rooted;
    LiftedIsDirectory(b, u, w, folded, y);
    DirectoryBytes(sha, w, preW, y);
    assert NodeBytes(KidRefs(u, y)) in LiftedBytes(u, folded);
    assert NodeBytes(KidRefs(u, y)) == NodeBytes(KidRefs(w, y));
    PlainRefs(u, y);
    ShapeLinked(w);
    KidRefsNulFree(w, y);
    NodeBytesInjective(KidRefs(u, y), KidRefs(w, y));
    SameRefsSameKid(u, w, y, c);
  }

  lemma PlainRefs(t: Tree, p: string)
    requires Rooted(t) && PlainNames(t)
    ensures NulFree(KidRefs(t, p))
  {
    hide LeafName, Rooted, KidRefs, JoinPath;
    KidRefsElements(t, p);
    forall r | r in KidRefs(t, p) ensures '\0' !in r.name {
      var q :| q in t && t[q].parentPath == Some(p) && LeafName(q) == r.name;
    }
  }

  lemma SameRefsSameKid(u: Tree, w: Tree, y: string, c: string)
    requires Rooted(u) && Rooted(w) && forall r :: r in KidRefs(u, y) <==> r in KidRefs(w, y)
    requires c != SUPER_ROOT && ParentForestPath(c) == y
    ensures !Differs(u, w, c)
  {
    hide KidNames, KidRefs, Rooted, LeafName, JoinPath;
    KidRefsElements(u, y);
    KidRefsElements(w, y);
    var n := LeafName(c);
    if c in u {
      PlacedIsKid(u, c);
      assert ChildRef(n, HashAt(u, c)) in KidRefs(w, y);
      KidPlaced(w, y, n);
    }
    if c in w {
      PlacedIsKid(w, c);
      assert ChildRef(n, HashAt(w, c)) in KidRefs(u, y);
      KidPlaced(u, y, n);
    }
  }

  /** Above something that differs the new walk goes below exactly what passes. */
  lemma PassesIff(sha: Sha, b: Tree, u: Tree, w: Tree, preW: Preimages, folded: set<string>, y: string, c: string)
    requires Rooted(u) && PlainNames(u) && Merkle(sha, w, preW) && FoldedView(b, u, w, folded)
    requires LiftedHashed(sha, u, folded) && NoCollision(sha, LiftedBytes(u, folded) + preW.Values)
    requires c != SUPER_ROOT && ParentForestPath(c) == y && Differs(u, w, c)
    ensures Descends(u, w, y) <==> Passes(b, w, u.Keys, folded, y)
  {
    hide Lifted, Merkle, PlainNames, Rooted, Differs, LiftedHashed, NoCollision, LiftedBytes;
    if Lifted(u.Keys, folded, y) {
      MerkleShape(sha, w, preW);
      LiftedIsDirectory(b, u, w, folded, y);
      if u[y].hash == w[y].hash { LiftedAgrees(sha, b, u, w, preW, folded, y, c); }
    } else if y in u {
      assert FoldedAtPath(b, u, w, u.Keys, folded, y);
    }
  }

  lemma MerkleShape(sha: Sha, t: Tree, pre: Preimages)
    requires Merkle(sha, t, pre)
    ensures Shape(t) && AllLinked(t)
  {}

  lemma {:induction false} ReachedAfter(sha: Sha, b: Tree, u: Tree, w: Tree, preW: Preimages, folded: set<string>, r: string, x: string)
    requires Rooted(u) && PlainNames(u) && Merkle(sha, w, preW) && FoldedView(b, u, w, folded)
    requires LiftedHashed(sha, u, folded) && NoCollision(sha, LiftedBytes(u, folded) + preW.Values)
    requires Differs(u, w, x)
    ensures Reached(u, w, r, x) <==> StillReached(b, w, u.Keys, folded, r, x)
    decreases |x|
  {
    hide Lifted, Merkle, PlainNames, Rooted, LiftedHashed, NoCollision, LiftedBytes, FoldedView, Passes;
    if x != r && x != SUPER_ROOT {
      var y := ParentForestPath(x);
      PassesIff(sha, b, u, w, preW, folded, y, x);
      if Descends(u, w, y) { ReachedAfter(sha, b, u, w, preW, folded, r, y); }
    }
  }

  /** Whatever the baseline was, the file drift after a batch is what `LeftAt` says. */
  lemma FileDriftAfterBatch(sha: Sha, b: Tree, u: Tree, w: Tree, preW: Preimages, folded: set<string>, r: string, e: DriftEntry)
    requires Rooted(b) && Rooted(u) && PlainNames(u) && Merkle(sha, w, preW) && FoldedView(b, u, w, folded)
    requires LiftedHashed(sha, u, folded) && NoCollision(sha, LiftedBytes(u, folded) + preW.Values)
    ensures Rooted(w) && (e in Drift(u, w, r) && FileEntry(u, w, e.path) <==> LeftAt(b, w, folded, r, e))
  {
    hide Drift, Lifted, Merkle, PlainNames, LiftedHashed, NoCollision, LiftedBytes, Reached, StillReached, Rooted;
    var x := e.path;
    MerkleShape(sha, w, preW);
    WalkIff(u, w, r, e);
    assert u.Keys == b.Keys + folded;
    if x in u { assert FoldedAtPath(b, u, w, u.Keys, folded, x); }
    if Lifted(u.Keys, folded, x) {
      LiftedIsDirectory(b, u, w, folded, x);
    } else if x !in folded && e in OwnEntries(b, w, x) {
      assert Differs(u, w, x);
      ReachedAfter(sha, b, u, w, preW, folded, r, x);
    }
  }

  /** A batch leaves every node a refold came by folded from its children, whatever the baseline was. */
  lemma BatchLifts(sha: Sha, b: Tree, w: Tree, paths: seq<string>)
    requires BatchReady(b, w, paths) && Shape(w)
    ensures FoldedView(b, FoldAll(sha, b, w, paths), w, Folded(w, paths))
    ensures LiftedHashed(sha, FoldAll(sha, b, w, paths), Folded(w, paths))
  {
    hide Rooted, Shape, FoldAll, Folded, KidNames, KidRefs, NodeBytes, Lifted, AncestorsFirst, SortedNames;
    var u, folded := FoldAll(sha, b, w, paths), Folded(w, paths);
    FoldAllView(sha, b, w, paths);
    var pre := FoldAllOpens(sha, b, map[], b.Keys, w, paths);
    forall y | y in u && Lifted(u.Keys, folded, y) ensures u[y].hash == sha(NodeBytes(KidRefs(u, y))) {
      LiftedIsDirectory(b, u, w, folded, y);
      SettledAt(sha, u, pre, OpenAfterAll(u.Keys, b.Keys, folded), y);
    }
  }

  lemma BatchKeepsPlain(sha: Sha, b: Tree, w: Tree, paths: seq<string>)
    requires Rooted(b) && Rooted(w) && PlainNames(b) && PlainNames(w)
    ensures PlainNames(FoldAll(sha, b, w, paths))
  {
    hide LeafName, Rooted, FoldAll;
    FoldAllKeys(sha, b, w, paths);
  }

  /** Below a node that was copied and not refolded since, no later diff reports anything: not even what the
      baseline lacks there. */
  lemma SwallowedUnseen(b: Tree, u: Tree, w: Tree, folded: set<string>, r: string, q: string, e: DriftEntry)
    requires Rooted(u) && Rooted(w) && FoldedView(b, u, w, folded) && q in folded && !Lifted(u.Keys, folded, q)
    requires AtOrBelow(r, q) && e in Drift(u, w, r)
    ensures !AtOrBelow(q, e.path)
  {
    hide Drift, Lifted, Rooted, Reached;
    assert FoldedAtPath(b, u, w, u.Keys, folded, q);
    WalkIff(u, w, r, e);
    if AtOrBelow(q, e.path) && q != e.path { ReachedAt(u, w, r, q, e.path); }
  }

  // ---- The same with a Merkle baseline, in terms of the old diff ----

  /** Strictly above `x` a node was copied and not refolded since: its hash stands for contents the walk never
      looks at. */
  ghost predicate Swallowed(keys: set<string>, folded: set<string>, r: string, x: string) {
    exists q | q in folded :: !Lifted(keys, folded, q) && q != x && AtOrBelow(r, q) && AtOrBelow(q, x)
  }

  /** A path below a directory that was added and is whole down to there: the old walk stopped above. */
  ghost predicate Exposed(b: Tree, w: Tree, keys: set<string>, r: string, e: DriftEntry) {
    && e.path != r && AtOrBelow(r, e.path) && e.path in w && e.path !in b
    && ParentForestPath(e.path) !in b && Solid(keys, r, ParentForestPath(e.path))
    && e == AddedEntry(e.path, w[e.path])
  }

  lemma {:induction false} StillReachedAt(b: Tree, w: Tree, keys: set<string>, folded: set<string>, r: string, y: string, x: string)
    requires StillReached(b, w, keys, folded, r, x) && AtOrBelow(r, y) && AtOrBelow(y, x) && y != x
    ensures Passes(b, w, keys, folded, y) && StillReached(b, w, keys, folded, r, y)
    decreases |x|
  {
    hide Passes;
    if x == r { AtOrBelowLength(r, y); AtOrBelowLength(y, x); }
    if y != ParentForestPath(x) { StillReachedAt(b, w, keys, folded, r, y, ParentForestPath(x)); }
  }

  lemma {:induction false} StillReachedBelow(b: Tree, w: Tree, keys: set<string>, folded: set<string>, r: string, x: string)
    requires StillReached(b, w, keys, folded, r, x)
    ensures AtOrBelow(r, x)
    decreases |x|
  {
    hide Passes;
    if x != r { StillReachedBelow(b, w, keys, folded, r, ParentForestPath(x)); }
  }

  /** Every node on a way that passes is there. */
  lemma {:induction false} PassedIsSolid(b: Tree, w: Tree, keys: set<string>, folded: set<string>, r: string, x: string)
    requires StillReached(b, w, keys, folded, r, x) && x != r && b.Keys <= keys
    ensures Solid(keys, r, ParentForestPath(x))
    decreases |x|
  {
    hide AtOrBelow;
    var y := ParentForestPath(x);
    if Lifted(keys, folded, y) {
      var f :| f in folded && f != y && Solid(keys, y, f);
      SolidBelow(keys, y, f);
    }
    if y != r { PassedIsSolid(b, w, keys, folded, r, y); }
  }

  /** A way on which everything passes in one sense or the other. */
  lemma {:induction false} AllPass(b: Tree, w: Tree, keys: set<string>, folded: set<string>, r: string, x: string)
    requires AtOrBelow(r, x) && forall y | AtOrBelow(r, y) && AtOrBelow(y, x) && y != x :: Passes(b, w, keys, folded, y)
    ensures StillReached(b, w, keys, folded, r, x)
    decreases |x|
  {
    hide Passes;
    if x != r {
      var up := ParentForestPath(x);
      AncestorsAreShorter(x);
      assert AtOrBelow(up, up);
      AllPass(b, w, keys, folded, r, up);
    }
  }

  /** Where the old walk did not come, it stopped at a node on the way. */
  lemma {:induction false} StoppedAt(b: Tree, w: Tree, r: string, x: string) returns (y: string)
    requires AtOrBelow(r, x) && !Reached(b, w, r, x)
    ensures AtOrBelow(r, y) && AtOrBelow(y, x) && y != x && !Descends(b, w, y)
    decreases |x|
  {
    hide Descends;
    var up := ParentForestPath(x);
    AncestorsAreShorter(x);
    assert AtOrBelow(up, up);
    if Descends(b, w, up) { y := StoppedAt(b, w, r, up); } else { y := up; }
  }

  /** In a Merkle baseline the walk stops above real drift only at a missing node. */
  lemma StoppedAtMissing(sha: Sha, b: Tree, preB: Preimages, w: Tree, preW: Preimages, y: string, x: string)
    requires Merkle(sha, b, preB) && Merkle(sha, w, preW) && NoCollision(sha, preB.Values + preW.Values)
    requires AtOrBelow(y, x) && y in w && !w[y].IsLeaf() && !Descends(b, w, y) && OwnEntries(b, w, x) != []
    ensures y !in b && x !in b && x in w
  {
    hide Shape, Hashed, NoCollision;
    if y in b { HashBindsSubtree(sha, b, preB, w, preW, y, x); }
    MerkleShape(sha, b, preB);
    if x in b { AncestorInTree(b, y, x); }
  }

  lemma WorkingDirectory(w: Tree, y: string, x: string)
    requires Shape(w) && x in w && AtOrBelow(y, x) && y != x
    ensures y in w && !w[y].IsLeaf()
  {
    hide KidNames;
    var c := Toward(y, x);
    AncestorInTree(w, c, x);
    PlacedIsKid(w, c);
    KidsHaveParent(w, y);
  }

  lemma LiftedInWorking(w: Tree, keys: set<string>, folded: set<string>, y: string)
    requires Shape(w) && folded <= w.Keys && Lifted(keys, folded, y)
    ensures y in w && !w[y].IsLeaf() && y in keys
  {
    hide Shape;
    var f :| f in folded && f != y && Solid(keys, y, f);
    SolidBelow(keys, y, f);
    WorkingDirectory(w, y, f);
  }

  lemma LeftIsOldOrExposed(
    sha: Sha, b: Tree, preB: Preimages, w: Tree, preW: Preimages, folded: set<string>, r: string, e: DriftEntry)
    requires Rooted(b) && Rooted(w) && Merkle(sha, b, preB) && Merkle(sha, w, preW) && NoCollision(sha, preB.Values + preW.Values)
    requires folded <= w.Keys && LeftAt(b, w, folded, r, e)
    ensures !Swallowed(b.Keys + folded, folded, r, e.path)
    ensures e in Drift(b, w, r) || Exposed(b, w, b.Keys + folded, r, e)
  {
    hide Drift, Lifted, Merkle, NoCollision, Reached, StillReached, Rooted, Descends, AtOrBelow, Solid;
    var keys, x := b.Keys + folded, e.path;
    StillReachedBelow(b, w, keys, folded, r, x);
    forall q | q in folded && !Lifted(keys, folded, q) && q != x && AtOrBelow(r, q) ensures !AtOrBelow(q, x) {
      if AtOrBelow(q, x) { StillReachedAt(b, w, keys, folded, r, q, x); }
    }
    WalkIff(b, w, r, e);
    if !Reached(b, w, r, x) {
      var y := StoppedAt(b, w, r, x);
      StillReachedAt(b, w, keys, folded, r, y, x);
      MerkleShape(sha, w, preW);
      MerkleShape(sha, b, preB);
      LiftedInWorking(w, keys, folded, y);
      StoppedAtMissing(sha, b, preB, w, preW, y, x);
      NotSelf(r, y, x);
      PassedIsSolid(b, w, keys, folded, r, x);
      ParentMissing(b, y, x);
    }
  }

  lemma NotSelf(r: string, y: string, x: string)
    requires AtOrBelow(r, y) && AtOrBelow(y, x) && y != x
    ensures x != r
  {
    AtOrBelowLength(r, y);
    AtOrBelowLength(y, x);
  }

  lemma ParentMissing(b: Tree, y: string, x: string)
    requires AllLinked(b) && y !in b && AtOrBelow(y, x) && y != x
    ensures ParentForestPath(x) !in b
  {
    if ParentForestPath(x) in b { AncestorInTree(b, y, ParentForestPath(x)); }
  }

  lemma OldOrExposedIsLeft(
    sha: Sha, b: Tree, preB: Preimages, w: Tree, preW: Preimages, folded: set<string>, r: string, e: DriftEntry)
    requires Rooted(b) && Rooted(w) && Merkle(sha, b, preB) && Merkle(sha, w, preW) && NoCollision(sha, preB.Values + preW.Values)
    requires folded <= w.Keys && e.path !in folded && !Lifted(b.Keys + folded, folded, e.path)
    requires !Swallowed(b.Keys + folded, folded, r, e.path)
    requires (e in Drift(b, w, r) && FileEntry(b, w, e.path))
          || Exposed(b, w, b.Keys + folded, r, e)
    ensures LeftAt(b, w, folded, r, e)
  {
    hide Drift, Lifted, Merkle, NoCollision, Reached, StillReached, Rooted, Descends, AtOrBelow, Solid;
    var keys, x := b.Keys + folded, e.path;
    WalkIff(b, w, r, e);
    if e in Drift(b, w, r) { ReachedBelow(b, w, r, x); }
    forall y | AtOrBelow(r, y) && AtOrBelow(y, x) && y != x ensures Passes(b, w, keys, folded, y) {
      if e in Drift(b, w, r) {
        ReachedAt(b, w, r, y, x);
      } else {
        ExposedWay(sha, b, preB, w, preW, keys, r, y, e);
      }
    }
    AllPass(b, w, keys, folded, r, x);
  }

  lemma ExposedWay(sha: Sha, b: Tree, preB: Preimages, w: Tree, preW: Preimages, keys: set<string>, r: string, y: string, e: DriftEntry)
    requires Merkle(sha, b, preB) && Merkle(sha, w, preW) && NoCollision(sha, preB.Values + preW.Values)
    requires Exposed(b, w, keys, r, e) && AtOrBelow(r, y) && AtOrBelow(y, e.path) && y != e.path
    ensures y in keys && (y in b ==> Descends(b, w, y))
  {
    hide Shape, Hashed, NoCollision, Solid;
    var x := e.path;
    MerkleShape(sha, w, preW);
    WorkingDirectory(w, y, x);
    SolidPart(keys, r, y, ParentForestPath(x));
    SolidBelow(keys, r, y);
    if y in b && b[y].hash == w[y].hash { HashBindsSubtree(sha, b, preB, w, preW, y, x); }
  }

  /** With a Merkle baseline: what is left is old file drift and exposed children, except what was folded, what
      turned into a directory above a fold, and what a copied directory swallowed. */
  lemma LeftAfterMerkle(
    sha: Sha, b: Tree, preB: Preimages, w: Tree, preW: Preimages, folded: set<string>, r: string, e: DriftEntry)
    requires Rooted(b) && Rooted(w) && Merkle(sha, b, preB) && Merkle(sha, w, preW) && NoCollision(sha, preB.Values + preW.Values)
    requires folded <= w.Keys
    ensures LeftAt(b, w, folded, r, e) <==>
      && e.path !in folded && !Lifted(b.Keys + folded, folded, e.path) && !Swallowed(b.Keys + folded, folded, r, e.path)
      && ((e in Drift(b, w, r) && FileEntry(b, w, e.path))
          || Exposed(b, w, b.Keys + folded, r, e))
  {
    hide Drift, Lifted, Merkle, NoCollision, StillReached, Rooted, Exposed, Swallowed;
    if LeftAt(b, w, folded, r, e) {
      LeftIsOldOrExposed(sha, b, preB, w, preW, folded, r, e);
    } else if e.path !in folded && !Lifted(b.Keys + folded, folded, e.path) && !Swallowed(b.Keys + folded, folded, r, e.path) {
      if (e in Drift(b, w, r) && FileEntry(b, w, e.path))
         || Exposed(b, w, b.Keys + folded, r, e)
      {
        OldOrExposedIsLeft(sha, b, preB, w, preW, folded, r, e);
      }
    }
  }

  /** Where every directory a refold came by was a directory of the baseline, nothing is exposed and no file
      became one. */
  lemma PlainRemains(
    sha: Sha, b: Tree, preB: Preimages, w: Tree, preW: Preimages, folded: set<string>, r: string, e: DriftEntry)
    requires Rooted(b) && Rooted(w) && Merkle(sha, b, preB) && Merkle(sha, w, preW) && NoCollision(sha, preB.Values + preW.Values)
    requires folded <= w.Keys && forall x | Lifted(b.Keys + folded, folded, x) :: x in b && !b[x].IsLeaf()
    ensures LeftAt(b, w, folded, r, e) <==>
      && e in Drift(b, w, r) && FileEntry(b, w, e.path) && e.path !in folded
      && !Swallowed(b.Keys + folded, folded, r, e.path)
  {
    hide Drift, Lifted, Merkle, NoCollision, LeftAt, Rooted, Swallowed;
    LeftAfterMerkle(sha, b, preB, w, preW, folded, r, e);
    MerkleShape(sha, w, preW);
    if Lifted(b.Keys + folded, folded, e.path) { LiftedInWorking(w, b.Keys + folded, folded, e.path); }
    if Exposed(b, w, b.Keys + folded, r, e) && !Swallowed(b.Keys + folded, folded, r, e.path) {
      ExposedParent(b, w, folded, r, e);
    }
  }

  lemma ExposedParent(b: Tree, w: Tree, folded: set<string>, r: string, e: DriftEntry)
    requires Exposed(b, w, b.Keys + folded, r, e) && !Swallowed(b.Keys + folded, folded, r, e.path)
    ensures ParentForestPath(e.path) !in b && Lifted(b.Keys + folded, folded, ParentForestPath(e.path))
  {
    hide Lifted, Solid;
    var p := ParentForestPath(e.path);
    SolidBelow(b.Keys + folded, r, p);
    AncestorsAreShorter(e.path);
    assert AtOrBelow(p, p) && AtOrBelow(p, e.path);
  }
}
