/** Folding working nodes into the baseline and refolding the directories above them
    (src/integrity/integrityEngine.ts, foldLeafIntoBaseline and refoldPathToRoot). */
module BaselineFold {
  import opened Utf8
  import opened ForestPaths
  import opened Folding
  import opened Options
  import opened MerkleTrees

  /** `p` with its hash and child list recomputed from its children; a childless node keeps its hash. */
  ghost function RefoldNode(sha: Sha, t: Tree, p: string): StoredNode
    requires p in t
  {
    t[p].(
      hash := if KidNames(t, p) == {} then t[p].hash else FoldRefs(sha, KidRefs(t, p)),
      childNames := Some(SortedNames(KidNames(t, p)))
    )
  }

  /** `m` is `n` after a refold: only the hash and the child list may differ, and there is a list. */
  predicate Rehashed(n: StoredNode, m: StoredNode) {
    m == n.(hash := m.hash, childNames := m.childNames) && !m.IsLeaf()
  }

  lemma PutRooted(t: Tree, n: StoredNode)
    requires Rooted(t) && RootedNode(n)
    ensures Rooted(t[n.path := n])
  {
    var u := t[n.path := n];
    forall q | q in u ensures RootedNode(u[q]) && u[q].path == q {
      if q != n.path { RootedAt(t, q); }
    }
  }

  lemma RefoldNodeRooted(sha: Sha, t: Tree, p: string)
    requires Rooted(t) && p in t
    ensures Rooted(t[p := RefoldNode(sha, t, p)])
    ensures RootedNode(RefoldNode(sha, t, p)) && RefoldNode(sha, t, p).path == p
    ensures Rehashed(t[p], RefoldNode(sha, t, p))
    ensures t[p].parentPath == if p == SUPER_ROOT then None else Some(ParentForestPath(p))
  {
    hide KidNames, SortedNames, KidRefs, Proper, ParentForestPath, Rooted;
    RootedAt(t, p);
    PutRooted(t, RefoldNode(sha, t, p));
  }

  /** Recomputes the nodes from `up` to the super-root, lowest first, as long as they are there. */
  ghost function Refold(sha: Sha, t: Tree, up: Option<string>): (r: Tree)
    requires Rooted(t)
    ensures Rooted(r)
    decreases if up.None? then 0 else |up.value| + 1
  {
    if up.None? || up.value !in t then t
    else
      RefoldNodeRooted(sha, t, up.value);
      Refold(sha, t[up.value := RefoldNode(sha, t, up.value)], t[up.value].parentPath)
  }

  /** Writes the node and refolds from its parent up. */
  ghost function FoldInto(sha: Sha, t: Tree, n: StoredNode): (r: Tree)
    requires Rooted(t) && RootedNode(n)
    ensures Rooted(r)
  {
    PutRooted(t, n);
    Refold(sha, t[n.path := n], n.parentPath)
  }

  /** `foldLeafIntoBaseline` at one level: a path the working tree lacks is skipped. */
  ghost function FoldPath(sha: Sha, b: Tree, w: Tree, q: string): (r: Tree)
    requires Rooted(b) && Rooted(w)
    ensures Rooted(r)
  {
    if q in w then RootedAt(w, q); FoldInto(sha, b, w[q]) else b
  }

  ghost function FoldAll(sha: Sha, b: Tree, w: Tree, paths: seq<string>): (r: Tree)
    requires Rooted(b) && Rooted(w)
    ensures Rooted(r)
    decreases |paths|
  {
    if paths == [] then b else FoldAll(sha, FoldPath(sha, b, w, paths[0]), w, paths[1..])
  }

  // ---- What a refold touches ----

  /** A refold from `p` recomputes hash and child list of the nodes from `p` up to the first gap, no others. */
  ghost predicate Touched(t: Tree, u: Tree, p: string) {
    u.Keys == t.Keys && forall x | x in t :: if Solid(t.Keys, x, p) then Rehashed(t[x], u[x]) else u[x] == t[x]
  }

  lemma SolidStep(keys: set<string>, p: string)
    requires p in keys && p != SUPER_ROOT
    ensures forall x :: Solid(keys, x, p) <==> x == p || Solid(keys, x, ParentForestPath(p))
    ensures !Solid(keys, p, ParentForestPath(p))
  {
    if Solid(keys, p, ParentForestPath(p)) {
      SolidBelow(keys, p, ParentForestPath(p));
      AncestorsAreShorter(p);
    }
  }

  lemma TouchedStep(t: Tree, u: Tree, r: Tree, p: string)
    requires p in t && p != SUPER_ROOT && u.Keys == t.Keys && Rehashed(t[p], u[p])
    requires forall x | x in t && x != p :: u[x] == t[x]
    requires Touched(u, r, ParentForestPath(p))
    ensures Touched(t, r, p)
  {
    SolidStep(t.Keys, p);
    hide Solid, ParentForestPath;
  }

  lemma RootTouched(t: Tree, u: Tree)
    requires SUPER_ROOT in t && u.Keys == t.Keys && Rehashed(t[SUPER_ROOT], u[SUPER_ROOT])
    requires forall x | x in t && x != SUPER_ROOT :: u[x] == t[x]
    ensures Touched(t, u, SUPER_ROOT)
  {
    assert forall x :: Solid(t.Keys, x, SUPER_ROOT) <==> x == SUPER_ROOT;
    hide Solid;
  }

  lemma RefoldUnfolds(sha: Sha, t: Tree, up: Option<string>)
    requires Rooted(t)
    ensures up.None? || up.value !in t ==> Refold(sha, t, up) == t
    ensures up.Some? && up.value in t ==>
      Rooted(t[up.value := RefoldNode(sha, t, up.value)]) &&
      Refold(sha, t, up) == Refold(sha, t[up.value := RefoldNode(sha, t, up.value)], t[up.value].parentPath) &&
      (t[up.value].parentPath.Some? ==> |t[up.value].parentPath.value| < |up.value|)
  {
    hide RefoldNode, Rooted;
    if up.Some? && up.value in t { RefoldNodeRooted(sha, t, up.value); }
  }

  lemma {:induction false} RefoldTouches(sha: Sha, t: Tree, p: string)
    requires Rooted(t)
    ensures Touched(t, Refold(sha, t, Some(p)), p)
    decreases |p|
  {
    hide RefoldNode, Rooted, Refold, AtOrBelow, ParentForestPath;
    RefoldUnfolds(sha, t, Some(p));
    if p in t {
      var u := t[p := RefoldNode(sha, t, p)];
      RefoldNodeRooted(sha, t, p);
      if p == SUPER_ROOT {
        RefoldUnfolds(sha, u, None);
        RootTouched(t, u);
      } else {
        hide Touched;
        RefoldTouches(sha, u, ParentForestPath(p));
        TouchedStep(t, u, Refold(sha, t, Some(p)), p);
      }
    } else {
      assert forall x :: !Solid(t.Keys, x, p);
    }
  }

  // ---- The Merkle equations a refold restores ----

  /** The equation of one node, and no child below a file. */
  ghost predicate Settled(sha: Sha, t: Tree, x: string, bytes: seq<byte>)
    requires x in t
  {
    NodeHashed(sha, t, x, bytes) && (t[x].IsLeaf() ==> KidNames(t, x) == {})
  }

  /** Every node is settled, the ones in `open` perhaps apart. */
  ghost predicate MerkleBut(sha: Sha, t: Tree, pre: Preimages, open: set<string>) {
    Rooted(t) && forall x | x in t && x !in open :: x in pre && Settled(sha, t, x, pre[x])
  }

  lemma SettledAt(sha: Sha, t: Tree, pre: Preimages, open: set<string>, x: string)
    requires MerkleBut(sha, t, pre, open) && x in t && x !in open
    ensures x in pre && Settled(sha, t, x, pre[x])
  {}

  ghost predicate SameKids(t: Tree, u: Tree, x: string) {
    && KidNames(t, x) == KidNames(u, x)
    && forall n | n in KidNames(t, x) :: HashAt(t, JoinPath(x, n)) == HashAt(u, JoinPath(x, n))
  }

  /** A node keeps its equation while none of its children's hashes move. */
  lemma NodeHashedFrame(sha: Sha, t: Tree, u: Tree, p: string, bytes: seq<byte>)
    requires p in t && p in u && NodeHashed(sha, t, p, bytes)
    requires t[p].hash == u[p].hash && t[p].childNames == u[p].childNames
    requires KidNames(t, p) == KidNames(u, p)
    requires forall n | n in KidNames(t, p) :: HashAt(t, JoinPath(p, n)) == HashAt(u, JoinPath(p, n))
    ensures NodeHashed(sha, u, p, bytes)
  {
    KidRefsFrame(t, u, p);
  }

  lemma SettledFrame(sha: Sha, t: Tree, u: Tree, x: string, bytes: seq<byte>)
    requires x in t && x in u && u[x] == t[x] && SameKids(t, u, x) && Settled(sha, t, x, bytes)
    ensures Settled(sha, u, x, bytes)
  {
    hide KidNames, NodeHashed;
    NodeHashedFrame(sha, t, u, x, bytes);
  }

  lemma SameParentsSameKids(t: Tree, u: Tree, p: string)
    requires t.Keys == u.Keys && forall x | x in t :: t[x].parentPath == u[x].parentPath
    ensures KidNames(t, p) == KidNames(u, p)
  {}

  /** Only the parent of a written node sees it among its children. */
  lemma PutKeepsKids(t: Tree, n: StoredNode, x: string)
    requires Rooted(t) && RootedNode(n) && (n.path == SUPER_ROOT || x != ParentForestPath(n.path))
    ensures SameKids(t, t[n.path := n], x)
  {
    hide LeafName, Rooted, ParentForestPath, Proper, JoinPath;
    var u := t[n.path := n];
    if n.path in t { RootedAt(t, n.path); }
    assert KidNames(t, x) == KidNames(u, x);
    forall m | m in KidNames(t, x) ensures HashAt(t, JoinPath(x, m)) == HashAt(u, JoinPath(x, m)) {
      KidPlaced(t, x, m);
    }
  }

  lemma ParentIsOther(p: string)
    requires p != SUPER_ROOT
    ensures ParentForestPath(p) != p
  {}

  lemma RefoldSelf(sha: Sha, t: Tree, p: string)
    requires Rooted(t) && p in t && KidNames(t, p) != {}
    ensures Settled(sha, t[p := RefoldNode(sha, t, p)], p, NodeBytes(KidRefs(t, p)))
  {
    hide SortedNames, Rooted, NodeBytes, ParentForestPath, KidRefs, KidNames, RootedNode;
    var n := RefoldNode(sha, t, p);
    RefoldNodeRooted(sha, t, p);
    if p != SUPER_ROOT { ParentIsOther(p); }
    PutKeepsKids(t, n, p);
    KidRefsFrame(t, t[p := n], p);
  }

  /** The directory above `p`. */
  function Over(p: string): set<string> { if p == SUPER_ROOT then {} else {ParentForestPath(p)} }

  /** Refolding `p` settles `p` and opens only its parent. */
  lemma RefoldStep(sha: Sha, t: Tree, pre: Preimages, open: set<string>, p: string)
    requires MerkleBut(sha, t, pre, open) && p in t && KidNames(t, p) != {}
    ensures MerkleBut(sha, t[p := RefoldNode(sha, t, p)], pre[p := NodeBytes(KidRefs(t, p))], open - {p} + Over(p))
  {
    hide Settled, Rooted, RootedNode, KidNames, RefoldNode, KidRefs, NodeBytes, SameKids, ParentForestPath;
    var n := RefoldNode(sha, t, p);
    var u := t[p := n];
    RefoldNodeRooted(sha, t, p);
    forall x | x in u && x !in open - {p} + Over(p)
      ensures x in pre[p := NodeBytes(KidRefs(t, p))] && Settled(sha, u, x, pre[p := NodeBytes(KidRefs(t, p))][x])
    {
      if x == p {
        RefoldSelf(sha, t, p);
      } else {
        PutKeepsKids(t, n, x);
        SettledFrame(sha, t, u, x, pre[x]);
      }
    }
  }

  /** The nodes of `open` that do not lie on the unbroken way from `p` up. */
  function OffPath(keys: set<string>, open: set<string>, p: string): set<string> { set x | x in open && !Solid(keys, x, p) }

  lemma OffPathStep(keys: set<string>, open: set<string>, p: string)
    requires p in keys
    ensures p == SUPER_ROOT ==> open - {p} + Over(p) == OffPath(keys, open, p)
    ensures p != SUPER_ROOT ==> OffPath(keys, open - {p} + Over(p), ParentForestPath(p)) - OffPath(keys, open, p) <= Over(p) - keys
  {
    if p == SUPER_ROOT {
      assert forall x :: Solid(keys, x, SUPER_ROOT) <==> x == SUPER_ROOT;
    } else {
      SolidStep(keys, p);
      assert ParentForestPath(p) in keys ==> Solid(keys, ParentForestPath(p), ParentForestPath(p));
    }
  }

  lemma OpenInTree(sha: Sha, t: Tree, pre: Preimages, open: set<string>, fewer: set<string>)
    requires MerkleBut(sha, t, pre, open) && forall x | x in open && x !in fewer :: x !in t
    ensures MerkleBut(sha, t, pre, fewer)
  {
    hide Settled, Rooted;
  }

  lemma HangingKid(t: Tree, p: string)
    requires Rooted(t) && p in t && p != SUPER_ROOT
    ensures KidNames(t, ParentForestPath(p)) != {}
  {
    hide KidNames;
    PlacedIsKid(t, p);
  }

  /** Refolding from `p` up closes every open equation on its way and opens none. */
  lemma {:induction false} RefoldRestores(sha: Sha, t: Tree, pre: Preimages, open: set<string>, p: string) returns (pre': Preimages)
    requires Rooted(t) && MerkleBut(sha, t, pre, open) && KidNames(t, p) != {}
    ensures MerkleBut(sha, Refold(sha, t, Some(p)), pre', OffPath(t.Keys, open, p))
    decreases |p|
  {
    hide MerkleBut, Rooted, KidNames, RefoldNode, Refold, KidRefs, NodeBytes, ParentForestPath, Over, Touched, Solid;
    RefoldUnfolds(sha, t, Some(p));
    if p !in t {
      assert OffPath(t.Keys, open, p) == open by { forall x { NotSolid(t.Keys, x, p); } }
      pre' := pre;
    } else {
      RefoldNodeRooted(sha, t, p);
      RefoldStep(sha, t, pre, open, p);
      OffPathStep(t.Keys, open, p);
      var u, next, rest := t[p := RefoldNode(sha, t, p)], pre[p := NodeBytes(KidRefs(t, p))], open - {p} + Over(p);
      assert u.Keys == t.Keys;
      if p == SUPER_ROOT {
        RefoldUnfolds(sha, u, None);
        pre' := next;
      } else {
        HangingKid(u, p);
        pre' := RefoldRestores(sha, u, next, rest, ParentForestPath(p));
        var r := Refold(sha, t, Some(p));
        RefoldTouches(sha, t, p);
        TouchedKeys(t, r, p);
        OpenInTree(sha, r, pre', OffPath(t.Keys, rest, ParentForestPath(p)), OffPath(t.Keys, open, p));
      }
    }
  }

  lemma NotSolid(keys: set<string>, x: string, p: string)
    requires p !in keys
    ensures !Solid(keys, x, p)
  {}

  lemma TouchedKeys(t: Tree, u: Tree, p: string)
    requires Touched(t, u, p)
    ensures u.Keys == t.Keys
  {}

  // ---- One fold ----

  /** Writing a node opens only itself and its parent. */
  lemma PutOpens(sha: Sha, t: Tree, pre: Preimages, open: set<string>, n: StoredNode)
    requires MerkleBut(sha, t, pre, open) && RootedNode(n)
    ensures MerkleBut(sha, t[n.path := n], pre, open + {n.path} + Over(n.path))
  {
    hide Settled, Rooted, RootedNode, SameKids, ParentForestPath;
    var u := t[n.path := n];
    PutRooted(t, n);
    forall x | x in u && x !in open + {n.path} + Over(n.path) ensures x in pre && Settled(sha, u, x, pre[x]) {
      PutKeepsKids(t, n, x);
      SettledFrame(sha, t, u, x, pre[x]);
    }
  }

  /** What is open after `q` was folded: `q` itself if it was not refolded since, nothing on the way above it. */
  function OpenAfter(keys: set<string>, open: set<string>, q: string): set<string> {
    set x | x in open + {q} && (x == q || !Solid(keys + {q}, x, q))
  }

  lemma OpenAfterStep(keys: set<string>, open: set<string>, q: string)
    requires q in keys
    ensures q == SUPER_ROOT ==> OpenAfter(keys, open, q) == open + {q} + Over(q)
    ensures q != SUPER_ROOT ==> OffPath(keys, open + {q} + Over(q), ParentForestPath(q)) - OpenAfter(keys, open, q) <= Over(q) - keys
  {
    assert keys + {q} == keys;
    if q == SUPER_ROOT {
      assert forall x :: Solid(keys, x, SUPER_ROOT) <==> x == SUPER_ROOT;
    } else {
      SolidStep(keys, q);
      assert ParentForestPath(q) in keys ==> Solid(keys, ParentForestPath(q), ParentForestPath(q));
    }
  }

  lemma FoldStep(sha: Sha, t: Tree, pre: Preimages, open: set<string>, n: StoredNode) returns (pre': Preimages)
    requires Rooted(t) && MerkleBut(sha, t, pre, open) && RootedNode(n)
    ensures MerkleBut(sha, FoldInto(sha, t, n), pre', OpenAfter(t.Keys, open, n.path))
  {
    hide MerkleBut, Rooted, KidNames, Refold, ParentForestPath, Solid, Over, Touched, Proper, OffPath, OpenAfter;
    var u, q := t[n.path := n], n.path;
    var p := ParentForestPath(q);
    PutRooted(t, n);
    PutOpens(sha, t, pre, open, n);
    assert u.Keys == t.Keys + {q};
    assert OpenAfter(u.Keys, open, q) == OpenAfter(t.Keys, open, q) by { SameOpenAfter(t.Keys, open, q); }
    OpenAfterStep(u.Keys, open, q);
    if q == SUPER_ROOT {
      RefoldUnfolds(sha, u, None);
      pre' := pre;
    } else {
      HangingKid(u, q);
      pre' := RefoldRestores(sha, u, pre, open + {q} + Over(q), p);
      var r := FoldInto(sha, t, n);
      RefoldTouches(sha, u, p);
      TouchedKeys(u, r, p);
      OpenInTree(sha, r, pre', OffPath(u.Keys, open + {q} + Over(q), p), OpenAfter(t.Keys, open, q));
    }
  }

  lemma SameOpenAfter(keys: set<string>, open: set<string>, q: string)
    ensures OpenAfter(keys + {q}, open, q) == OpenAfter(keys, open, q)
  {
    assert keys + {q} + {q} == keys + {q};
  }

  // ---- A batch of folds ----

  /** No path comes before one of its ancestors, as in every sorted list. */
  ghost predicate AncestorsFirst(paths: seq<string>) {
    forall i, j | 0 <= i < j < |paths| :: paths[i] == paths[j] || !AtOrBelow(paths[j], paths[i])
  }

  ghost function Folded(w: Tree, paths: seq<string>): set<string> { set q | q in paths && q in w }

  /** `x` lies on the unbroken way above a folded path, so a refold came by. */
  ghost predicate Lifted(keys: set<string>, folded: set<string>, x: string) {
    exists f | f in folded :: f != x && Solid(keys, x, f)
  }

  ghost predicate BatchReady(b: Tree, w: Tree, paths: seq<string>) { Rooted(b) && Rooted(w) && AncestorsFirst(paths) }

  lemma FoldPathKeys(sha: Sha, b: Tree, w: Tree, q: string)
    requires Rooted(b) && Rooted(w)
    ensures FoldPath(sha, b, w, q).Keys == b.Keys + if q in w then {q} else {}
  {
    hide Rooted, Refold, Touched, Proper, ParentForestPath;
    if q in w {
      RootedAt(w, q);
      PutRooted(b, w[q]);
      if q == SUPER_ROOT {
        RefoldUnfolds(sha, b[q := w[q]], None);
      } else {
        RefoldTouches(sha, b[q := w[q]], ParentForestPath(q));
        TouchedKeys(b[q := w[q]], FoldPath(sha, b, w, q), ParentForestPath(q));
      }
    }
  }

  lemma FoldedSplit(w: Tree, paths: seq<string>)
    ensures paths == [] ==> Folded(w, paths) == {}
    ensures paths != [] ==> Folded(w, paths) == (if paths[0] in w then {paths[0]} else {}) + Folded(w, paths[1..])
  {
    if paths != [] { assert forall x :: x in paths <==> x == paths[0] || x in paths[1..]; }
  }

  lemma {:induction false} FoldAllKeys(sha: Sha, b: Tree, w: Tree, paths: seq<string>)
    requires Rooted(b) && Rooted(w)
    ensures FoldAll(sha, b, w, paths).Keys == b.Keys + Folded(w, paths)
    decreases |paths|
  {
    hide Rooted, FoldPath, Folded;
    FoldedSplit(w, paths);
    if paths != [] {
      FoldPathKeys(sha, b, w, paths[0]);
      FoldAllKeys(sha, FoldPath(sha, b, w, paths[0]), w, paths[1..]);
    }
  }

  lemma TailFirst(paths: seq<string>, q: string)
    requires AncestorsFirst(paths) && paths != [] && q in paths[1..]
    ensures q in paths && (q == paths[0] || !AtOrBelow(q, paths[0]))
  {}

  lemma BatchStep(sha: Sha, b: Tree, w: Tree, paths: seq<string>)
    requires BatchReady(b, w, paths) && paths != []
    ensures BatchReady(FoldPath(sha, b, w, paths[0]), w, paths[1..])
    ensures FoldPath(sha, b, w, paths[0]).Keys + Folded(w, paths[1..]) == b.Keys + Folded(w, paths)
  {
    hide Rooted, FoldPath, AtOrBelow, Folded;
    FoldedSplit(w, paths);
    FoldPathKeys(sha, b, w, paths[0]);
  }

  /** No later fold of a batch adds to the way above its first path. */
  lemma WayIsSettled(b: Tree, w: Tree, paths: seq<string>, x: string)
    requires AncestorsFirst(paths) && paths != [] && paths[0] in w
    ensures Solid(b.Keys + {paths[0]}, x, paths[0]) <==> Solid(b.Keys + Folded(w, paths), x, paths[0])
  {
    hide AtOrBelow, Solid, AncestorsFirst;
    var q, keys, all := paths[0], b.Keys + {paths[0]}, b.Keys + Folded(w, paths);
    assert keys <= all;
    forall y | y in all && y !in keys ensures !AtOrBelow(y, q) {
      assert y in paths[1..];
      TailFirst(paths, y);
    }
    SolidSame(keys, all, x, q);
  }

  lemma LiftedMore(keys: set<string>, rest: set<string>, q: string, x: string)
    ensures Lifted(keys, rest + {q}, x) <==> Lifted(keys, rest, x) || (q != x && Solid(keys, x, q))
  {
    if Lifted(keys, rest, x) { var f :| f in rest && f != x && Solid(keys, x, f); assert f in rest + {q}; }
    if q != x && Solid(keys, x, q) { assert q in rest + {q}; }
  }

  lemma NothingLifted(keys: set<string>, x: string)
    ensures !Lifted(keys, {}, x)
  {}

  /** A later path of the batch does not lie on the way above the first. */
  lemma LaterOffWay(keys: set<string>, paths: seq<string>, x: string)
    requires AncestorsFirst(paths) && paths != [] && x in paths[1..] && x != paths[0]
    ensures !Solid(keys, x, paths[0])
  {
    hide Solid, AtOrBelow;
    TailFirst(paths, x);
    if Solid(keys, x, paths[0]) { SolidBelow(keys, x, paths[0]); }
  }

  // ---- What is open after a batch ----

  /** The folded paths and what was open before, except where a refold came by. */
  ghost function OpenAfterAll(keys: set<string>, open: set<string>, folded: set<string>): set<string> {
    set x | x in open + folded && !Lifted(keys, folded, x)
  }

  lemma OpenAfterSplit(b: Tree, w: Tree, paths: seq<string>, open: set<string>)
    requires AncestorsFirst(paths) && paths != []
    ensures OpenAfterAll(b.Keys + Folded(w, paths), if paths[0] in w then OpenAfter(b.Keys, open, paths[0]) else open,
                         Folded(w, paths[1..]))
         <= OpenAfterAll(b.Keys + Folded(w, paths), open, Folded(w, paths))
  {
    var q, keys, rest := paths[0], b.Keys + Folded(w, paths), Folded(w, paths[1..]);
    FoldedSplit(w, paths);
    assert {} + rest == rest && {q} + rest == rest + {q};
    hide Solid, Lifted, AncestorsFirst;
    if q in w {
      forall x | x in OpenAfterAll(keys, OpenAfter(b.Keys, open, q), rest) ensures x in OpenAfterAll(keys, open, rest + {q}) {
        LiftedMore(keys, rest, q, x);
        if x in rest && x != q { LaterOffWay(keys, paths, x); } else { WayIsSettled(b, w, paths, x); }
      }
    }
  }

  /** A batch leaves open at most the folded paths and what was open before, where no refold came by. */
  lemma {:induction false} FoldAllOpens(sha: Sha, t: Tree, pre: Preimages, open: set<string>, w: Tree, paths: seq<string>)
    returns (pre': Preimages)
    requires MerkleBut(sha, t, pre, open) && BatchReady(t, w, paths)
    ensures MerkleBut(sha, FoldAll(sha, t, w, paths), pre', OpenAfterAll(t.Keys + Folded(w, paths), open, Folded(w, paths)))
    decreases |paths|
  {
    hide MerkleBut, Rooted, FoldInto, OpenAfter, OpenAfterAll, AncestorsFirst, Folded;
    if paths == [] {
      FoldedSplit(w, paths);
      NothingOpens(t.Keys, open);
      assert t.Keys + {} == t.Keys;
      pre' := pre;
    } else {
      var q, mid, left := paths[0], pre, open;
      BatchStep(sha, t, w, paths);
      OpenAfterSplit(t, w, paths, open);
      if q in w {
        RootedAt(w, q);
        mid := FoldStep(sha, t, pre, open, w[q]);
        left := OpenAfter(t.Keys, open, q);
      }
      pre' := FoldAllOpens(sha, FoldPath(sha, t, w, q), mid, left, w, paths[1..]);
      OpenMore(sha, FoldAll(sha, t, w, paths), pre',
        OpenAfterAll(t.Keys + Folded(w, paths), left, Folded(w, paths[1..])),
        OpenAfterAll(t.Keys + Folded(w, paths), open, Folded(w, paths)));
    }
  }

  lemma NothingOpens(keys: set<string>, open: set<string>)
    ensures OpenAfterAll(keys, open, {}) == open
  {}

  lemma OpenMore(sha: Sha, t: Tree, pre: Preimages, open: set<string>, more: set<string>)
    requires MerkleBut(sha, t, pre, open) && open <= more
    ensures MerkleBut(sha, t, pre, more)
  {
    hide Settled, Rooted;
  }

  // ---- What a batch changes ----

  function Written(b: Tree, w: Tree, folded: set<string>, x: string): StoredNode
    requires folded <= w.Keys && (x in folded || x in b)
  {
    if x in folded then w[x] else b[x]
  }

  ghost predicate FoldedAtPath(b: Tree, u: Tree, w: Tree, keys: set<string>, folded: set<string>, x: string)
    requires folded <= w.Keys && x in u
  {
    && (x in folded || x in b)
    && if Lifted(keys, folded, x) then Rehashed(Written(b, w, folded, x), u[x]) else u[x] == Written(b, w, folded, x)
  }

  /** `u` is `b` with the nodes of `w` at `folded` written in: besides those only the hash and child list of the
      nodes a refold came by moved. */
  ghost predicate FoldedView(b: Tree, u: Tree, w: Tree, folded: set<string>) {
    && folded <= w.Keys && u.Keys == b.Keys + folded
    && forall x | x in u :: FoldedAtPath(b, u, w, u.Keys, folded, x)
  }

  /** One fold. */
  lemma FoldPathView(sha: Sha, b: Tree, w: Tree, q: string, x: string)
    requires Rooted(b) && Rooted(w) && q in w && x in FoldPath(sha, b, w, q)
    ensures FoldedAtPath(b, FoldPath(sha, b, w, q), w, b.Keys + {q}, {q}, x)
  {
    hide Rooted, Refold, Touched, Proper, ParentForestPath, Rehashed, Solid, Lifted;
    var t, u, p := b[q := w[q]], FoldPath(sha, b, w, q), ParentForestPath(q);
    RootedAt(w, q);
    PutRooted(b, w[q]);
    assert t.Keys == b.Keys + {q};
    LiftedByOne(t.Keys, q, x);
    FoldPathKeys(sha, b, w, q);
    if q == SUPER_ROOT {
      RefoldUnfolds(sha, t, None);
    } else {
      RefoldTouches(sha, t, p);
      TouchedAt(t, u, p, x);
    }
  }

  lemma LiftedByOne(keys: set<string>, q: string, x: string)
    requires q in keys
    ensures Lifted(keys, {q}, x) <==> q != x && Solid(keys, x, q)
    ensures q == SUPER_ROOT ==> !Lifted(keys, {q}, x)
    ensures q != SUPER_ROOT ==> (Lifted(keys, {q}, x) <==> Solid(keys, x, ParentForestPath(q)))
  {
    assert {} + {q} == {q};
    LiftedMore(keys, {}, q, x);
    NothingLifted(keys, x);
    if q != SUPER_ROOT { SolidStep(keys, q); }
  }

  lemma TouchedAt(t: Tree, u: Tree, p: string, x: string)
    requires Touched(t, u, p) && x in t
    ensures x in u && if Solid(t.Keys, x, p) then Rehashed(t[x], u[x]) else u[x] == t[x]
  {}

  lemma ViewsCompose(b: Tree, m: Tree, u: Tree, w: Tree, paths: seq<string>, x: string)
    requires AncestorsFirst(paths) && paths != [] && paths[0] in w && Folded(w, paths) <= w.Keys && x in u
    requires FoldedAtPath(m, u, w, b.Keys + Folded(w, paths), Folded(w, paths[1..]), x)
    requires x in m ==> FoldedAtPath(b, m, w, b.Keys + {paths[0]}, {paths[0]}, x)
    ensures FoldedAtPath(b, u, w, b.Keys + Folded(w, paths), Folded(w, paths), x)
  {
    var q, keys, rest := paths[0], b.Keys + Folded(w, paths), Folded(w, paths[1..]);
    FoldedSplit(w, paths);
    assert {q} + rest == rest + {q};
    LiftedMore(keys, rest, q, x);
    LiftedByOne(b.Keys + {q}, q, x);
    if x in rest && x != q { LaterOffWay(keys, paths, x); } else { WayIsSettled(b, w, paths, x); }
    hide Solid, Lifted, AncestorsFirst, ParentForestPath;
  }

  lemma EmptyView(b: Tree, w: Tree)
    ensures FoldedView(b, b, w, {})
  {
    assert forall x :: !Lifted(b.Keys, {}, x);
  }

  /** The batch changes the folded nodes and the hashes above them, nothing else. */
  lemma {:induction false} FoldAllView(sha: Sha, b: Tree, w: Tree, paths: seq<string>)
    requires BatchReady(b, w, paths)
    ensures FoldedView(b, FoldAll(sha, b, w, paths), w, Folded(w, paths))
    decreases |paths|
  {
    hide Rooted, FoldPath, AncestorsFirst, Folded, FoldedAtPath;
    FoldedSplit(w, paths);
    if paths == [] {
      EmptyView(b, w);
    } else {
      var q, rest := paths[0], paths[1..];
      var m, u := FoldPath(sha, b, w, q), FoldAll(sha, b, w, paths);
      BatchStep(sha, b, w, paths);
      FoldAllView(sha, m, w, rest);
      FoldAllKeys(sha, b, w, paths);
      if q in w {
        forall x | x in u ensures FoldedAtPath(b, u, w, u.Keys, Folded(w, paths), x) {
          if x in m { FoldPathView(sha, b, w, q, x); }
          ViewsCompose(b, m, u, w, paths, x);
        }
      } else {
        SkippedFold(sha, b, w, q);
        assert {} + Folded(w, rest) == Folded(w, rest);
      }
    }
  }

  lemma SkippedFold(sha: Sha, b: Tree, w: Tree, q: string)
    requires Rooted(b) && Rooted(w) && q !in w
    ensures FoldPath(sha, b, w, q) == b
  {
    hide Rooted;
  }
}
