/** Stored nodes and the trees they form: one (tree, level) partition of the node store
    (src/integrity/nodeStore.ts), the Merkle equation of every node, and what a root hash binds. */
module MerkleTrees {
  import opened Options
  import opened Utf8
  import opened ForestPaths
  import opened Folding

  datatype NodeState = Present | EmptyDir | Unavailable | Unreadable

  datatype StoredNode = StoredNode(
    path: string,
    hash: Digest,
    state: NodeState,
    mtime: Option<int>,
    parentPath: Option<string>,
    childNames: Option<seq<string>>
  ) {
    /** A file leaf is a node without a child list. */
    predicate IsLeaf() { childNames.None? }
  }

  type Tree = map<string, StoredNode>

  /** The bytes each node's hash was computed from. */
  type Preimages = map<string, seq<byte>>

  ghost function KidNames(t: Tree, p: string): set<string> {
    set q | q in t && t[q].parentPath == Some(p) :: LeafName(q)
  }

  function HashAt(t: Tree, p: string): Digest {
    if p in t then t[p].hash else [0,0,0,0,0,0,0,0,0,0,0,0,0,0,0,0,0,0,0,0,0,0,0,0,0,0,0,0,0,0,0,0]
  }

  /** The children of `p` by name, in byte order. */
  ghost function KidRefs(t: Tree, p: string): seq<ChildRef> { RefsFor(t, p, SortedNames(KidNames(t, p))) }

  function RefsFor(t: Tree, p: string, names: seq<string>): (r: seq<ChildRef>)
    ensures |r| == |names|
    ensures forall i | 0 <= i < |names| :: r[i] == ChildRef(names[i], HashAt(t, JoinPath(p, names[i])))
  {
    seq(|names|, i requires 0 <= i < |names| => ChildRef(names[i], HashAt(t, JoinPath(p, names[i]))))
  }

  /** `p` hangs where its path says, below a node of the tree. */
  ghost predicate Linked(t: Tree, p: string)
    requires p in t
  {
    && t[p].path == p
    && '\0' !in LeafName(p)
    && if p == SUPER_ROOT then t[p].parentPath == None else
         Proper(p) && t[p].parentPath == Some(ParentForestPath(p)) && ParentForestPath(p) in t
  }

  predicate RootedNode(n: StoredNode) {
    if n.path == SUPER_ROOT then n.parentPath == None
    else Proper(n.path) && n.parentPath == Some(ParentForestPath(n.path))
  }

  /** Every node is stored at its own path and names its parent by that path, so walking up ends. The parent
      itself may be missing. */
  ghost predicate Rooted(t: Tree) {
    forall p {:trigger RootedNode(t[p])} | p in t :: RootedNode(t[p]) && t[p].path == p
  }

  lemma RootedAt(t: Tree, q: string)
    requires Rooted(t) && q in t
    ensures RootedNode(t[q]) && t[q].path == q
  {
    assert RootedNode(t[q]);
  }

  ghost predicate AllLinked(t: Tree): (ok: bool)
    ensures ok ==> Rooted(t)
  {
    var ok := forall q {:trigger Linked(t, q)} | q in t :: Linked(t, q);
    assert ok ==> Rooted(t) by {
      if ok {
        forall q | q in t ensures RootedNode(t[q]) && t[q].path == q { assert Linked(t, q); }
      }
    }
    ok
  }

  ghost predicate Shape(t: Tree) {
    && AllLinked(t)
    && forall p {:trigger Linked(t, p)} | p in t && Linked(t, p) && p != SUPER_ROOT :: !t[ParentForestPath(p)].IsLeaf()
  }

  /** The hash equation of one node. */
  ghost predicate NodeHashed(sha: Sha, t: Tree, p: string, bytes: seq<byte>)
    requires p in t
  {
    && t[p].hash == sha(bytes)
    && if t[p].IsLeaf() then (bytes != [] && bytes[0] == LEAF_DOMAIN) || bytes == UNREADABLE_BYTES
       else
         && t[p].childNames == Some(SortedNames(KidNames(t, p)))
         && (bytes == NodeBytes(KidRefs(t, p)) || (KidNames(t, p) == {} && bytes == UNREADABLE_BYTES))
  }

  ghost predicate Hashed(sha: Sha, t: Tree, pre: Preimages) {
    pre.Keys == t.Keys && forall p | p in t :: NodeHashed(sha, t, p, pre[p])
  }

  /** A well-formed Merkle tree whose hashes come from the byte strings in `pre`. */
  ghost predicate Merkle(sha: Sha, t: Tree, pre: Preimages) { Shape(t) && Hashed(sha, t, pre) }

  ghost predicate NoCollision(sha: Sha, inputs: set<seq<byte>>) {
    forall x, y | x in inputs && y in inputs && sha(x) == sha(y) :: x == y
  }

  lemma KidRefsElements(t: Tree, p: string)
    ensures DistinctNames(KidRefs(t, p))
    ensures forall r :: r in KidRefs(t, p) <==> r.name in KidNames(t, p) && r.hash == HashAt(t, JoinPath(p, r.name))
  {
    var names, refs := SortedNames(KidNames(t, p)), KidRefs(t, p);
    forall r: ChildRef | r.name in KidNames(t, p) && r.hash == HashAt(t, JoinPath(p, r.name)) ensures r in refs {
      var i :| 0 <= i < |names| && names[i] == r.name;
      assert refs[i] == r;
    }
  }

  lemma KidInTree(t: Tree, p: string, name: string)
    requires AllLinked(t)
    requires name in KidNames(t, p)
    ensures '/' !in name && '\0' !in name && JoinPath(p, name) in t
    ensures |JoinPath(p, name)| > |p| && ParentForestPath(JoinPath(p, name)) == p && LeafName(JoinPath(p, name)) == name
    ensures t[JoinPath(p, name)].parentPath == Some(p)
  {
    var q :| q in t && t[q].parentPath == Some(p) && LeafName(q) == name;
    assert Linked(t, q);
    JoinOfParts(q);
  }

  /** A recorded child sits one segment below its parent. */
  lemma KidPlaced(t: Tree, p: string, name: string)
    requires Rooted(t) && name in KidNames(t, p)
    ensures '/' !in name && JoinPath(p, name) in t && JoinPath(p, name) != SUPER_ROOT
    ensures |JoinPath(p, name)| > |p| && ParentForestPath(JoinPath(p, name)) == p && LeafName(JoinPath(p, name)) == name
    ensures t[JoinPath(p, name)].parentPath == Some(p)
  {
    var q :| q in t && t[q].parentPath == Some(p) && LeafName(q) == name;
    RootedAt(t, q);
    JoinOfParts(q);
  }

  lemma PlacedIsKid(t: Tree, q: string)
    requires Rooted(t) && q in t && q != SUPER_ROOT
    ensures LeafName(q) in KidNames(t, ParentForestPath(q)) && JoinPath(ParentForestPath(q), LeafName(q)) == q
    ensures t[q].parentPath == Some(ParentForestPath(q))
  {
    RootedAt(t, q);
    JoinOfParts(q);
  }

  lemma NodeIsKid(t: Tree, q: string)
    requires q in t && q != SUPER_ROOT && Linked(t, q)
    ensures LeafName(q) in KidNames(t, ParentForestPath(q)) && JoinPath(ParentForestPath(q), LeafName(q)) == q
  {
    JoinOfParts(q);
  }

  lemma KidRefsNulFree(t: Tree, p: string)
    requires AllLinked(t)
    ensures NulFree(KidRefs(t, p))
  {
    KidRefsElements(t, p);
    forall r | r in KidRefs(t, p) ensures '\0' !in r.name { KidInTree(t, p, r.name); }
  }

  /** Every ancestor of a node is a node. */
  lemma AncestorInTree(t: Tree, p: string, q: string)
    requires AllLinked(t) && q in t && AtOrBelow(p, q)
    ensures p in t
    decreases |q|
  {
    if q != p {
      assert Linked(t, q);
      AncestorInTree(t, p, ParentForestPath(q));
    }
  }

  /** Trees that list the same children with the same hashes fold to the same bytes. */
  lemma KidRefsFrame(t: Tree, u: Tree, p: string)
    requires KidNames(t, p) == KidNames(u, p)
    requires forall n | n in KidNames(t, p) :: HashAt(t, JoinPath(p, n)) == HashAt(u, JoinPath(p, n))
    ensures KidRefs(t, p) == KidRefs(u, p)
  {
    var names := SortedNames(KidNames(t, p));
    assert forall i | 0 <= i < |names| :: names[i] in KidNames(t, p);
    assert RefsFor(t, p, names) == RefsFor(u, p, names);
  }

  /** A child of `q` on one side only, or with another hash, shows in the bytes of `q`. */
  lemma EqualBytesEqualKids(sha: Sha, b: Tree, w: Tree, q: string, bytes: seq<byte>, name: string)
    requires AllLinked(b) && AllLinked(w)
    requires q in b && q in w && NodeHashed(sha, b, q, bytes) && NodeHashed(sha, w, q, bytes)
    requires name in KidNames(b, q) && !b[q].IsLeaf()
    ensures name in KidNames(w, q) && HashAt(b, JoinPath(q, name)) == HashAt(w, JoinPath(q, name))
  {
    assert bytes == NodeBytes(KidRefs(b, q));
    assert bytes[0] == NODE_DOMAIN && !w[q].IsLeaf() && bytes == NodeBytes(KidRefs(w, q));
    KidRefsNulFree(b, q);
    KidRefsNulFree(w, q);
    NodeBytesInjective(KidRefs(b, q), KidRefs(w, q));
    KidRefsElements(b, q);
    KidRefsElements(w, q);
    var r := ChildRef(name, HashAt(b, JoinPath(q, name)));
    assert r in KidRefs(b, q);
    assert r in KidRefs(w, q);
  }

  /** Where two trees agree on a hash they agree on everything below it, unless two of the byte strings
      hashed for them collide. */
  lemma {:induction false} HashBindsSubtree(sha: Sha, b: Tree, preB: Preimages, w: Tree, preW: Preimages, p: string, q: string)
    requires Merkle(sha, b, preB) && Merkle(sha, w, preW)
    requires NoCollision(sha, preB.Values + preW.Values)
    requires p in b && p in w && b[p].hash == w[p].hash
    requires AtOrBelow(p, q)
    ensures q in b <==> q in w
    ensures q in b ==> b[q].hash == w[q].hash && preB[q] == preW[q]
    decreases |q|
  {
    if q != p {
      var up := ParentForestPath(q);
      HashBindsSubtree(sha, b, preB, w, preW, p, up);
      if q in b {
        NodeIsKid(b, q);
        EqualBytesEqualKids(sha, b, w, up, preB[up], LeafName(q));
        KidInTree(w, up, LeafName(q));
      }
      if q in w {
        NodeIsKid(w, q);
        EqualBytesEqualKids(sha, w, b, up, preW[up], LeafName(q));
        KidInTree(b, up, LeafName(q));
      }
    }
    if q in b {
      assert NodeHashed(sha, b, q, preB[q]) && NodeHashed(sha, w, q, preW[q]);
      assert preB[q] in preB.Values && preW[q] in preW.Values;
    }
  }

  /** Equal super-root hashes mean the same paths with the same hash at each path. */
  lemma RootBindsTree(sha: Sha, b: Tree, preB: Preimages, w: Tree, preW: Preimages)
    requires Merkle(sha, b, preB) && Merkle(sha, w, preW)
    requires NoCollision(sha, preB.Values + preW.Values)
    requires SUPER_ROOT in b && SUPER_ROOT in w && b[SUPER_ROOT].hash == w[SUPER_ROOT].hash
    ensures forall q :: q in b <==> q in w
    ensures forall q | q in b :: b[q].hash == HashAt(w, q)
  {
    forall q: string ensures (q in b <==> q in w) && (q in b ==> b[q].hash == HashAt(w, q)) {
      RootBindsPath(sha, b, preB, w, preW, q);
    }
  }

  lemma RootBindsPath(sha: Sha, b: Tree, preB: Preimages, w: Tree, preW: Preimages, q: string)
    requires Merkle(sha, b, preB) && Merkle(sha, w, preW)
    requires NoCollision(sha, preB.Values + preW.Values)
    requires SUPER_ROOT in b && SUPER_ROOT in w && b[SUPER_ROOT].hash == w[SUPER_ROOT].hash
    ensures (q in b <==> q in w) && (q in b ==> b[q].hash == HashAt(w, q))
  {
    SuperRootAboveAll(q);
    HashBindsSubtree(sha, b, preB, w, preW, SUPER_ROOT, q);
  }
}
