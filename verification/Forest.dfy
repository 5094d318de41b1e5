/** The layer above the subtree roots and the frozen guests (src/integrity/forestShape.ts, foldForestRoots;
    src/integrity/forest.ts). */
module Forest {
  import opened Sorting
  import opened Utf8
  import opened ForestPaths
  import opened Folding
  import opened Options
  import opened MerkleTrees
  import opened TreeDiff
  import opened BaselineFold
  import opened NodeStores
  import opened ChildLists
  import opened Assembly

  /** `a` is missing from `t` and lies above one of its nodes. */
  ghost predicate MissingAbove(t: Tree, a: string) { a !in t && exists q :: q in t && AtOrBelow(a, q) }

  /** The folded group directory or super-root at `a`. */
  ghost function GroupNode(sha: Sha, all: Tree, a: string): StoredNode {
    StoredNode(a, FoldRefs(sha, KidRefs(all, a)), if KidNames(all, a) == {} then EmptyDir else Present, None,
      if a == SUPER_ROOT then None else Some(ParentForestPath(a)), Some(SortedNames(KidNames(all, a))))
  }

  /** `u` holds exactly the missing ancestors of `t`, each folded from its children. */
  ghost predicate IsRootLayer(sha: Sha, t: Tree, u: Tree) {
    && (forall a :: a in u <==> MissingAbove(t, a))
    && (forall a | a in u :: u[a] == GroupNode(sha, t + u, a))
  }

  // ---- The finished forest ----

  /** A relative path without a NUL. */
  predicate PlainPath(q: string) { q != "" && q[0] != '/' && '\0' !in q }

  ghost predicate Plain(t: Tree) { forall q | q in t :: PlainPath(q) }

  /** No gap between a node and a node above it: the parts are whole subtrees. */
  ghost predicate Connected(t: Tree) {
    forall p, q | p in t && q in t && AtOrBelow(p, q) && p != q :: ParentForestPath(q) in t
  }

  lemma AncestorName(a: string, q: string)
    requires PlainPath(q) && AtOrBelow(a, q) && a != SUPER_ROOT
    ensures Proper(a) && '\0' !in LeafName(a)
  {
    Synthesis.BelowExtends(a, q);
    assert a[0] == q[0];
    assert forall c | c in a :: c in q;
    assert forall c | c in LeafName(a) :: c in a;
  }

  lemma NoGap(t: Tree, b: string, a: string, q: string)
    requires Connected(t) && b in t && q in t && AtOrBelow(b, a) && AtOrBelow(a, q)
    ensures a in t
    decreases |q|
  {
    if a != q {
      AtOrBelowTransitive(b, a, q);
      AtOrBelowLength(b, a);
      AtOrBelowLength(a, q);
      NoGap(t, b, a, ParentForestPath(q));
    }
  }

  lemma MissingHasMissingParent(t: Tree, a: string)
    requires Connected(t) && MissingAbove(t, a) && a != SUPER_ROOT
    ensures MissingAbove(t, ParentForestPath(a))
  {
    var q :| q in t && AtOrBelow(a, q);
    var up := ParentForestPath(a);
    assert AtOrBelow(up, up) && AtOrBelow(up, a);
    AtOrBelowTransitive(up, a, q);
    if up in t { NoGap(t, up, a, q); }
  }

  lemma LayerNodeLinked(sha: Sha, t: Tree, u: Tree, p: string)
    requires Plain(t) && Connected(t) && IsRootLayer(sha, t, u) && p in u
    ensures p !in t && Linked(t + u, p) && !u[p].IsLeaf()
    ensures p != SUPER_ROOT ==> ParentForestPath(p) in u
  {
    hide KidRefs, SortedNames, KidNames, FoldRefs, LeafName, Proper, Connected, ParentForestPath, AtOrBelow;
    assert MissingAbove(t, p);
    if p != SUPER_ROOT {
      var q :| q in t && AtOrBelow(p, q);
      AncestorName(p, q);
      MissingHasMissingParent(t, p);
    } else {
      RootName();
    }
  }

  lemma RootName()
    ensures '\0' !in LeafName(SUPER_ROOT)
  {}

  lemma PartNodeLinked(sha: Sha, t: Tree, pre: Preimages, u: Tree, p: string)
    requires Grounded(sha, t, pre) && Plain(t) && IsRootLayer(sha, t, u) && p in t
    ensures p !in u && p != SUPER_ROOT && Linked(t + u, p)
    ensures if ParentForestPath(p) in t then ParentForestPath(p) !in u && !t[ParentForestPath(p)].IsLeaf()
            else ParentForestPath(p) in u
  {
    hide KidRefs, SortedNames, KidNames, NodeHashed, FoldRefs, LeafName;
    var up := ParentForestPath(p);
    assert GroundedNode(sha, t, p, pre[p]) && PlainPath(p);
    assert AtOrBelow(up, up) && AtOrBelow(up, p);
    assert !MissingAbove(t, p);
    assert MissingAbove(t, up) <==> up !in t;
  }

  lemma LayerShape(sha: Sha, t: Tree, pre: Preimages, u: Tree)
    requires Grounded(sha, t, pre) && Plain(t) && Connected(t) && IsRootLayer(sha, t, u)
    ensures Shape(t + u)
  {
    hide KidNames, Grounded, IsRootLayer, Linked, LeafName, Proper, Plain, Connected, ParentForestPath;
    forall p | p in t + u
      ensures Linked(t + u, p)
      ensures p != SUPER_ROOT ==> ParentForestPath(p) in t + u && !(t + u)[ParentForestPath(p)].IsLeaf()
    {
      if p in u {
        LayerNodeLinked(sha, t, u, p);
        if p != SUPER_ROOT { LayerNodeLinked(sha, t, u, ParentForestPath(p)); }
      } else {
        PartNodeLinked(sha, t, pre, u, p);
        if ParentForestPath(p) in u { LayerNodeLinked(sha, t, u, ParentForestPath(p)); }
      }
    }
  }

  lemma LayerAddsNoKid(sha: Sha, t: Tree, u: Tree, p: string)
    requires Plain(t) && Connected(t) && IsRootLayer(sha, t, u) && p in t
    ensures forall q | q in u :: u[q].parentPath != Some(p)
    ensures forall q | q in t :: q !in u
  {
    hide KidRefs, KidNames, SortedNames, LeafName, Proper, ParentForestPath, FoldRefs, Plain, Connected;
    forall q | q in u ensures u[q].parentPath != Some(p) {
      LayerNodeLinked(sha, t, u, q);
      if q != SUPER_ROOT { LayerNodeLinked(sha, t, u, ParentForestPath(q)); }
    }
    forall q | q in t ensures q !in u { assert !MissingAbove(t, q); }
  }

  /** The new layer adds no child to a node that was there. */
  lemma PartKidsKept(sha: Sha, t: Tree, pre: Preimages, u: Tree, p: string)
    requires Grounded(sha, t, pre) && Plain(t) && Connected(t) && IsRootLayer(sha, t, u) && p in t
    ensures KidNames(t + u, p) == KidNames(t, p)
    ensures forall n | n in KidNames(t, p) :: HashAt(t + u, JoinPath(p, n)) == HashAt(t, JoinPath(p, n))
  {
    hide KidRefs, SortedNames, LeafName, Proper, ParentForestPath, GroundedNode, IsRootLayer, FoldRefs;
    LayerAddsNoKid(sha, t, u, p);
    forall n | n in KidNames(t, p) ensures HashAt(t + u, JoinPath(p, n)) == HashAt(t, JoinPath(p, n)) {
      ByPathKid(t, p, n);
    }
  }

  lemma LayerNodeHashed(sha: Sha, t: Tree, u: Tree, a: string)
    requires IsRootLayer(sha, t, u) && a in u
    ensures NodeHashed(sha, t + u, a, NodeBytes(KidRefs(t + u, a)))
  {
    hide KidRefs, SortedNames, KidNames, NodeBytes;
  }

  lemma PartNodeHashed(sha: Sha, t: Tree, pre: Preimages, u: Tree, p: string)
    requires Grounded(sha, t, pre) && Plain(t) && Connected(t) && IsRootLayer(sha, t, u) && p in t
    ensures NodeHashed(sha, t + u, p, pre[p])
  {
    PartKidsKept(sha, t, pre, u, p);
    hide KidRefs, SortedNames, KidNames, NodeBytes, NodeHashed, Linked, FoldRefs;
    assert GroundedNode(sha, t, p, pre[p]);
    assert !MissingAbove(t, p);
    NodeHashedFrame(sha, t, t + u, p, pre[p]);
  }

  lemma ForestNodeHashed(sha: Sha, t: Tree, pre: Preimages, u: Tree, p: string)
    requires Grounded(sha, t, pre) && Plain(t) && Connected(t) && IsRootLayer(sha, t, u) && p in t + u
    ensures p in t ==> p in pre
    ensures NodeHashed(sha, t + u, p, if p in t then pre[p] else NodeBytes(KidRefs(t + u, p)))
  {
    hide KidRefs, KidNames, NodeBytes, NodeHashed, IsRootLayer, Plain, Connected;
    if p in t { PartNodeHashed(sha, t, pre, u, p); } else { LayerNodeHashed(sha, t, u, p); }
  }

  /** Subtrees and the layer folded on top of them make one Merkle tree, rooted at the super-root. */
  lemma ForestIsMerkle(sha: Sha, t: Tree, pre: Preimages, u: Tree) returns (all: Preimages)
    requires Grounded(sha, t, pre) && Plain(t) && Connected(t) && IsRootLayer(sha, t, u)
    ensures Merkle(sha, t + u, all)
    ensures t != map[] ==> SUPER_ROOT in t + u
  {
    hide KidRefs, KidNames, NodeBytes, NodeHashed, Grounded, Shape, Plain, Connected, IsRootLayer;
    LayerShape(sha, t, pre, u);
    all := map p | p in t + u :: if p in t && p in pre then pre[p] else NodeBytes(KidRefs(t + u, p));
    forall p | p in t + u ensures NodeHashed(sha, t + u, p, all[p]) { ForestNodeHashed(sha, t, pre, u, p); }
    RootPresent(sha, t, u);
  }

  lemma RootPresent(sha: Sha, t: Tree, u: Tree)
    requires IsRootLayer(sha, t, u)
    ensures t != map[] ==> SUPER_ROOT in t + u
  {
    if q :| q in t {
      SuperRootAboveAll(q);
      assert SUPER_ROOT !in t ==> MissingAbove(t, SUPER_ROOT);
    }
  }

  // ---- The imperative fold of the layer ----

  /** Walking up from any node of `t` meets a node of `t` or a collected ancestor, up to the super-root. */
  ghost predicate UpClosed(t: Tree, anc: set<string>) {
    forall a | a in anc && a != SUPER_ROOT :: ParentForestPath(a) in t.Keys + anc
  }

  ghost predicate OnlyMissing(t: Tree, anc: set<string>) { forall a | a in anc :: MissingAbove(t, a) }

  lemma ParentMissing(t: Tree, q: string, a: string)
    requires q in t && AtOrBelow(a, q) && a !in t
    ensures MissingAbove(t, a)
    ensures a != SUPER_ROOT ==> AtOrBelow(ParentForestPath(a), q)
  {
    var up := ParentForestPath(a);
    if a != SUPER_ROOT {
      assert AtOrBelow(up, up) && AtOrBelow(up, a);
      AtOrBelowTransitive(up, a, q);
    }
  }

  /** Collects the ancestors of one node up to the first one known. */
  method CollectAbove(t: Tree, start: set<string>, q: string) returns (anc: set<string>)
    requires q in t && RootedNode(t[q]) && t[q].path == q && q != SUPER_ROOT
    requires UpClosed(t, start) && OnlyMissing(t, start)
    ensures start <= anc && UpClosed(t, anc) && OnlyMissing(t, anc) && ParentForestPath(q) in t.Keys + anc
  {
    hide AtOrBelow, ParentForestPath, MissingAbove, Proper;
    anc := start;
    var p := t[q].parentPath;
    ParentAbove(q);
    while p.Some? && p.value !in t && p.value !in anc
      invariant p.Some? && AtOrBelow(p.value, q)
      invariant start <= anc && OnlyMissing(t, anc)
      invariant forall a | a in anc && a != SUPER_ROOT && ParentForestPath(a) != p.value :: ParentForestPath(a) in t.Keys + anc
      invariant ParentForestPath(q) in t.Keys + anc || p.value == ParentForestPath(q)
      decreases |p.value|, if p.value in anc then 0 else 1
    {
      ParentMissing(t, q, p.value);
      anc := anc + {p.value};
      if p.value == SUPER_ROOT { break; }
      p := Some(ParentForestPath(p.value));
    }
  }

  lemma ParentAbove(q: string)
    requires q != SUPER_ROOT
    ensures AtOrBelow(ParentForestPath(q), q)
  {
    assert AtOrBelow(ParentForestPath(q), ParentForestPath(q));
  }

  method CollectAncestors(nodes: seq<StoredNode>) returns (anc: set<string>)
    requires Rooted(TreeOf(nodes)) && SUPER_ROOT !in TreeOf(nodes)
    ensures forall a :: a in anc <==> MissingAbove(TreeOf(nodes), a)
  {
    hide AtOrBelow, ParentForestPath, MissingAbove, RootedNode, TreeOf;
    var t := TreeOf(nodes);
    anc := {};
    for i := 0 to |nodes|
      invariant UpClosed(t, anc) && OnlyMissing(t, anc)
      invariant forall k | 0 <= k < i :: nodes[k].path in t && ParentForestPath(nodes[k].path) in t.Keys + anc
    {
      TreeOfHas(nodes, i);
      RootedAt(t, nodes[i].path);
      anc := CollectAbove(t, anc, nodes[i].path);
    }
    forall a ensures a in anc <==> MissingAbove(t, a) {
      if MissingAbove(t, a) {
        var q := WitnessBelow(t, a);
        forall x | x in t ensures ParentForestPath(x) in t.Keys + anc { TreeOfOnly(nodes, x); }
        AllCollected(t, anc, a, q);
      }
    }
  }

  lemma WitnessBelow(t: Tree, a: string) returns (q: string)
    requires MissingAbove(t, a)
    ensures a !in t && q in t && AtOrBelow(a, q)
  {
    q :| q in t && AtOrBelow(a, q);
  }

  lemma AllCollected(t: Tree, anc: set<string>, a: string, q: string)
    requires UpClosed(t, anc) && AtOrBelow(a, q) && q in t.Keys + anc && a !in t
    requires forall x | x in t :: ParentForestPath(x) in t.Keys + anc
    ensures a in anc
    decreases |q|
  {
    if a != q { AllCollected(t, anc, a, ParentForestPath(q)); }
  }

  predicate LongerFirst(p: string, q: string) { |p| >= |q| }

  /** The part of the layer folded so far. */
  ghost predicate PartialLayer(sha: Sha, t: Tree, u: Tree) {
    && Rooted(t + u) && (forall a | a in u :: MissingAbove(t, a) && u[a] == GroupNode(sha, t + u, a))
  }

  lemma GroupFrame(sha: Sha, all: Tree, n: StoredNode, a: string)
    requires Rooted(all) && n.path !in all && n.parentPath != Some(a)
    ensures GroupNode(sha, all[n.path := n], a) == GroupNode(sha, all, a)
  {
    hide SortedNames, KidRefs, RootedNode, LeafName, FoldRefs;
    var now := all[n.path := n];
    assert KidNames(now, a) == KidNames(all, a);
    forall m | m in KidNames(all, a) ensures HashAt(now, JoinPath(a, m)) == HashAt(all, JoinPath(a, m)) {
      var q :| q in all && all[q].parentPath == Some(a) && LeafName(q) == m;
      RootedKid(all, a, q);
    }
    KidRefsFrame(all, now, a);
  }

  lemma GroupRooted(sha: Sha, t: Tree, all: Tree, a: string)
    requires Plain(t) && MissingAbove(t, a)
    ensures RootedNode(GroupNode(sha, all, a)) && GroupNode(sha, all, a).path == a
  {
    hide KidRefs, SortedNames, KidNames, LeafName;
    var q := WitnessBelow(t, a);
    if a != SUPER_ROOT { AncestorName(a, q); }
  }

  /** Adding the next ancestor, none of whose group directories is folded yet, keeps the others right. */
  lemma LayerGrows(sha: Sha, t: Tree, u: Tree, a: string)
    requires Plain(t) && PartialLayer(sha, t, u) && MissingAbove(t, a) && a !in u
    requires forall b | b in u :: |b| >= |a|
    ensures PartialLayer(sha, t, u[a := GroupNode(sha, t + u, a)])
  {
    hide KidRefs, SortedNames, KidNames, LeafName, FoldRefs, Plain, MissingAbove;
    var n := GroupNode(sha, t + u, a);
    GroupRooted(sha, t, t + u, a);
    assert a !in t by { var q := WitnessBelow(t, a); }
    assert (t + u)[a := n] == t + u[a := n];
    hide GroupNode, Rooted, RootedNode;
    ParentShorter(a);
    GroupParent(sha, t + u, a);
    forall b | b in u || b == a ensures GroupNode(sha, (t + u)[a := n], b) == GroupNode(sha, t + u, b) {
      GroupFrame(sha, t + u, n, b);
    }
    PutRooted(t + u, n);
  }

  lemma GroupParent(sha: Sha, all: Tree, a: string)
    ensures GroupNode(sha, all, a).parentPath == if a == SUPER_ROOT then None else Some(ParentForestPath(a))
  {}

  lemma ParentShorter(a: string)
    ensures a != SUPER_ROOT ==> |ParentForestPath(a)| < |a|
  {}

  /** Nodes of a list under one parent. */
  method NodesUnder(nodes: seq<StoredNode>, parent: string) returns (kids: seq<StoredNode>)
    requires forall i, j | 0 <= i < j < |nodes| :: nodes[i].path != nodes[j].path
    ensures forall n :: n in kids <==> n in nodes && n.parentPath == Some(parent)
    ensures forall i, j | 0 <= i < j < |kids| :: kids[i].path != kids[j].path
  {
    kids := [];
    for i := 0 to |nodes|
      invariant forall n :: n in kids <==> n in nodes[..i] && n.parentPath == Some(parent)
      invariant forall i, j | 0 <= i < j < |kids| :: kids[i].path != kids[j].path
    {
      assert nodes[..i + 1] == nodes[..i] + [nodes[i]];
      forall n | n in kids ensures n.path != nodes[i].path { var k :| 0 <= k < i && nodes[k] == n; }
      if nodes[i].parentPath == Some(parent) { kids := kids + [nodes[i]]; }
    }
    assert nodes[..|nodes|] == nodes;
  }

  lemma TreeOfNodes(nodes: seq<StoredNode>)
    requires DistinctNodes(nodes)
    ensures forall n | n in nodes :: n.path in TreeOf(nodes) && TreeOf(nodes)[n.path] == n
    ensures forall p | p in TreeOf(nodes) :: TreeOf(nodes)[p] in nodes
  {
    if nodes != [] {
      var k := |nodes| - 1;
      assert nodes == nodes[..k] + [nodes[k]];
      TreeOfNodes(nodes[..k]);
    }
  }

  lemma ListedKids(all: Tree, listed: seq<StoredNode>, parent: string, kids: seq<StoredNode>)
    requires DistinctNodes(listed) && Rooted(all)
    requires forall n | n in listed :: n.path in all && all[n.path] == n
    requires forall p | p in all :: all[p] in listed
    requires forall n :: n in kids <==> n in listed && n.parentPath == Some(parent)
    requires forall i, j | 0 <= i < j < |kids| :: kids[i].path != kids[j].path
    ensures IsKidList(all, parent, kids)
  {
    hide Rooted;
  }

  /** One group directory. */
  method FoldGroup(sha: Sha, ghost all: Tree, listed: seq<StoredNode>, a: string) returns (n: StoredNode)
    requires DistinctNodes(listed) && Rooted(all)
    requires forall n | n in listed :: n.path in all && all[n.path] == n
    requires forall p | p in all :: all[p] in listed
    ensures n == GroupNode(sha, all, a)
  {
    hide KidNames, SortedNames, KidRefs, NodeBytes, Rooted, IsKidList, ParentForestPath;
    var kids := NodesUnder(listed, a);
    ListedKids(all, listed, a, kids);
    var refs := GatherRefs(kids);
    KidListFolds(all, a, kids, refs);
    var names := GatherNames(all, a, kids);
    var hash := EmptyDirHash(sha);
    if refs != [] { hash := FoldNode(sha, refs); }
    n := StoredNode(a, hash, if refs == [] then EmptyDir else Present, None,
      if a == SUPER_ROOT then None else Some(ParentForestPath(a)), Some(names));
  }

  lemma LongerFirstSorts(s: seq<string>)
    ensures SortedBy(LongerFirst, Sort(LongerFirst, s))
  {
    SortSorted(LongerFirst, s);
  }

  /** The layer pass, longest paths first. */
  method FoldLayer(sha: Sha, nodes: seq<StoredNode>, ordered: seq<string>) returns (out: seq<StoredNode>)
    requires DistinctNodes(nodes) && Rooted(TreeOf(nodes)) && Plain(TreeOf(nodes))
    requires Distinct(ordered) && SortedBy(LongerFirst, ordered) && forall a | a in ordered :: MissingAbove(TreeOf(nodes), a)
    ensures PartialLayer(sha, TreeOf(nodes), TreeOf(out)) && DistinctNodes(nodes + out)
    ensures forall a :: a in TreeOf(out) <==> a in ordered
  {
    hide TreeOf, Rooted, Plain, MissingAbove, GroupNode, DistinctNodes, LongerFirst, PartialLayer;
    ghost var t := TreeOf(nodes);
    out := [];
    assert nodes + out == nodes;
    TreeOfNothing();
    NoLayer(sha, t);
    for i := 0 to |ordered|
      invariant PartialLayer(sha, t, TreeOf(out)) && DistinctNodes(nodes + out)
      invariant forall a :: a in TreeOf(out) <==> a in ordered[..i]
    {
      var a := ordered[i];
      assert a in ordered;
      ListIsAll(nodes, out);
      LayerOrder(ordered, i, TreeOf(out).Keys);
      PartialRooted(sha, t, TreeOf(out));
      var n := FoldGroup(sha, t + TreeOf(out), nodes + out, a);
      assert a !in t by { var q := WitnessBelow(t, a); }
      LayerGrows(sha, t, TreeOf(out), a);
      GroupRooted(sha, t, t + TreeOf(out), a);
      TreeOfAppend(out, n);
      NewPath(nodes, out, n);
      out := out + [n];
      assert ordered[..i + 1] == ordered[..i] + [a];
    }
    assert ordered[..|ordered|] == ordered;
  }

  lemma NoLayer(sha: Sha, t: Tree)
    requires Rooted(t)
    ensures PartialLayer(sha, t, map[])
  {
    assert t + map[] == t;
  }

  lemma PartialRooted(sha: Sha, t: Tree, u: Tree)
    requires PartialLayer(sha, t, u)
    ensures Rooted(t + u)
  {}

  lemma TreeOfNothing()
    ensures TreeOf([]) == map[]
  {}

  lemma LayerOrder(ordered: seq<string>, i: nat, done: set<string>)
    requires i < |ordered| && Distinct(ordered) && SortedBy(LongerFirst, ordered)
    requires forall a :: a in done <==> a in ordered[..i]
    ensures ordered[i] !in done && forall b | b in done :: |b| >= |ordered[i]|
  {
    assert forall k | 0 <= k < i :: LongerFirst(ordered[k], ordered[i]);
  }

  lemma OtherList(nodes: seq<StoredNode>, out: seq<StoredNode>, n: StoredNode)
    requires DistinctNodes(nodes + out) && n in nodes
    ensures n.path !in TreeOf(out)
  {
    var i :| 0 <= i < |nodes| && nodes[i] == n;
    assert (nodes + out)[i] == n && forall k | 0 <= k < |out| :: (nodes + out)[|nodes| + k] == out[k];
    assert forall k | 0 <= k < |out| :: out[k].path != n.path;
    if n.path in TreeOf(out) { TreeOfOnly(out, n.path); }
  }

  lemma SplitDistinct(nodes: seq<StoredNode>, out: seq<StoredNode>)
    requires DistinctNodes(nodes + out)
    ensures DistinctNodes(nodes) && DistinctNodes(out)
  {
    assert forall i | 0 <= i < |nodes| :: (nodes + out)[i] == nodes[i];
    assert forall i | 0 <= i < |out| :: (nodes + out)[|nodes| + i] == out[i];
  }

  lemma ListIsAll(nodes: seq<StoredNode>, out: seq<StoredNode>)
    requires DistinctNodes(nodes + out)
    ensures forall n | n in nodes + out :: n.path in TreeOf(nodes) + TreeOf(out) && (TreeOf(nodes) + TreeOf(out))[n.path] == n
    ensures forall p | p in TreeOf(nodes) + TreeOf(out) :: (TreeOf(nodes) + TreeOf(out))[p] in nodes + out
  {
    hide TreeOf, DistinctNodes;
    SplitDistinct(nodes, out);
    TreeOfNodes(nodes);
    TreeOfNodes(out);
    forall n | n in nodes ensures n.path !in TreeOf(out) { OtherList(nodes, out, n); }
  }

  lemma NewPath(nodes: seq<StoredNode>, out: seq<StoredNode>, n: StoredNode)
    requires DistinctNodes(nodes + out) && n.path !in TreeOf(nodes) && n.path !in TreeOf(out)
    ensures DistinctNodes(nodes + (out + [n]))
  {
    assert nodes + (out + [n]) == (nodes + out) + [n];
    forall i | 0 <= i < |nodes + out| ensures (nodes + out)[i].path != n.path {
      if i < |nodes| { TreeOfHas(nodes, i); } else { TreeOfHas(out, i - |nodes|); }
    }
  }

  lemma RootMissing(t: Tree)
    requires Plain(t)
    ensures SUPER_ROOT !in t
  {
    assert !PlainPath(SUPER_ROOT);
  }

  /** `foldForestRoots`: the missing ancestors, folded. */
  method FoldForestRoots(sha: Sha, nodes: seq<StoredNode>) returns (out: seq<StoredNode>)
    requires DistinctNodes(nodes) && Rooted(TreeOf(nodes)) && Plain(TreeOf(nodes))
    ensures IsRootLayer(sha, TreeOf(nodes), TreeOf(out))
  {
    hide TreeOf, Rooted, Plain, MissingAbove, GroupNode, DistinctNodes, LongerFirst;
    RootMissing(TreeOf(nodes));
    var ancestors := CollectAncestors(nodes);
    var listed := ListSet(ancestors);
    var ordered := Sort(LongerFirst, listed);
    LongerFirstSorts(listed);
    SameElements(ordered, listed);
    SortPreservesDistinct(LongerFirst, listed);
    out := FoldLayer(sha, nodes, ordered);
  }

  // ---- Joining subtrees ----

  ghost predicate Apart(t: Tree, u: Tree) {
    forall p, q | p in t && q in u :: !AtOrBelow(p, q) && !AtOrBelow(q, p)
  }

  lemma JoinKids(t: Tree, u: Tree, p: string)
    requires ByPath(t) && ByPath(u) && Apart(t, u) && p in t
    ensures KidNames(t + u, p) == KidNames(t, p)
    ensures forall n | n in KidNames(t, p) :: HashAt(t + u, JoinPath(p, n)) == HashAt(t, JoinPath(p, n))
    ensures p !in u && (ParentForestPath(p) !in u)
  {
    hide LeafName, Proper;
    forall q | q in u ensures u[q].parentPath != Some(p) {
      assert AtOrBelow(ParentForestPath(q), ParentForestPath(q));
      if ParentForestPath(q) == p { ProperNotEmpty(q); assert AtOrBelow(p, q); }
    }
    assert AtOrBelow(p, p) && AtOrBelow(ParentForestPath(p), ParentForestPath(p));
    ProperNotEmpty(p);
    assert AtOrBelow(ParentForestPath(p), p);
    forall q | q in t ensures q !in u { assert AtOrBelow(q, q); }
    forall n | n in KidNames(t, p) ensures HashAt(t + u, JoinPath(p, n)) == HashAt(t, JoinPath(p, n)) { ByPathKid(t, p, n); }
  }

  lemma ProperNotEmpty(p: string)
    ensures Proper(p) ==> p != ""
  {}

  lemma JoinNode(sha: Sha, t: Tree, preT: Preimages, u: Tree, p: string)
    requires Grounded(sha, t, preT) && ByPath(u) && Apart(t, u) && p in t
    ensures GroundedNode(sha, t + u, p, preT[p]) && p !in u
  {
    JoinKids(t, u, p);
    hide KidNames, KidRefs, SortedNames, LeafName, Proper, NodeBytes, NodeHashed, ParentForestPath, Apart, AtOrBelow;
    assert GroundedNode(sha, t, p, preT[p]);
    NodeHashedFrame(sha, t, t + u, p, preT[p]);
  }

  /** Subtrees in separate namespaces keep their equations side by side. */
  lemma JoinGrounded(sha: Sha, t: Tree, preT: Preimages, u: Tree, preU: Preimages)
    requires Grounded(sha, t, preT) && Grounded(sha, u, preU) && Apart(t, u)
    ensures Grounded(sha, t + u, preT + preU)
    ensures Connected(t) && Connected(u) ==> Connected(t + u)
    ensures Plain(t) && Plain(u) ==> Plain(t + u)
  {
    hide KidNames, GroundedNode, Proper, AtOrBelow, PlainPath, ParentForestPath;
    ApartSymmetric(t, u);
    forall p | p in t + u ensures GroundedNode(sha, t + u, p, (preT + preU)[p]) {
      if p in t {
        JoinNode(sha, t, preT, u, p);
      } else {
        JoinNode(sha, u, preU, t, p);
        JoinSwap(t, u);
      }
    }
  }

  lemma ApartSymmetric(t: Tree, u: Tree)
    requires Apart(t, u)
    ensures Apart(u, t)
  {}

  lemma JoinSwap(t: Tree, u: Tree)
    requires Apart(t, u)
    ensures t + u == u + t
  {
    forall q | q in t ensures q !in u { assert AtOrBelow(q, q); }
  }

  /** An assembled subtree has no gaps. */
  lemma AssembledConnected(sha: Sha, j: Job, t: Tree)
    requires IsAssembled(sha, j, t) && Synthesis.TreeEntries(j.root, j.entries)
    ensures Connected(t)
  {
    hide NodeFor, ByPath;
    forall p, q | p in t && q in t && AtOrBelow(p, q) && p != q ensures ParentForestPath(q) in t {
      AtOrBelowLength(p, q);
      AtOrBelowLength(j.root, p);
      var up := ParentForestPath(q);
      assert AtOrBelow(up, up) && AtOrBelow(up, q);
      if j.level == L2 && q != j.root {
        var f :| ConfigBelow(j, q, f);
        AtOrBelowTransitive(up, q, f);
        assert ConfigBelow(j, up, f);
      }
    }
  }

  // ---- Frozen guests ----

  function Placeholder(sha: Sha, prefix: string): StoredNode {
    StoredNode(prefix, UnreadableHash(sha), Unavailable, None, Some(ParentForestPath(prefix)), Some([]))
  }

  function FreezeNode(prefix: string, n: StoredNode): StoredNode {
    if n.path == prefix then n.(state := Unavailable) else n
  }

  /** `freezeSubtree`: the last baseline nodes with the root marked, or a single placeholder. */
  method FreezeSubtree(sha: Sha, prefix: string, baseline: seq<StoredNode>) returns (out: seq<StoredNode>)
    ensures baseline == [] ==> out == [Placeholder(sha, prefix)]
    ensures baseline != [] ==> |out| == |baseline| && forall i | 0 <= i < |out| :: out[i] == FreezeNode(prefix, baseline[i])
  {
    if baseline == [] { return [Placeholder(sha, prefix)]; }
    out := [];
    for i := 0 to |baseline|
      invariant |out| == i && forall k | 0 <= k < i :: out[k] == FreezeNode(prefix, baseline[k])
    {
      out := out + [FreezeNode(prefix, baseline[i])];
    }
  }

  lemma FreezeTree(prefix: string, baseline: seq<StoredNode>, out: seq<StoredNode>)
    requires |out| == |baseline| && forall i | 0 <= i < |out| :: out[i] == FreezeNode(prefix, baseline[i])
    ensures TreeOf(out).Keys == TreeOf(baseline).Keys
    ensures forall p | p in TreeOf(out) :: TreeOf(out)[p] == FreezeNode(prefix, TreeOf(baseline)[p])
  {
    if out != [] {
      var n := |out| - 1;
      FreezeTree(prefix, baseline[..n], out[..n]);
    }
  }

  /** The same nodes as far as folding can see. */
  ghost predicate SameFolds(t: Tree, u: Tree) {
    t.Keys == u.Keys && forall p | p in t :: t[p].hash == u[p].hash && t[p].parentPath == u[p].parentPath
  }

  lemma {:induction false} LayerNodeSame(sha: Sha, t: Tree, u: Tree, t': Tree, u': Tree, a: string)
    requires SameFolds(t, t') && Plain(t) && Connected(t) && IsRootLayer(sha, t, u) && IsRootLayer(sha, t', u') && a in u
    requires Rooted(t + u) && u.Keys == u'.Keys
    ensures u[a] == u'[a]
    decreases Below(t, u, a)
  {
    hide SortedNames, KidRefs, LeafName, Proper, ParentForestPath, MissingAbove, FoldRefs, Plain, Connected;
    var all, all' := t + u, t' + u';
    forall q | q in all ensures q in all' && all[q].parentPath == all'[q].parentPath {}
    SameParentsSameKids(all, all', a);
    hide GroupNode;
    forall n | n in KidNames(all, a) ensures HashAt(all, JoinPath(a, n)) == HashAt(all', JoinPath(a, n)) {
      var q :| q in all && all[q].parentPath == Some(a) && LeafName(q) == n;
      RootedKid(all, a, q);
      if q in u {
        RootedAt(all, q);
        DeeperKid(t, u, a, q);
        LayerNodeSame(sha, t, u, t', u', q);
      }
    }
    GroupSame(sha, all, all', a);
  }

  lemma DeeperKid(t: Tree, u: Tree, a: string, q: string)
    requires q in u && RootedNode(u[q]) && u[q].path == q && u[q].parentPath == Some(a)
    ensures Below(t, u, q) < Below(t, u, a)
  {
    assert q in t.Keys + u.Keys;
  }

  lemma GroupSame(sha: Sha, all: Tree, all': Tree, a: string)
    requires KidNames(all, a) == KidNames(all', a)
    requires forall n | n in KidNames(all, a) :: HashAt(all, JoinPath(a, n)) == HashAt(all', JoinPath(a, n))
    ensures GroupNode(sha, all, a) == GroupNode(sha, all', a)
  {
    hide KidNames, SortedNames;
    KidRefsFrame(all, all', a);
  }

  /** The layer above depends on nothing but the paths and hashes below it. */
  lemma LayerSame(sha: Sha, t: Tree, u: Tree, t': Tree, u': Tree)
    requires SameFolds(t, t') && Plain(t) && Connected(t) && IsRootLayer(sha, t, u) && IsRootLayer(sha, t', u')
    requires Rooted(t + u)
    ensures u == u'
  {
    hide GroupNode, AtOrBelow, Plain, Connected, Rooted;
    forall a ensures a in u <==> a in u' { assert MissingAbove(t, a) <==> MissingAbove(t', a); }
    hide IsRootLayer;
    forall a | a in u ensures u[a] == u'[a] { LayerNodeSame(sha, t, u, t', u', a); }
  }

  /** A guest frozen while every other source is unchanged moves no hash: same super-root, no drift. */
  lemma FrozenGuestIsQuiet(sha: Sha, t: Tree, u: Tree, prefix: string, t': Tree, u': Tree, r: string)
    requires Plain(t) && Connected(t) && IsRootLayer(sha, t, u) && IsRootLayer(sha, t', u') && Rooted(t + u)
    requires t'.Keys == t.Keys && forall p | p in t :: t'[p] == FreezeNode(prefix, t[p])
    requires AllLinked(t + u) && AllLinked(t' + u')
    ensures HashAt(t' + u', SUPER_ROOT) == HashAt(t + u, SUPER_ROOT)
    ensures Drift(t + u, t' + u', r) == []
  {
    hide GroupNode, Plain, Connected, Rooted, IsRootLayer, AllLinked, DriftOfKids;
    LayerSame(sha, t, u, t', u');
    EqualHashesNoDrift(t + u, t' + u', r);
  }

  lemma EqualHashesNoDrift(b: Tree, w: Tree, r: string)
    requires AllLinked(b) && AllLinked(w) && b.Keys == w.Keys && forall p | p in b :: b[p].hash == w[p].hash
    ensures Drift(b, w, r) == []
  {
    hide DriftOfKids, AllLinked;
  }

  lemma UnderIsBelow(prefix: string, q: string)
    requires prefix != "" && prefix != WHOLE_TREE
    ensures Under(q, prefix) <==> AtOrBelow(prefix, q)
  {
    if q == prefix {
      assert AtOrBelow(q, q);
    } else if prefix + "/" <= q {
      var x := q[|prefix|..];
      assert q == prefix + x && x[0] == '/';
      Synthesis.ForestPathBelow(prefix, x);
    } else if AtOrBelow(prefix, q) {
      SlashAfter(prefix, q);
    }
  }

  lemma SlashAfter(prefix: string, q: string)
    requires prefix != "" && AtOrBelow(prefix, q) && q != prefix
    ensures prefix + "/" <= q
    decreases |q|
  {
    var up := ParentForestPath(q);
    if up == prefix {
      assert q[..|prefix| + 1] == prefix + "/";
    } else {
      SlashAfter(prefix, up);
      assert up <= q;
    }
  }

  /** However the other sources changed, nothing at or below a frozen guest is reported. */
  lemma FrozenGuestHasNoDrift(b: Tree, w: Tree, prefix: string, r: string, e: DriftEntry)
    requires AllLinked(b) && AllLinked(w) && prefix != "" && prefix != WHOLE_TREE
    requires forall q | Under(q, prefix) :: q in b <==> q in w
    requires forall q | q in b && Under(q, prefix) :: w[q] == FreezeNode(prefix, b[q])
    requires e in Drift(b, w, r)
    ensures !AtOrBelow(prefix, e.path)
  {
    DriftSound(b, w, r, e);
    hide Drift, AtOrBelow, Under, Linked;
    UnderIsBelow(prefix, e.path);
  }
}
