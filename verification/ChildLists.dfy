/** From a listed set of child nodes to the references and names a directory is folded from. */
module ChildLists {
  import opened Sorting
  import opened Utf8
  import opened ForestPaths
  import opened Folding
  import opened Options
  import opened MerkleTrees
  import opened TreeDiff
  import opened NodeStores

  function RefOf(n: StoredNode): ChildRef { ChildRef(LeafName(n.path), n.hash) }

  lemma RootedKid(t: Tree, p: string, q: string)
    requires Rooted(t) && q in t && t[q].parentPath == Some(p)
    ensures JoinPath(p, LeafName(q)) == q && LeafName(q) in KidNames(t, p)
  {
    RootedAt(t, q);
    JoinOfParts(q);
  }

  lemma KidListNames(t: Tree, p: string, kids: seq<StoredNode>)
    requires Rooted(t) && IsKidList(t, p, kids)
    ensures forall i | 0 <= i < |kids| :: LeafName(kids[i].path) in KidNames(t, p)
                                       && JoinPath(p, LeafName(kids[i].path)) == kids[i].path && kids[i].path in t
    ensures forall n | n in KidNames(t, p) :: exists i :: 0 <= i < |kids| && LeafName(kids[i].path) == n
  {
    hide LeafName, Rooted;
    forall i | 0 <= i < |kids|
      ensures LeafName(kids[i].path) in KidNames(t, p) && JoinPath(p, LeafName(kids[i].path)) == kids[i].path && kids[i].path in t
    {
      assert kids[i] in kids;
      RootedKid(t, p, kids[i].path);
    }
    forall n | n in KidNames(t, p) ensures exists i :: 0 <= i < |kids| && LeafName(kids[i].path) == n {
      var q :| q in t && t[q].parentPath == Some(p) && LeafName(q) == n;
      RootedAt(t, q);
      assert t[q] in kids;
    }
  }

  lemma KidNamesDistinct(t: Tree, p: string, kids: seq<StoredNode>)
    requires Rooted(t) && IsKidList(t, p, kids)
    ensures forall i, j | 0 <= i < j < |kids| :: LeafName(kids[i].path) != LeafName(kids[j].path)
  {
    KidListNames(t, p, kids);
    hide LeafName, Rooted, KidNames;
  }

  lemma RefIsCanonical(t: Tree, p: string, kids: seq<StoredNode>, r: ChildRef)
    requires Rooted(t) && IsKidList(t, p, kids)
    ensures r in KidRefs(t, p) <==> exists i :: 0 <= i < |kids| && r == RefOf(kids[i])
  {
    hide KidRefs, LeafName, Rooted, KidNames, JoinPath;
    KidListNames(t, p, kids);
    KidRefsElements(t, p);
    if r in KidRefs(t, p) {
      var i :| 0 <= i < |kids| && LeafName(kids[i].path) == r.name;
      assert kids[i] in kids && r == RefOf(kids[i]);
    }
    if i :| 0 <= i < |kids| && r == RefOf(kids[i]) { assert kids[i] in kids; }
  }

  /** The references gathered from a child list fold to the bytes of the canonical list. */
  lemma KidListFolds(t: Tree, p: string, kids: seq<StoredNode>, refs: seq<ChildRef>)
    requires Rooted(t) && IsKidList(t, p, kids)
    requires |refs| == |kids| && forall i | 0 <= i < |kids| :: refs[i] == RefOf(kids[i])
    ensures NodeBytes(refs) == NodeBytes(KidRefs(t, p))
    ensures refs == [] <==> KidNames(t, p) == {}
  {
    hide NodeBytes, KidRefs, LeafName, Rooted, KidNames, IsKidList;
    KidNamesDistinct(t, p, kids);
    forall r ensures r in refs <==> r in KidRefs(t, p) {
      RefIsCanonical(t, p, kids, r);
      if i :| 0 <= i < |kids| && r == RefOf(kids[i]) { assert refs[i] == r; }
    }
    KidRefsElements(t, p);
    NodeBytesPermutation(refs, KidRefs(t, p));
    KidListNames(t, p, kids);
    if refs != [] { assert LeafName(kids[0].path) in KidNames(t, p); }
  }

  method GatherRefs(kids: seq<StoredNode>) returns (refs: seq<ChildRef>)
    ensures |refs| == |kids| && forall i | 0 <= i < |kids| :: refs[i] == RefOf(kids[i])
  {
    refs := [];
    for i := 0 to |kids|
      invariant |refs| == i && forall j | 0 <= j < i :: refs[j] == RefOf(kids[j])
    {
      refs := refs + [ChildRef(LeafName(kids[i].path), kids[i].hash)];
    }
  }

  lemma NamesCover(t: Tree, p: string, kids: seq<StoredNode>, names: seq<string>)
    requires Rooted(t) && IsKidList(t, p, kids)
    requires |names| == |kids| && forall i | 0 <= i < |kids| :: names[i] == LeafName(kids[i].path)
    ensures Distinct(names) && forall n :: n in names <==> n in KidNames(t, p)
  {
    hide LeafName, Rooted, KidNames, JoinPath, IsKidList;
    KidListNames(t, p, kids);
    KidNamesDistinct(t, p, kids);
    forall n | n in KidNames(t, p) ensures n in names {
      var i :| 0 <= i < |kids| && LeafName(kids[i].path) == n;
      assert names[i] == n;
    }
  }

  /** The sorted child names of a child list. */
  method GatherNames(ghost t: Tree, ghost p: string, kids: seq<StoredNode>) returns (names: seq<string>)
    requires Rooted(t) && IsKidList(t, p, kids)
    ensures names == SortedNames(KidNames(t, p))
  {
    hide LeafName, Rooted, KidNames, IsKidList, SortedNames;
    names := [];
    for i := 0 to |kids|
      invariant |names| == i && forall j | 0 <= j < i :: names[j] == LeafName(kids[j].path)
    {
      names := names + [LeafName(kids[i].path)];
    }
    NamesCover(t, p, kids, names);
    SortedNamesUnique(KidNames(t, p), names);
    names := Sort(NameLe, names);
  }

  lemma TreeOfRooted(nodes: seq<StoredNode>)
    requires forall n | n in nodes :: RootedNode(n)
    ensures Rooted(TreeOf(nodes))
  {
    hide RootedNode;
    if nodes != [] {
      var n := |nodes| - 1;
      assert nodes[n] in nodes;
      TreeOfRooted(nodes[..n]);
    }
  }
}
