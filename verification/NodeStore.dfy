/** The in-memory node store (src/integrity/nodeStore.ts): one map keyed by tree, level and path. */
module NodeStores {
  import opened Options
  import opened MerkleTrees
  import opened TreeDiff

  datatype Level = L1 | L2 | L3

  datatype TreeKind = Baseline | Working

  datatype Key = Key(tree: TreeKind, level: Level, path: string)

  type Rows = map<Key, StoredNode>

  const WHOLE_TREE := "/"

  /** The rows of one (tree, level) pair, by path. */
  ghost function Partition(m: Rows, tree: TreeKind, level: Level): (t: Tree)
    ensures forall p :: p in t <==> Key(tree, level, p) in m
    ensures forall p | p in t :: t[p] == m[Key(tree, level, p)]
  {
    map k | k in m && k.tree == tree && k.level == level :: k.path := m[k]
  }

  /** At or under `scope` on a slash boundary; "/" is everything. */
  predicate Under(path: string, scope: string) {
    scope == WHOLE_TREE || path == scope || scope + "/" <= path
  }

  /** The nodes of a list by path, a later one replacing an earlier one. */
  function TreeOf(nodes: seq<StoredNode>): Tree {
    if nodes == [] then map[] else TreeOf(nodes[..|nodes| - 1])[nodes[|nodes| - 1].path := nodes[|nodes| - 1]]
  }

  /** A list that names every path once. */
  ghost predicate DistinctNodes(nodes: seq<StoredNode>) {
    forall i, j | 0 <= i < j < |nodes| :: nodes[i].path != nodes[j].path
  }

  /** Everything but one pair of the store is as it was. */
  ghost predicate OnlyPart(before: Rows, after: Rows, tree: TreeKind, level: Level) {
    forall t, l | t != tree || l != level :: Partition(after, t, l) == Partition(before, t, l)
  }

  lemma PutPartition(m: Rows, tree: TreeKind, level: Level, n: StoredNode)
    ensures Partition(m[Key(tree, level, n.path) := n], tree, level) == Partition(m, tree, level)[n.path := n]
    ensures OnlyPart(m, m[Key(tree, level, n.path) := n], tree, level)
  {}

  lemma TreeOfTake(nodes: seq<StoredNode>, i: nat)
    requires i < |nodes|
    ensures TreeOf(nodes[..i + 1]) == TreeOf(nodes[..i])[nodes[i].path := nodes[i]]
  {
    assert nodes[..i + 1][..i] == nodes[..i];
  }

  lemma OnlyPartTransitive(a: Rows, b: Rows, c: Rows, tree: TreeKind, level: Level)
    requires OnlyPart(a, b, tree, level) && OnlyPart(b, c, tree, level)
    ensures OnlyPart(a, c, tree, level)
  {}

  lemma AddPut(t: Tree, u: Tree, n: StoredNode)
    ensures t + u[n.path := n] == (t + u)[n.path := n]
  {}

  function Cut(m: Rows, tree: TreeKind, level: Level, scope: string): Rows {
    map k | k in m && !(k.tree == tree && k.level == level && Under(m[k].path, scope)) :: m[k]
  }

  lemma CutPart(m: Rows, tree: TreeKind, level: Level, scope: string, t: TreeKind, l: Level)
    requires Keyed(m)
    ensures Partition(Cut(m, tree, level, scope), t, l)
         == if t == tree && l == level then Outside(Partition(m, t, l), scope) else Partition(m, t, l)
  {
    hide Under, Partition;
    var c := Cut(m, tree, level, scope);
    assert forall p :: Key(t, l, p) in m ==> m[Key(t, l, p)].path == p;
    assert forall p :: Key(t, l, p) in c <==>
      Key(t, l, p) in m && !(t == tree && l == level && Under(p, scope));
  }

  lemma CutPartition(m: Rows, tree: TreeKind, level: Level, scope: string)
    requires Keyed(m)
    ensures Keyed(Cut(m, tree, level, scope)) && OnlyPart(m, Cut(m, tree, level, scope), tree, level)
    ensures Partition(Cut(m, tree, level, scope), tree, level) == Outside(Partition(m, tree, level), scope)
  {
    hide Under, Partition, Outside;
    forall t, l ensures Partition(Cut(m, tree, level, scope), t, l)
                     == if t == tree && l == level then Outside(Partition(m, t, l), scope) else Partition(m, t, l)
    {
      CutPart(m, tree, level, scope, t, l);
    }
  }

  /** Rows are stored under their own path. */
  ghost predicate Keyed(m: Rows) { forall k | k in m :: m[k].path == k.path }

  class MemoryNodeStore {
    var m: Rows

    ghost predicate Valid()
      reads this
    {
      Keyed(m)
    }

    constructor ()
      ensures Valid() && m == map[]
    {
      m := map[];
    }

    method Get(tree: TreeKind, level: Level, path: string) returns (n: Option<StoredNode>)
      ensures var t := Partition(m, tree, level); n == if path in t then Some(t[path]) else None
    {
      n := if Key(tree, level, path) in m then Some(m[Key(tree, level, path)]) else None;
    }

    /** The rows of one partition, as a comparison reads them. */
    method View(tree: TreeKind, level: Level) returns (t: Tree)
      ensures t == Partition(m, tree, level)
    {
      t := map k | k in m && k.tree == tree && k.level == level :: k.path := m[k];
    }

    /** The rows whose parent is `parent`; the scan order is left open. */
    method GetChildren(tree: TreeKind, level: Level, parent: string) returns (kids: seq<StoredNode>)
      requires Valid()
      ensures IsKidList(Partition(m, tree, level), parent, kids)
    {
      hide Partition;
      ghost var t := Partition(m, tree, level);
      kids := [];
      var todo := m.Keys;
      while todo != {}
        invariant todo <= m.Keys
        invariant forall n | n in kids :: n.path in t && t[n.path] == n && n.parentPath == Some(parent) && Key(tree, level, n.path) !in todo
        invariant forall q | q in t && Key(tree, level, q) !in todo && t[q].parentPath == Some(parent) :: t[q] in kids
        invariant forall i, j | 0 <= i < j < |kids| :: kids[i].path != kids[j].path
        decreases |todo|
      {
        var k :| k in todo;
        todo := todo - {k};
        if k.tree == tree && k.level == level && m[k].parentPath == Some(parent) {
          assert k == Key(tree, level, k.path) && k.path in t && t[k.path].path == k.path;
          kids := kids + [m[k]];
        }
      }
    }

    /** The rows at or under a path. They are listed by path there; here the order is left open, and nothing that
        reads the list depends on it. */
    method AllUnder(tree: TreeKind, level: Level, scope: string) returns (nodes: seq<StoredNode>)
      requires Valid()
      ensures DistinctNodes(nodes) && TreeOf(nodes) == UnderPart(Partition(m, tree, level), scope)
    {
      hide Partition, Under;
      ghost var t := Partition(m, tree, level);
      nodes := [];
      var todo := m.Keys;
      while todo != {}
        invariant todo <= m.Keys && DistinctNodes(nodes)
        invariant forall n | n in nodes :: n.path in t && t[n.path] == n && Under(n.path, scope) && Key(tree, level, n.path) !in todo
        invariant forall q | q in t && Under(q, scope) && Key(tree, level, q) !in todo :: t[q] in nodes
        decreases |todo|
      {
        var k :| k in todo;
        todo := todo - {k};
        if k.tree == tree && k.level == level && Under(m[k].path, scope) {
          assert k == Key(tree, level, k.path) && k.path in t && t[k.path].path == k.path;
          nodes := nodes + [m[k]];
        }
      }
      ListedPart(t, scope, nodes);
    }

    /** Upserts the nodes, in order. */
    method SurgicalUpdate(tree: TreeKind, level: Level, nodes: seq<StoredNode>)
      requires Valid()
      modifies this
      ensures Valid()
      ensures Partition(m, tree, level) == Partition(old(m), tree, level) + TreeOf(nodes)
      ensures OnlyPart(old(m), m, tree, level)
    {
      hide OnlyPart;
      OnlyPartRefl(m, tree, level);
      for i := 0 to |nodes|
        invariant Valid()
        invariant Partition(m, tree, level) == Partition(old(m), tree, level) + TreeOf(nodes[..i])
        invariant OnlyPart(old(m), m, tree, level)
      {
        PutPartition(m, tree, level, nodes[i]);
        TreeOfTake(nodes, i);
        AddPut(Partition(old(m), tree, level), TreeOf(nodes[..i]), nodes[i]);
        ghost var before := m;
        m := m[Key(tree, level, nodes[i].path) := nodes[i]];
        OnlyPartTransitive(old(m), before, m, tree, level);
      }
      assert nodes[..|nodes|] == nodes;
    }

    method ReplaceSubtree(tree: TreeKind, level: Level, scope: string, nodes: seq<StoredNode>)
      requires Valid()
      modifies this
      ensures Valid()
      ensures Partition(m, tree, level) == Outside(Partition(old(m), tree, level), scope) + TreeOf(nodes)
      ensures OnlyPart(old(m), m, tree, level)
    {
      hide Keyed, OnlyPart, Under, Partition, TreeOf;
      ghost var before := m;
      CutPartition(m, tree, level, scope);
      m := Cut(m, tree, level, scope);
      SurgicalUpdate(tree, level, nodes);
      OnlyPartTransitive(before, Cut(before, tree, level, scope), m, tree, level);
    }

    /** Empties the working tree of one level, or of all. */
    method ClearWorking(level: Option<Level>)
      requires Valid()
      modifies this
      ensures Valid()
      ensures forall l :: Partition(m, Working, l) == if level == None || level == Some(l) then map[] else Partition(old(m), Working, l)
      ensures forall l :: Partition(m, Baseline, l) == Partition(old(m), Baseline, l)
    {
      hide Partition;
      ghost var before := m;
      m := map k | k in m && (k.tree != Working || (level.Some? && level.value != k.level)) :: m[k];
      forall t, l ensures Partition(m, t, l)
        == if t == Working && (level == None || level == Some(l)) then map[] else Partition(before, t, l)
      {
        assert forall p :: Key(t, l, p) in m <==> Key(t, l, p) in before && !(t == Working && (level == None || level == Some(l)));
      }
    }
  }

  /** The nodes at or under `scope`. */
  ghost function UnderPart(t: Tree, scope: string): Tree { map p | p in t && Under(p, scope) :: t[p] }

  lemma ListedPart(t: Tree, scope: string, nodes: seq<StoredNode>)
    requires forall n | n in nodes :: n.path in t && t[n.path] == n && Under(n.path, scope)
    requires forall q | q in t && Under(q, scope) :: t[q] in nodes && t[q].path == q
    ensures TreeOf(nodes) == UnderPart(t, scope)
  {
    hide TreeOf, Under;
    forall q | q in t && Under(q, scope) ensures q in TreeOf(nodes) {
      var i :| 0 <= i < |nodes| && nodes[i] == t[q];
      TreeOfHas(nodes, i);
    }
    forall q | q in TreeOf(nodes) ensures q in t && Under(q, scope) && TreeOf(nodes)[q] == t[q] { TreeOfOnly(nodes, q); }
  }

  lemma TreeOfHas(nodes: seq<StoredNode>, i: nat)
    requires i < |nodes|
    ensures nodes[i].path in TreeOf(nodes)
  {
    var n := |nodes| - 1;
    if i < n { TreeOfHas(nodes[..n], i); }
  }

  lemma TreeOfOnly(nodes: seq<StoredNode>, p: string)
    requires p in TreeOf(nodes)
    ensures exists i :: 0 <= i < |nodes| && nodes[i].path == p && nodes[i] == TreeOf(nodes)[p]
  {
    var n := |nodes| - 1;
    if nodes[n].path != p {
      TreeOfOnly(nodes[..n], p);
      var i :| 0 <= i < n && nodes[..n][i].path == p && nodes[..n][i] == TreeOf(nodes[..n])[p];
      assert nodes[i].path == p;
    }
  }

  /** What a replacement of `scope` leaves standing. */
  ghost function Outside(t: Tree, scope: string): Tree { map p | p in t && !Under(p, scope) :: t[p] }

  lemma OnlyPartRefl(m: Rows, tree: TreeKind, level: Level)
    ensures OnlyPart(m, m, tree, level)
  {}
}
