/** The whole forest from its sources (src/integrity/forest.ts, assembleForest): enumerated sources are synthesized and
    folded, unavailable ones frozen, and the missing layer above all of them is folded on top. */
module ForestAssembly {
  import opened ForestPaths
  import opened Folding
  import opened Options
  import opened MerkleTrees
  import opened TreeDiff
  import opened BaselineFold
  import opened CleanFolds
  import opened NodeStores
  import opened Synthesis
  import opened Assembly
  import opened Forest
  import opened Globs
  import opened Utf8

  /** What one source delivers: whether it can be reached, its enumeration, and the content hashes by forest path. */
  datatype Source = Source(prefix: string, available: bool, enumerated: seq<EnumeratedEntry>, content: ContentHash)

  /** The last accepted nodes at or under a prefix. */
  type FrozenBaseline = string -> seq<StoredNode>

  function ConfigFiles(globs: seq<string>, prefix: string): string -> bool {
    p => |prefix| <= |p| && MatchesAnyGlob(ToNodePath(prefix, p), globs)
  }

  /** Config files are told by the path on the node, not by the path in the forest. */
  lemma ConfigByNodePath(globs: seq<string>, prefix: string, nodePath: string)
    requires Absolute(nodePath)
    ensures ConfigFiles(globs, prefix)(ToForestPath(prefix, nodePath)) <==> exists g | g in globs :: Test(g, nodePath)
  {
    hide Test;
    PathsRoundTrip(prefix, nodePath);
  }

  function JobOf(level: Level, globs: seq<string>, src: Source, m: EntryMap): Job {
    Job(level, src.prefix, m, src.content, ConfigFiles(globs, src.prefix))
  }

  ghost predicate IsFrozen(sha: Sha, prefix: string, baseline: seq<StoredNode>, out: seq<StoredNode>) {
    if baseline == [] then out == [Placeholder(sha, prefix)]
    else |out| == |baseline| && forall i | 0 <= i < |out| :: out[i] == FreezeNode(prefix, baseline[i])
  }

  /** The subtree a source contributes. */
  ghost predicate IsSourceTree(sha: Sha, level: Level, globs: seq<string>, frozen: FrozenBaseline, src: Source, t: Tree) {
    if src.available
    then exists m :: IsSynthesis(src.prefix, src.enumerated, m) && IsAssembled(sha, JobOf(level, globs, src, m), t)
    else exists out :: IsFrozen(sha, src.prefix, frozen(src.prefix), out) && t == TreeOf(out)
  }

  /** A piece of a Merkle forest at or below `prefix`. */
  ghost predicate IsPiece(sha: Sha, prefix: string, t: Tree, pre: Preimages) {
    Grounded(sha, t, pre) && Connected(t) && Plain(t) && forall p | p in t :: AtOrBelow(prefix, p)
  }

  /** What enumerations and accepted baselines promise. */
  ghost predicate GoodSource(sha: Sha, frozen: FrozenBaseline, src: Source) {
    && Proper(src.prefix) && PlainPath(src.prefix)
    && (if src.available
        then
          && AllAbsolute(src.enumerated) && NothingBelowLeaves(src.prefix, src.enumerated)
          && forall e | e in src.enumerated :: NulFreePath(e.nodePath)
        else
          && DistinctNodes(frozen(src.prefix))
          && exists pre :: IsPiece(sha, src.prefix, TreeOf(frozen(src.prefix)), pre))
  }

  /** No two sources share a namespace. */
  ghost predicate Unrelated(sources: seq<Source>) {
    forall i, j | 0 <= i < |sources| && 0 <= j < |sources| && i != j :: !AtOrBelow(sources[i].prefix, sources[j].prefix)
  }

  // ---- Pieces ----

  lemma EnumeratedPiece(sha: Sha, level: Level, globs: seq<string>, src: Source, m: EntryMap, t: Tree) returns (pre: Preimages)
    requires Proper(src.prefix) && PlainPath(src.prefix) && AllAbsolute(src.enumerated)
    requires NothingBelowLeaves(src.prefix, src.enumerated) && forall e | e in src.enumerated :: NulFreePath(e.nodePath)
    requires IsSynthesis(src.prefix, src.enumerated, m) && IsAssembled(sha, JobOf(level, globs, src, m), t)
    ensures IsPiece(sha, src.prefix, t, pre) && StatesHonest(sha, t)
  {
    hide IsSynthesis, IsAssembled, NothingBelowLeaves, Grounded, Connected, StatesHonest, TreeEntries, Proper, AllAbsolute;
    SynthesisIsTree(src.prefix, src.enumerated, m);
    var j := JobOf(level, globs, src, m);
    pre := AssembledGrounded(sha, j, t);
    AssembledConnected(sha, j, t);
    AssembledPlain(sha, src.prefix, src.enumerated, m, j, t);
  }

  lemma AssembledPlain(sha: Sha, prefix: string, es: seq<EnumeratedEntry>, m: EntryMap, j: Job, t: Tree)
    requires PlainPath(prefix) && IsSynthesis(prefix, es, m) && forall e | e in es :: NulFreePath(e.nodePath)
    requires IsAssembled(sha, j, t) && j.entries == m && j.root == prefix
    ensures Plain(t) && forall p | p in t :: AtOrBelow(prefix, p)
  {
    hide NodeFor, Synthesis.EntryFor, ParentForestPath;
    forall p | p in t ensures PlainPath(p) && AtOrBelow(prefix, p) {
      assert p in m;
      if p != prefix {
        var e :| e in es && Between(prefix, p, ForestPathOf(prefix, e));
        BelowExtends(prefix, p);
        BelowExtends(p, ForestPathOf(prefix, e));
        assert forall c | c in p :: c in ForestPathOf(prefix, e);
      }
    }
  }

  /** Freezing changes no hash and no name, so a frozen piece of a forest is one again. */
  lemma FrozenPiece(sha: Sha, prefix: string, baseline: seq<StoredNode>, out: seq<StoredNode>, pre: Preimages) returns (pre': Preimages)
    requires Proper(prefix) && PlainPath(prefix) && IsFrozen(sha, prefix, baseline, out)
    requires IsPiece(sha, prefix, TreeOf(baseline), pre)
    ensures IsPiece(sha, prefix, TreeOf(out), pre')
  {
    hide FreezeNode, KidNames, LeafName, SortedNames, KidRefs, NodeBytes, ParentForestPath, Proper;
    if baseline == [] {
      PlaceholderPiece(sha, prefix);
      pre' := map[prefix := UNREADABLE_BYTES];
      assert out == [Placeholder(sha, prefix)];
    } else {
      FreezeTree(prefix, baseline, out);
      pre' := pre;
      forall p | p in TreeOf(baseline) { FreezeKeeps(prefix, TreeOf(baseline)[p]); }
      FrozenGrounded(sha, TreeOf(baseline), TreeOf(out), pre);
    }
  }

  lemma FreezeKeeps(prefix: string, n: StoredNode)
    ensures FreezeNode(prefix, n) == n.(state := FreezeNode(prefix, n).state)
  {}

  lemma FrozenGrounded(sha: Sha, t: Tree, u: Tree, pre: Preimages)
    requires Grounded(sha, t, pre) && u.Keys == t.Keys && forall p | p in t :: u[p] == t[p].(state := u[p].state)
    ensures Grounded(sha, u, pre)
  {
    hide LeafName, SortedNames, NodeBytes, ParentForestPath, Proper;
    forall p | p in u ensures GroundedNode(sha, u, p, pre[p]) {
      assert GroundedNode(sha, t, p, pre[p]);
      assert KidNames(u, p) == KidNames(t, p);
      hide KidNames;
      KidRefsFrame(t, u, p);
    }
  }

  lemma OneNode(n: StoredNode)
    ensures TreeOf([n]) == map[n.path := n]
  {
    assert [n][..0] == [];
  }

  lemma OneNodeIsBarren(t: Tree, p: string)
    requires t.Keys == {p} && t[p].parentPath == Some(ParentForestPath(p)) && Proper(p)
    ensures KidNames(t, p) == {} && ParentForestPath(p) !in t
  {
    ProperNotEmpty(p);
    ParentIsOther(p);
  }

  lemma PlainName(p: string)
    requires PlainPath(p)
    ensures '\0' !in LeafName(p)
  {
    assert forall c | c in LeafName(p) :: c in p;
  }

  lemma PlaceholderPiece(sha: Sha, prefix: string)
    requires Proper(prefix) && PlainPath(prefix)
    ensures IsPiece(sha, prefix, TreeOf([Placeholder(sha, prefix)]), map[prefix := UNREADABLE_BYTES])
  {
    hide TreeOf, KidNames, LeafName, SortedNames, KidRefs, NodeBytes, ParentForestPath, Proper, PlainPath;
    var n := Placeholder(sha, prefix);
    OneNode(n);
    var t := map[prefix := n];
    OneNodeIsBarren(t, prefix);
    PlainName(prefix);
    NoKids(t, prefix);
    assert GroundedNode(sha, t, prefix, UNREADABLE_BYTES);
  }

  /** The subtree of any good source is a piece. */
  lemma SourcePiece(sha: Sha, level: Level, globs: seq<string>, frozen: FrozenBaseline, src: Source, t: Tree) returns (pre: Preimages)
    requires GoodSource(sha, frozen, src) && IsSourceTree(sha, level, globs, frozen, src, t)
    ensures IsPiece(sha, src.prefix, t, pre)
  {
    hide IsPiece, IsFrozen, IsSynthesis, IsAssembled, Proper, PlainPath, TreeOf, NothingBelowLeaves;
    if src.available {
      var m :| IsSynthesis(src.prefix, src.enumerated, m) && IsAssembled(sha, JobOf(level, globs, src, m), t);
      pre := EnumeratedPiece(sha, level, globs, src, m, t);
    } else {
      var out :| IsFrozen(sha, src.prefix, frozen(src.prefix), out) && t == TreeOf(out);
      var before :| IsPiece(sha, src.prefix, TreeOf(frozen(src.prefix)), before);
      pre := FrozenPiece(sha, src.prefix, frozen(src.prefix), out, before);
    }
  }

  // ---- All sources ----

  function Union(trees: seq<Tree>): Tree {
    if trees == [] then map[] else Union(trees[..|trees| - 1]) + trees[|trees| - 1]
  }

  /** `trees` are the subtrees of the sources, in order. */
  ghost predicate AreSourceTrees(sha: Sha, level: Level, globs: seq<string>, frozen: FrozenBaseline, sources: seq<Source>, trees: seq<Tree>) {
    |trees| == |sources| && forall i | 0 <= i < |sources| :: IsSourceTree(sha, level, globs, frozen, sources[i], trees[i])
  }

  ghost predicate BelowSome(sources: seq<Source>, p: string) { exists i :: 0 <= i < |sources| && AtOrBelow(sources[i].prefix, p) }

  lemma PiecesApart(sha: Sha, sources: seq<Source>, last: Source, t: Tree, u: Tree)
    requires Unrelated(sources + [last])
    requires (forall p | p in t :: BelowSome(sources, p)) && forall q | q in u :: AtOrBelow(last.prefix, q)
    ensures Apart(t, u)
  {
    hide AtOrBelow;
    var all := sources + [last];
    forall p, q | p in t && q in u ensures !AtOrBelow(p, q) && !AtOrBelow(q, p) {
      var i :| 0 <= i < |sources| && AtOrBelow(sources[i].prefix, p);
      assert all[i] == sources[i] && all[|sources|] == last;
      SeparatePaths(sources[i].prefix, last.prefix, p, q);
    }
  }

  lemma SeparatePaths(a: string, b: string, p: string, q: string)
    requires !AtOrBelow(a, b) && !AtOrBelow(b, a) && AtOrBelow(a, p) && AtOrBelow(b, q)
    ensures !AtOrBelow(p, q) && !AtOrBelow(q, p)
  {
    hide AtOrBelow;
    if AtOrBelow(p, q) {
      AtOrBelowTransitive(a, p, q);
      OneChain(a, b, q);
    }
    if AtOrBelow(q, p) {
      AtOrBelowTransitive(b, q, p);
      OneChain(a, b, p);
    }
  }

  lemma OneChain(a: string, b: string, q: string)
    requires AtOrBelow(a, q) && AtOrBelow(b, q)
    ensures AtOrBelow(a, b) || AtOrBelow(b, a)
  {
    if |a| <= |b| { AncestorsChain(a, b, q); } else { AncestorsChain(b, a, q); }
  }

  ghost predicate IsForestPart(sha: Sha, sources: seq<Source>, t: Tree, pre: Preimages) {
    Grounded(sha, t, pre) && Connected(t) && Plain(t) && forall p | p in t :: BelowSome(sources, p)
  }

  lemma NoSources(sha: Sha)
    ensures IsForestPart(sha, [], map[], map[])
  {}

  lemma BelowMore(sources: seq<Source>, last: Source, p: string)
    requires BelowSome(sources, p) || AtOrBelow(last.prefix, p)
    ensures BelowSome(sources + [last], p)
  {
    var all := sources + [last];
    if BelowSome(sources, p) {
      var i :| 0 <= i < |sources| && AtOrBelow(sources[i].prefix, p);
      assert all[i] == sources[i];
    } else {
      assert all[|sources|] == last;
    }
  }

  lemma AddPiece(sha: Sha, sources: seq<Source>, last: Source, t: Tree, preT: Preimages, u: Tree, preU: Preimages)
    requires Unrelated(sources + [last]) && IsForestPart(sha, sources, t, preT) && IsPiece(sha, last.prefix, u, preU)
    ensures IsForestPart(sha, sources + [last], t + u, preT + preU) && t.Keys !! u.Keys
  {
    hide Grounded, Connected, Plain, BelowSome, AtOrBelow, Unrelated, Apart;
    PiecesApart(sha, sources, last, t, u);
    JoinGrounded(sha, t, preT, u, preU);
    forall p | p in t + u ensures BelowSome(sources + [last], p) { BelowMore(sources, last, p); }
    ApartDisjoint(t, u);
  }

  lemma ApartDisjoint(t: Tree, u: Tree)
    requires Apart(t, u)
    ensures t.Keys !! u.Keys
  {
    forall p | p in t ensures p !in u { assert AtOrBelow(p, p); }
  }

  ghost predicate AllGood(sha: Sha, frozen: FrozenBaseline, sources: seq<Source>) {
    Unrelated(sources) && forall s | s in sources :: GoodSource(sha, frozen, s)
  }

  lemma GoodSplit(sha: Sha, frozen: FrozenBaseline, sources: seq<Source>, i: nat)
    requires AllGood(sha, frozen, sources) && i < |sources|
    ensures AllGood(sha, frozen, sources[..i + 1]) && AllGood(sha, frozen, sources[..i]) && GoodSource(sha, frozen, sources[i])
    ensures sources[..i + 1] == sources[..i] + [sources[i]]
  {
    hide GoodSource, AtOrBelow;
  }

  /** The subtrees of good sources, side by side, satisfy the Merkle equations without gaps. */
  lemma {:induction false} UnionIsPart(sha: Sha, level: Level, globs: seq<string>, frozen: FrozenBaseline, sources: seq<Source>, trees: seq<Tree>)
    returns (pre: Preimages)
    requires AllGood(sha, frozen, sources) && AreSourceTrees(sha, level, globs, frozen, sources, trees)
    ensures IsForestPart(sha, sources, Union(trees), pre)
    decreases |sources|
  {
    hide AllGood, IsForestPart, IsSourceTree, GoodSource, IsPiece;
    if sources == [] {
      NoSources(sha);
      pre := map[];
    } else {
      var n := |sources| - 1;
      GoodSplit(sha, frozen, sources, n);
      assert sources[..n + 1] == sources && trees == trees[..n] + [trees[n]];
      var before := UnionIsPart(sha, level, globs, frozen, sources[..n], trees[..n]);
      var own := SourcePiece(sha, level, globs, frozen, sources[n], trees[n]);
      assert Unrelated(sources[..n] + [sources[n]]) by { GoodIsUnrelated(sha, frozen, sources); }
      AddPiece(sha, sources[..n], sources[n], Union(trees[..n]), before, trees[n], own);
      pre := before + own;
    }
  }

  lemma GoodIsUnrelated(sha: Sha, frozen: FrozenBaseline, sources: seq<Source>)
    requires AllGood(sha, frozen, sources)
    ensures Unrelated(sources)
  {}

  /** The forest over the sources: their subtrees and the layer above. */
  ghost predicate IsForest(sha: Sha, level: Level, globs: seq<string>, frozen: FrozenBaseline, sources: seq<Source>, t: Tree) {
    exists trees, layer :: IsLayered(sha, level, globs, frozen, sources, trees, layer) && t == Union(trees) + layer
  }

  ghost predicate IsLayered(sha: Sha, level: Level, globs: seq<string>, frozen: FrozenBaseline, sources: seq<Source>, trees: seq<Tree>, layer: Tree) {
    AreSourceTrees(sha, level, globs, frozen, sources, trees) && IsRootLayer(sha, Union(trees), layer)
  }

  /** Main result: whatever the enumerations hold, with guests frozen or not, the forest over good sources is one Merkle
      tree under the super-root. */
  lemma ForestOfSourcesIsMerkle(sha: Sha, level: Level, globs: seq<string>, frozen: FrozenBaseline, sources: seq<Source>, t: Tree)
    returns (pre: Preimages)
    requires AllGood(sha, frozen, sources) && IsForest(sha, level, globs, frozen, sources, t)
    ensures Merkle(sha, t, pre)
  {
    hide AllGood, AreSourceTrees, Union, IsRootLayer, Merkle, Grounded, Connected, Plain, BelowSome;
    var trees, layer :| IsLayered(sha, level, globs, frozen, sources, trees, layer) && t == Union(trees) + layer;
    var part := UnionIsPart(sha, level, globs, frozen, sources, trees);
    pre := ForestIsMerkle(sha, Union(trees), part, layer);
  }

  // ---- Its states are honest ----

  /** What a frozen source was accepted with: honest states, and a directory at its prefix. */
  ghost predicate HonestSource(sha: Sha, frozen: FrozenBaseline, src: Source) {
    !src.available ==>
      var t := TreeOf(frozen(src.prefix));
      StatesHonest(sha, t) && (src.prefix in t ==> !t[src.prefix].IsLeaf())
  }

  lemma FrozenHonest(sha: Sha, prefix: string, baseline: seq<StoredNode>, out: seq<StoredNode>)
    requires Proper(prefix) && IsFrozen(sha, prefix, baseline, out) && StatesHonest(sha, TreeOf(baseline))
    requires forall p | p in TreeOf(baseline) :: TreeOf(baseline)[p].path == p
    requires prefix in TreeOf(baseline) ==> !TreeOf(baseline)[prefix].IsLeaf()
    ensures StatesHonest(sha, TreeOf(out))
  {
    hide Proper, ParentForestPath, LeafName, TreeOf;
    if baseline == [] {
      var n := Placeholder(sha, prefix);
      OneNode(n);
      assert out == [n];
      PrefixBarren(prefix, n);
    } else {
      FreezeTree(prefix, baseline, out);
      var t, u := TreeOf(baseline), TreeOf(out);
      forall p | p in u ensures StateHonest(sha, u, p) {
        assert StateHonest(sha, t, p);
        SameParentsSameKids(t, u, p);
      }
    }
  }

  lemma PrefixBarren(prefix: string, n: StoredNode)
    requires Proper(prefix) && n.path == prefix && n.parentPath == Some(ParentForestPath(prefix))
    ensures KidNames(map[prefix := n], prefix) == {}
  {
    hide ParentForestPath;
    OneNodeIsBarren(map[prefix := n], prefix);
  }

  lemma GroundedPaths(sha: Sha, t: Tree, pre: Preimages)
    requires Grounded(sha, t, pre)
    ensures forall p | p in t :: t[p].path == p
    ensures ByPath(t)
  {
    hide Proper, ParentForestPath, LeafName;
    forall p | p in t ensures t[p].path == p { assert GroundedNode(sha, t, p, pre[p]); }
  }

  lemma SourceHonest(sha: Sha, level: Level, globs: seq<string>, frozen: FrozenBaseline, src: Source, t: Tree)
    requires GoodSource(sha, frozen, src) && HonestSource(sha, frozen, src) && IsSourceTree(sha, level, globs, frozen, src, t)
    ensures StatesHonest(sha, t)
  {
    hide IsFrozen, IsSynthesis, IsAssembled, Proper, PlainPath, TreeOf, NothingBelowLeaves, StatesHonest, Grounded, Connected, Plain;
    if src.available {
      var m :| IsSynthesis(src.prefix, src.enumerated, m) && IsAssembled(sha, JobOf(level, globs, src, m), t);
      var pre := EnumeratedPiece(sha, level, globs, src, m, t);
    } else {
      var out :| IsFrozen(sha, src.prefix, frozen(src.prefix), out) && t == TreeOf(out);
      var before :| IsPiece(sha, src.prefix, TreeOf(frozen(src.prefix)), before);
      GroundedPaths(sha, TreeOf(frozen(src.prefix)), before);
      FrozenHonest(sha, src.prefix, frozen(src.prefix), out);
    }
  }

  lemma JoinHonest(sha: Sha, t: Tree, u: Tree)
    requires ByPath(t) && ByPath(u) && Apart(t, u) && StatesHonest(sha, t) && StatesHonest(sha, u)
    ensures StatesHonest(sha, t + u)
  {
    hide KidNames, ByPath, Apart, AtOrBelow;
    ApartSymmetric(t, u);
    ApartDisjoint(t, u);
    forall p | p in t + u ensures StateHonest(sha, t + u, p) {
      if p in t {
        JoinKids(t, u, p);
        assert StateHonest(sha, t, p);
      } else {
        JoinKids(u, t, p);
        JoinSwap(t, u);
        assert StateHonest(sha, u, p);
      }
    }
  }

  lemma {:induction false} UnionHonest(sha: Sha, level: Level, globs: seq<string>, frozen: FrozenBaseline, sources: seq<Source>, trees: seq<Tree>)
    requires AllGood(sha, frozen, sources) && AreSourceTrees(sha, level, globs, frozen, sources, trees)
    requires forall s | s in sources :: HonestSource(sha, frozen, s)
    ensures StatesHonest(sha, Union(trees))
    decreases |sources|
  {
    hide AllGood, IsSourceTree, GoodSource, HonestSource, StatesHonest, Grounded, BelowSome, Connected, Plain, AtOrBelow;
    if sources == [] {
      assert StatesHonest(sha, map[]) by { NothingHonest(sha); }
    } else {
      var n := |sources| - 1;
      GoodSplit(sha, frozen, sources, n);
      assert sources[..n + 1] == sources && trees == trees[..n] + [trees[n]];
      UnionHonest(sha, level, globs, frozen, sources[..n], trees[..n]);
      SourceHonest(sha, level, globs, frozen, sources[n], trees[n]);
      var before := UnionIsPart(sha, level, globs, frozen, sources[..n], trees[..n]);
      var own := SourcePiece(sha, level, globs, frozen, sources[n], trees[n]);
      GoodIsUnrelated(sha, frozen, sources);
      PiecesApart(sha, sources[..n], sources[n], Union(trees[..n]), trees[n]);
      GroundedPaths(sha, Union(trees[..n]), before);
      GroundedPaths(sha, trees[n], own);
      JoinHonest(sha, Union(trees[..n]), trees[n]);
    }
  }

  lemma NothingHonest(sha: Sha)
    ensures StatesHonest(sha, map[])
  {}

  lemma LayerHonest(sha: Sha, t: Tree, pre: Preimages, u: Tree)
    requires Grounded(sha, t, pre) && Plain(t) && Connected(t) && IsRootLayer(sha, t, u) && StatesHonest(sha, t)
    ensures StatesHonest(sha, t + u)
  {
    hide KidNames, Plain, Connected, GroundedNode, SortedNames, ParentForestPath, NodeBytes, MissingAbove;
    forall p | p in t + u ensures StateHonest(sha, t + u, p) {
      if p in u {
        if KidNames(t + u, p) == {} { NoKidsNoRefs(t + u, p); }
      } else {
        PartKidsKept(sha, t, pre, u, p);
        assert StateHonest(sha, t, p);
      }
    }
  }

  /** The states of an assembled forest are honest, so an empty diff against it means equal hashes, and every
      drifted file is accounted for. */
  lemma ForestStatesHonest(sha: Sha, level: Level, globs: seq<string>, frozen: FrozenBaseline, sources: seq<Source>, t: Tree)
    requires AllGood(sha, frozen, sources) && IsForest(sha, level, globs, frozen, sources, t)
    requires forall s | s in sources :: HonestSource(sha, frozen, s)
    ensures StatesHonest(sha, t)
  {
    hide AllGood, AreSourceTrees, Union, IsRootLayer, Grounded, Connected, Plain, BelowSome, HonestSource, StatesHonest;
    var trees, layer :| IsLayered(sha, level, globs, frozen, sources, trees, layer) && t == Union(trees) + layer;
    var part := UnionIsPart(sha, level, globs, frozen, sources, trees);
    UnionHonest(sha, level, globs, frozen, sources, trees);
    LayerHonest(sha, Union(trees), part, layer);
  }

  // ---- The loop over the sources ----

  lemma {:induction false} TreeOfJoin(a: seq<StoredNode>, b: seq<StoredNode>)
    ensures TreeOf(a + b) == TreeOf(a) + TreeOf(b)
    decreases |b|
  {
    if b == [] {
      assert a + b == a;
    } else {
      var n := |b| - 1;
      TreeOfJoin(a, b[..n]);
      var s := a + b;
      assert s[..|a| + n] == a + b[..n] && s[|a| + n] == b[n] && |s| - 1 == |a| + n;
      assert TreeOf(s) == TreeOf(a + b[..n])[b[n].path := b[n]];
      hide TreeOf;
    }
  }

  lemma DistinctJoin(a: seq<StoredNode>, b: seq<StoredNode>)
    requires DistinctNodes(a) && DistinctNodes(b) && TreeOf(a).Keys !! TreeOf(b).Keys
    ensures DistinctNodes(a + b)
  {
    hide TreeOf;
    forall i, j | 0 <= i < j < |a + b| ensures (a + b)[i].path != (a + b)[j].path {
      if i < |a| <= j {
        TreeOfHas(a, i);
        TreeOfHas(b, j - |a|);
      }
    }
  }

  /** `[...byPath.values()]`, in some order. */
  method ListEntries(m: EntryMap) returns (entries: seq<RawEntry>)
    requires forall p | p in m :: m[p].path == p
    ensures DistinctEntries(entries) && ByPathMap(entries) == m
  {
    hide ByPathMap;
    entries := [];
    var todo := m.Keys;
    NothingListed();
    while todo != {}
      invariant todo <= m.Keys && DistinctEntries(entries)
      invariant ByPathMap(entries).Keys == m.Keys - todo && forall p | p in m && p !in todo :: ByPathMap(entries)[p] == m[p]
      decreases |todo|
    {
      var p :| p in todo;
      EntryIsNew(entries, m[p]);
      entries, todo := entries + [m[p]], todo - {p};
    }
  }

  lemma NothingListed()
    ensures ByPathMap([]) == map[]
  {}

  lemma EntryIsNew(entries: seq<RawEntry>, e: RawEntry)
    requires DistinctEntries(entries) && e.path !in ByPathMap(entries)
    ensures DistinctEntries(entries + [e]) && ByPathMap(entries + [e]) == ByPathMap(entries)[e.path := e]
  {
    assert (entries + [e])[..|entries|] == entries;
    forall i | 0 <= i < |entries| ensures entries[i].path != e.path { ByPathMapAt(entries, i); }
  }

  /** One source's nodes. */
  method AssembleSource(sha: Sha, level: Level, globs: seq<string>, frozen: FrozenBaseline, src: Source) returns (nodes: seq<StoredNode>)
    requires GoodSource(sha, frozen, src)
    ensures IsSourceTree(sha, level, globs, frozen, src, TreeOf(nodes)) && DistinctNodes(nodes)
  {
    hide IsSynthesis, IsAssembled, TreeEntries, NothingBelowLeaves, TreeOf, IsPiece, Proper, AllAbsolute, ByPathMap;
    if !src.available {
      nodes := FreezeSubtree(sha, src.prefix, frozen(src.prefix));
      FreezeIsDistinct(sha, src.prefix, frozen(src.prefix), nodes);
    } else {
      assert src.prefix != "" by { ProperNotEmpty(src.prefix); }
      var m := SynthesizeEntries(src.prefix, src.enumerated);
      SynthesisIsTree(src.prefix, src.enumerated, m);
      EntriesByPath(src.prefix, m);
      var entries := ListEntries(m);
      nodes := AssembleSubtree(sha, JobOf(level, globs, src, m), entries);
    }
  }

  lemma EntriesByPath(root: string, m: EntryMap)
    requires TreeEntries(root, m)
    ensures forall p | p in m :: m[p].path == p
  {}

  lemma FreezeIsDistinct(sha: Sha, prefix: string, baseline: seq<StoredNode>, out: seq<StoredNode>)
    requires IsFrozen(sha, prefix, baseline, out) && DistinctNodes(baseline)
    ensures DistinctNodes(out)
  {}

  /** The whole forest: every source's subtree, then the layer above them. */
  method AssembleForest(sha: Sha, level: Level, globs: seq<string>, frozen: FrozenBaseline, sources: seq<Source>)
    returns (all: seq<StoredNode>)
    requires AllGood(sha, frozen, sources)
    ensures IsForest(sha, level, globs, frozen, sources, TreeOf(all))
  {
    hide TreeOf, IsSourceTree, AllGood, GoodSource, IsForestPart, IsPiece, DistinctNodes, IsRootLayer, Union;
    all := [];
    ghost var trees: seq<Tree>, pre: Preimages := [], map[];
    NoSources(sha);
    NothingAssembled();
    for i := 0 to |sources|
      invariant AreSourceTrees(sha, level, globs, frozen, sources[..i], trees)
      invariant DistinctNodes(all) && TreeOf(all) == Union(trees) && IsForestPart(sha, sources[..i], Union(trees), pre)
    {
      GoodSplit(sha, frozen, sources, i);
      GoodIsUnrelated(sha, frozen, sources[..i + 1]);
      var nodes := AssembleSource(sha, level, globs, frozen, sources[i]);
      ghost var t := TreeOf(nodes);
      ghost var own := SourcePiece(sha, level, globs, frozen, sources[i], t);
      AddPiece(sha, sources[..i], sources[i], Union(trees), pre, t, own);
      TreeOfJoin(all, nodes);
      DistinctJoin(all, nodes);
      UnionMore(trees, t);
      all, trees, pre := all + nodes, trees + [t], pre + own;
    }
    assert sources[..|sources|] == sources;
    PartIsRooted(sha, sources, TreeOf(all), pre);
    var above := FoldForestRoots(sha, all);
    TreeOfJoin(all, above);
    assert IsLayered(sha, level, globs, frozen, sources, trees, TreeOf(above));
    all := all + above;
  }

  lemma NothingAssembled()
    ensures TreeOf([]) == Union([]) == map[] && DistinctNodes([])
  {}

  lemma UnionMore(trees: seq<Tree>, t: Tree)
    ensures Union(trees + [t]) == Union(trees) + t
  {
    assert (trees + [t])[..|trees|] == trees;
  }

  lemma PartIsRooted(sha: Sha, sources: seq<Source>, t: Tree, pre: Preimages)
    requires IsForestPart(sha, sources, t, pre)
    ensures Rooted(t) && Plain(t)
  {
    hide KidNames, NodeHashed, LeafName, ParentForestPath, Proper;
    forall p | p in t ensures t[p].path == p { assert GroundedNode(sha, t, p, pre[p]); }
  }
}
