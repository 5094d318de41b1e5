/** Forests assembled against the baseline they are compared with (src/integrity/integrityEngine.ts,
    computeForestNodes): what a source that cannot be reached contributes is read back from that baseline. */
module AssembledForests {
  import opened Utf8
  import opened ForestPaths
  import opened Folding
  import opened Options
  import opened MerkleTrees
  import opened TreeDiff
  import opened CleanFolds
  import opened NodeStores
  import opened Synthesis
  import opened Assembly
  import opened Forest
  import opened ForestAssembly
  import opened AcceptPolicy
  import opened IntegrityEngines

  /** The nodes of the baseline at or below a prefix. */
  ghost function BelowPart(b: Tree, prefix: string): Tree { map p | p in b && AtOrBelow(prefix, p) :: b[p] }

  /** What is asked of the sources: their own prefixes, and enumerations as a node gives them. */
  ghost predicate ReadySources(sources: seq<Source>) {
    && Unrelated(sources)
    && forall s | s in sources ::
      && Proper(s.prefix) && PlainPath(s.prefix)
      && (s.available ==>
            && AllAbsolute(s.enumerated) && NothingBelowLeaves(s.prefix, s.enumerated)
            && forall e | e in s.enumerated :: NulFreePath(e.nodePath))
  }

  /** `frozen` lists what the baseline has for every source that cannot be reached. */
  ghost predicate FrozenFrom(frozen: FrozenBaseline, sources: seq<Source>, b: Tree) {
    forall s | s in sources && !s.available ::
      DistinctNodes(frozen(s.prefix)) && TreeOf(frozen(s.prefix)) == BelowPart(b, s.prefix)
  }

  /** The baseline has directories at the prefixes it is frozen at. */
  ghost predicate DirectoriesAt(b: Tree, sources: seq<Source>) {
    forall s | s in sources && !s.available && s.prefix in b :: !b[s.prefix].IsLeaf()
  }

  /** A forest assembled from `sources`, with what cannot be reached frozen from `b`. */
  ghost predicate AssembledFrom(sha: Sha, level: Level, globs: seq<string>, sources: seq<Source>, b: Tree, w: Tree) {
    exists frozen :: FrozenFrom(frozen, sources, b) && IsForest(sha, level, globs, frozen, sources, w)
  }

  // ---- A part of a Merkle tree is a piece ----

  lemma BelowKids(b: Tree, prefix: string, p: string)
    requires AllLinked(b) && AtOrBelow(prefix, p)
    ensures KidNames(BelowPart(b, prefix), p) == KidNames(b, p)
    ensures forall n | n in KidNames(b, p) :: HashAt(BelowPart(b, prefix), JoinPath(p, n)) == HashAt(b, JoinPath(p, n))
  {
    hide Proper, ParentForestPath, LeafName;
    var t := BelowPart(b, prefix);
    forall q | q in b && b[q].parentPath == Some(p) ensures q in t { assert Linked(b, q); }
    forall n | n in KidNames(b, p) ensures HashAt(t, JoinPath(p, n)) == HashAt(b, JoinPath(p, n)) {
      KidInTree(b, p, n);
    }
  }

  lemma {:induction false} PlainBelow(b: Tree, prefix: string, p: string)
    requires AllLinked(b) && PlainPath(prefix) && p in b && AtOrBelow(prefix, p)
    ensures PlainPath(p)
    decreases |p|
  {
    hide AllLinked, AtOrBelow;
    BelowExtends(prefix, p);
    assert p[0] == prefix[0];
    NulFreeBelow(b, prefix, p);
  }

  lemma {:induction false} NulFreeBelow(b: Tree, prefix: string, p: string)
    requires AllLinked(b) && '\0' !in prefix && p in b && AtOrBelow(prefix, p)
    ensures '\0' !in p
    decreases |p|
  {
    assert Linked(b, p);
    if p != prefix {
      NulFreeBelow(b, prefix, ParentForestPath(p));
      JoinOfParts(p);
      assert forall c | c in JoinPath(ParentForestPath(p), LeafName(p)) :: c in ParentForestPath(p) || c == '/' || c in LeafName(p);
    }
  }

  lemma BelowNode(sha: Sha, b: Tree, pre: Preimages, prefix: string, p: string)
    requires Merkle(sha, b, pre) && p in BelowPart(b, prefix) && prefix != SUPER_ROOT
    ensures GroundedNode(sha, BelowPart(b, prefix), p, pre[p])
    ensures BelowPart(b, prefix)[p].parentPath == Some(ParentForestPath(p)) && Proper(p)
  {
    hide KidNames, LeafName, SortedNames, NodeBytes, ParentForestPath, Proper, KidRefs, AtOrBelow;
    assert Linked(b, p);
    if p == SUPER_ROOT { AtOrBelowLength(prefix, p); }
    BelowKids(b, prefix, p);
    KidRefsFrame(b, BelowPart(b, prefix), p);
  }

  lemma BelowConnected(b: Tree, prefix: string)
    requires AllLinked(b)
    ensures Connected(BelowPart(b, prefix))
  {
    hide ParentForestPath, AllLinked;
    var t := BelowPart(b, prefix);
    forall p, q | p in t && q in t && AtOrBelow(p, q) && p != q ensures ParentForestPath(q) in t {
      AtOrBelowTransitive(prefix, p, ParentForestPath(q));
      LinkedParent(b, q);
    }
  }

  /** What a Merkle baseline has below a prefix fits a forest again. */
  lemma BelowIsPiece(sha: Sha, b: Tree, pre: Preimages, prefix: string) returns (own: Preimages)
    requires Merkle(sha, b, pre) && Proper(prefix) && PlainPath(prefix)
    ensures IsPiece(sha, prefix, BelowPart(b, prefix), own)
  {
    hide Proper, PlainPath, GroundedNode, Connected, ParentForestPath, AtOrBelow, Merkle;
    MerkleLinked(sha, b, pre);
    ProperNotEmpty(prefix);
    MerkleKeys(sha, b, pre);
    var t := BelowPart(b, prefix);
    own := map p | p in t :: pre[p];
    BelowConnected(b, prefix);
    forall p | p in t ensures GroundedNode(sha, t, p, own[p]) && PlainPath(p) && t[p].parentPath == Some(ParentForestPath(p)) && Proper(p) {
      BelowNode(sha, b, pre, prefix, p);
      PlainBelow(b, prefix, p);
    }
  }

  lemma MerkleKeys(sha: Sha, t: Tree, pre: Preimages)
    requires Merkle(sha, t, pre)
    ensures pre.Keys == t.Keys
  {}

  lemma BelowHonest(sha: Sha, b: Tree, prefix: string)
    requires AllLinked(b) && StatesHonest(sha, b)
    ensures StatesHonest(sha, BelowPart(b, prefix))
  {
    hide KidNames, AtOrBelow, AllLinked;
    forall p | p in BelowPart(b, prefix) ensures StateHonest(sha, BelowPart(b, prefix), p) {
      assert StateHonest(sha, b, p);
      BelowKids(b, prefix, p);
    }
  }

  lemma FrozenIsGood(sha: Sha, frozen: FrozenBaseline, sources: seq<Source>, b: Tree, pre: Preimages)
    requires Merkle(sha, b, pre) && ReadySources(sources) && FrozenFrom(frozen, sources, b)
    ensures AllGood(sha, frozen, sources)
  {
    hide Merkle, Proper, PlainPath, AllAbsolute, NothingBelowLeaves, NulFreePath, TreeOf, IsPiece, AtOrBelow, DistinctNodes;
    forall s | s in sources ensures GoodSource(sha, frozen, s) {
      if !s.available { var own := BelowIsPiece(sha, b, pre, s.prefix); }
    }
  }

  lemma FrozenIsHonest(sha: Sha, frozen: FrozenBaseline, sources: seq<Source>, b: Tree)
    requires AllLinked(b) && StatesHonest(sha, b) && FrozenFrom(frozen, sources, b) && DirectoriesAt(b, sources)
    ensures forall s | s in sources :: HonestSource(sha, frozen, s)
  {
    hide AllLinked, StatesHonest, TreeOf, DistinctNodes, AtOrBelow;
    forall s | s in sources ensures HonestSource(sha, frozen, s) {
      if !s.available { BelowHonest(sha, b, s.prefix); }
    }
  }

  // ---- Where an assembled forest is unavailable ----

  lemma {:induction false} UnionHas(trees: seq<Tree>, p: string)
    requires p in Union(trees)
    ensures exists i :: 0 <= i < |trees| && p in trees[i] && trees[i][p] == Union(trees)[p]
    decreases |trees|
  {
    var n := |trees| - 1;
    if p !in trees[n] {
      UnionHas(trees[..n], p);
      var i :| 0 <= i < n && p in trees[..n][i] && trees[..n][i][p] == Union(trees[..n])[p];
      assert trees[i] == trees[..n][i];
    }
  }

  /** An enumerated node is never unavailable. */
  lemma EnumeratedState(sha: Sha, level: Level, globs: seq<string>, src: Source, m: EntryMap, t: Tree, p: string)
    requires IsSynthesis(src.prefix, src.enumerated, m) && IsAssembled(sha, JobOf(level, globs, src, m), t) && p in t
    ensures t[p].state != Unavailable
  {
    hide KidRefs, KidNames, SortedNames, FileBytes, Included, AtOrBelow;
    IncludedAreEntries(JobOf(level, globs, src, m));
    EntryForCases(src.prefix, src.enumerated, p);
  }

  /** A frozen node has the hash the baseline has there. */
  lemma FrozenHash(sha: Sha, prefix: string, baseline: seq<StoredNode>, out: seq<StoredNode>, b: Tree, p: string)
    requires IsFrozen(sha, prefix, baseline, out) && TreeOf(baseline) == BelowPart(b, prefix) && p in TreeOf(out) && p in b
    ensures TreeOf(out)[p].hash == b[p].hash
  {
    hide TreeOf, FreezeNode, AtOrBelow;
    if baseline == [] {
      OneNode(Placeholder(sha, prefix));
      NothingBelow(b, prefix, baseline);
    } else {
      FreezeTree(prefix, baseline, out);
      FreezeKeeps(prefix, BelowPart(b, prefix)[p]);
    }
  }

  lemma NothingBelow(b: Tree, prefix: string, baseline: seq<StoredNode>)
    requires baseline == [] && TreeOf(baseline) == BelowPart(b, prefix)
    ensures prefix !in b
  {
    assert AtOrBelow(prefix, prefix);
    assert prefix !in BelowPart(b, prefix);
  }

  lemma UnavailableHash(sha: Sha, level: Level, globs: seq<string>, frozen: FrozenBaseline, sources: seq<Source>, b: Tree, w: Tree, p: string)
    requires FrozenFrom(frozen, sources, b) && IsForest(sha, level, globs, frozen, sources, w)
    requires p in b && p in w && w[p].state == Unavailable
    ensures w[p].hash == b[p].hash
  {
    hide Union, TreeOf, IsSynthesis, IsAssembled, IsFrozen, JobOf, BelowPart, DistinctNodes, MissingAbove, KidNames, KidRefs, SortedNames;
    var trees, layer :| IsLayered(sha, level, globs, frozen, sources, trees, layer) && w == Union(trees) + layer;
    if p !in layer {
      UnionHas(trees, p);
      var i :| 0 <= i < |trees| && p in trees[i] && trees[i][p] == Union(trees)[p];
      var src := sources[i];
      if src.available {
        var m :| IsSynthesis(src.prefix, src.enumerated, m) && IsAssembled(sha, JobOf(level, globs, src, m), trees[i]);
        EnumeratedState(sha, level, globs, src, m, trees[i], p);
      } else {
        var out :| IsFrozen(sha, src.prefix, frozen(src.prefix), out) && trees[i] == TreeOf(out);
        FrozenHash(sha, src.prefix, frozen(src.prefix), out, b, p);
      }
    }
  }

  // ---- Main results ----

  /** Against a Merkle baseline every assembly gives a Merkle forest that agrees with it wherever it is unavailable. */
  lemma AssembledAgrees(sha: Sha, level: Level, globs: seq<string>, sources: seq<Source>, b: Tree, preB: Preimages, w: Tree)
    returns (preW: Preimages)
    requires Merkle(sha, b, preB) && ReadySources(sources) && AssembledFrom(sha, level, globs, sources, b, w)
    ensures Merkle(sha, w, preW) && FrozenAgree(b, w)
    ensures StatesHonest(sha, b) && DirectoriesAt(b, sources) ==> StatesHonest(sha, w)
  {
    hide Merkle, ReadySources, FrozenFrom, IsForest, AllGood, StatesHonest, DirectoriesAt, KidNames, HonestSource;
    var frozen :| FrozenFrom(frozen, sources, b) && IsForest(sha, level, globs, frozen, sources, w);
    FrozenIsGood(sha, frozen, sources, b, preB);
    preW := ForestOfSourcesIsMerkle(sha, level, globs, frozen, sources, w);
    if StatesHonest(sha, b) && DirectoriesAt(b, sources) {
      MerkleLinked(sha, b, preB);
      FrozenIsHonest(sha, frozen, sources, b);
      ForestStatesHonest(sha, level, globs, frozen, sources, w);
    }
    forall p | p in b && p in w && b[p].state == Unavailable && w[p].state == Unavailable ensures b[p].hash == w[p].hash {
      UnavailableHash(sha, level, globs, frozen, sources, b, w, p);
    }
  }

  /** So the diff of an assembled forest against its baseline is empty exactly when the hashes agree, with no more asked
      of the forest. */
  lemma AssembledDriftEmptyIff(
    sha: Sha, level: Level, globs: seq<string>, sources: seq<Source>, b: Tree, preB: Preimages, w: Tree, r: string)
    requires Merkle(sha, b, preB) && StatesHonest(sha, b) && DirectoriesAt(b, sources)
    requires ReadySources(sources) && AssembledFrom(sha, level, globs, sources, b, w)
    requires r in b && r in w
    ensures Rooted(b) && Rooted(w) && (Drift(b, w, r) == [] <==> b[r].hash == w[r].hash)
  {
    hide Merkle, ReadySources, AssembledFrom, StatesHonest, DirectoriesAt, FrozenAgree, Drift;
    var preW := AssembledAgrees(sha, level, globs, sources, b, preB, w);
    MerkleLinked(sha, b, preB);
    MerkleLinked(sha, w, preW);
    DriftEmptyIffHashesAgree(sha, b, preB, w, preW, r);
  }

  // ---- The engine on assembled forests ----

  /** `computeForestNodes`: the forest over the sources, what cannot be reached read back from the store. */
  method ComputeForestNodes(sha: Sha, store: MemoryNodeStore, level: Level, globs: seq<string>, sources: seq<Source>, ghost preB: Preimages)
    returns (all: seq<StoredNode>)
    requires store.Valid() && ReadySources(sources) && Merkle(sha, Partition(store.m, Baseline, level), preB)
    ensures AssembledFrom(sha, level, globs, sources, Partition(store.m, Baseline, level), TreeOf(all))
    ensures Rooted(TreeOf(all)) && exists preW :: Merkle(sha, TreeOf(all), preW)
  {
    hide Merkle, ReadySources, TreeOf, Partition, IsForest, AllGood, DistinctNodes, FrozenAgree, StatesHonest;
    ghost var b := Partition(store.m, Baseline, level);
    var lists: map<string, seq<StoredNode>> := map[];
    for i := 0 to |sources|
      invariant forall j | 0 <= j < i && !sources[j].available :: sources[j].prefix in lists
      invariant forall p | p in lists :: DistinctNodes(lists[p]) && TreeOf(lists[p]) == UnderPart(b, p)
    {
      if !sources[i].available {
        var nodes := store.AllUnder(Baseline, level, sources[i].prefix);
        lists := lists[sources[i].prefix := nodes];
      }
    }
    var frozen: FrozenBaseline := p => if p in lists then lists[p] else [];
    ListsAreFrozen(frozen, lists, sources, b);
    FrozenIsGood(sha, frozen, sources, b, preB);
    all := AssembleForest(sha, level, globs, frozen, sources);
    ghost var preW := AssembledAgrees(sha, level, globs, sources, b, preB, TreeOf(all));
    MerkleLinked(sha, TreeOf(all), preW);
  }

  lemma ListsAreFrozen(frozen: FrozenBaseline, lists: map<string, seq<StoredNode>>, sources: seq<Source>, b: Tree)
    requires ReadySources(sources) && forall p :: frozen(p) == if p in lists then lists[p] else []
    requires forall s | s in sources && !s.available :: s.prefix in lists
    requires forall p | p in lists :: DistinctNodes(lists[p]) && TreeOf(lists[p]) == UnderPart(b, p)
    ensures FrozenFrom(frozen, sources, b)
  {
    hide TreeOf, DistinctNodes, Unrelated, Proper;
    forall s | s in sources && !s.available
      ensures DistinctNodes(frozen(s.prefix)) && TreeOf(frozen(s.prefix)) == BelowPart(b, s.prefix)
    {
      UnderIsBelowPart(b, s.prefix);
    }
  }

  lemma UnderIsBelowPart(b: Tree, prefix: string)
    requires Proper(prefix)
    ensures UnderPart(b, prefix) == BelowPart(b, prefix)
  {
    hide AtOrBelow, NodeStores.Under;
    assert prefix != WHOLE_TREE by { WholeIsNotProper(); }
    ProperNotEmpty(prefix);
    forall q { UnderIsBelow(prefix, q); }
  }

  lemma WholeIsNotProper()
    ensures !Proper(WHOLE_TREE)
  {}

  /** What an assembly of every level leaves to be compared. */
  ghost predicate AllAssembled(sha: Sha, globs: seq<string>, sources: Level -> seq<Source>, b: Level -> Tree, forest: Level -> seq<StoredNode>) {
    forall l ::
      && AssembledFrom(sha, l, globs, sources(l), b(l), TreeOf(forest(l)))
      && Rooted(TreeOf(forest(l))) && exists preW :: Merkle(sha, TreeOf(forest(l)), preW)
  }

  ghost function Baselines(m: Rows): Level -> Tree { l => Partition(m, Baseline, l) }

  method ComputeAllLevels(sha: Sha, store: MemoryNodeStore, globs: seq<string>, sources: Level -> seq<Source>, ghost preB: Level -> Preimages)
    returns (forest: Level -> seq<StoredNode>)
    requires store.Valid() && forall l :: ReadySources(sources(l)) && Merkle(sha, Partition(store.m, Baseline, l), preB(l))
    ensures AllAssembled(sha, globs, sources, Baselines(store.m), forest)
  {
    hide Merkle, ReadySources, TreeOf, Partition, AssembledFrom, Rooted;
    var l1 := ComputeForestNodes(sha, store, L1, globs, sources(L1), preB(L1));
    var l2 := ComputeForestNodes(sha, store, L2, globs, sources(L2), preB(L2));
    var l3 := ComputeForestNodes(sha, store, L3, globs, sources(L3), preB(L3));
    forest := (l: Level) => match l case L1 => l1 case L2 => l2 case L3 => l3;
    ghost var b := Baselines(store.m);
    forall l: Level ensures AssembledFrom(sha, l, globs, sources(l), b(l), TreeOf(forest(l)))
                  && Rooted(TreeOf(forest(l))) && exists preW :: Merkle(sha, TreeOf(forest(l)), preW)
    {
      match l case L1 => case L2 => case L3 =>
    }
  }

  /** An automatic accept on assembled forests. The verify and the folds assemble one each: the sources may have
      changed, or gone, in between; the baseline they are frozen from and compared with has not. */
  method AcceptAssembled(
    sha: Sha, store: MemoryNodeStore, cfg: AcceptPolicyConfig, explain: map<Digest, string>, globs: seq<string>,
    sources: Level -> seq<Source>, later: Level -> seq<Source>, level: VerifyLevel, scope: string, ghost preB: Level -> Preimages)
    returns (report: VerifyReport, folded: seq<PolicyOutcome>, flagged: seq<PolicyOutcome>,
             seen: Level -> seq<StoredNode>, read: Level -> seq<StoredNode>)
    requires store.Valid() && forall l :: Merkle(sha, Partition(store.m, Baseline, l), preB(l))
    requires forall l :: ReadySources(sources(l)) && ReadySources(later(l))
    modifies store
    ensures AllAssembled(sha, globs, sources, Baselines(old(store.m)), seen) && AllAssembled(sha, globs, later, Baselines(old(store.m)), read)
    ensures report.Compared? ==>
      && RightLevels(level, report.perLevel)
      && IsReport(report.perLevel, explain, cfg, report.drifts, report.policy)
      && folded == Decided(report.policy, Fold) && flagged == Decided(report.policy, Flag)
      && (forall l :: Rooted(Partition(old(store.m), Baseline, l)))
      && (forall l | l in report.perLevel ::
            IsFileDrift(Partition(old(store.m), Baseline, l), TreeOf(seen(l)), scope, report.perLevel[l]))
      && (forall l :: Partition(store.m, Baseline, l) ==
            AfterBatch(sha, LevelsOf(level), l, Partition(old(store.m), Baseline, l), TreeOf(read(l)), PathsOf(folded)))
  {
    hide Merkle, ReadySources, TreeOf, Partition, AssembledFrom, Rooted, IsReport, Decided, IsFileDrift, AfterBatch, RightLevels, PathsOf;
    seen := ComputeAllLevels(sha, store, globs, sources, preB);
    read := ComputeAllLevels(sha, store, globs, later, preB);
    forall l ensures Rooted(Partition(store.m, Baseline, l)) { MerkleLinked(sha, Partition(store.m, Baseline, l), preB(l)); }
    var engine := new IntegrityEngine(sha, store, cfg, seen, explain);
    report, folded, flagged := engine.AutoAccept(level, scope, read);
  }
}
