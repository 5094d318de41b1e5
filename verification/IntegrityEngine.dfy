/** The drift report and the automatic accept (src/integrity/integrityEngine.ts). What a verify reads from the
    node is the constant `forest`; an automatic accept reads the node again before it folds, and may see
    other files then. */
module IntegrityEngines {
  import opened Sorting
  import opened Utf8
  import opened Utf16
  import opened ForestPaths
  import opened Folding
  import opened Options
  import opened MerkleTrees
  import opened TreeDiff
  import opened BaselineFold
  import opened CleanFolds
  import opened BaselineDrift
  import opened NodeStores
  import opened ChildLists
  import opened AcceptPolicy
  import opened Globs

  datatype VerifyLevel = Smart | Only(level: Level)

  type Entries = map<string, DriftEntry>

  datatype VerifyReport =
    | Seeded(seededLevels: seq<Level>)
    | Compared(perLevel: map<Level, Entries>, drifts: seq<LeafDrift>, policy: seq<PolicyOutcome>)

  datatype FoldRecord = FoldRecord(path: string, reason: Reason)

  function LevelsOf(v: VerifyLevel): seq<Level> { if v.Smart? then [L1, L2, L3] else [v.level] }

  /** `entries` holds the file entries of the diff, by path. */
  ghost predicate IsFileDrift(b: Tree, w: Tree, r: string, entries: Entries)
    requires Rooted(b) && Rooted(w)
  {
    && (forall e | e in Drift(b, w, r) && FileEntry(b, w, e.path) :: e.path in entries)
    && (forall p | p in entries :: entries[p] in Drift(b, w, r) && entries[p].path == p && FileEntry(b, w, p))
  }

  function EntryOf(perLevel: map<Level, Entries>, l: Level, p: string): Option<DriftEntry> {
    if l in perLevel && p in perLevel[l] then Some(perLevel[l][p]) else None
  }

  function PathsAt(perLevel: map<Level, Entries>, l: Level): set<string> {
    if l in perLevel then perLevel[l].Keys else {}
  }

  function AllPaths(perLevel: map<Level, Entries>): set<string> {
    PathsAt(perLevel, L1) + PathsAt(perLevel, L2) + PathsAt(perLevel, L3)
  }

  /** `forestToNodePath`. */
  function ForestToNodePath(p: string): string {
    if p == "host" || "host/" <= p then (if p == "host" then "/" else p[4..])
    else if "pct/" <= p && LeadingDigits(p[4..]) > 0 && OneLine(p[4 + LeadingDigits(p[4..])..]) then
      var rest := p[4 + LeadingDigits(p[4..])..];
      if rest == "" then "/" else rest
    else "/" + p
  }

  function LeadingDigits(s: string): (n: nat)
    ensures n <= |s|
  {
    if s != "" && '0' <= s[0] <= '9' then 1 + LeadingDigits(s[1..]) else 0
  }

  /** The policy's view of one drifted path; the richest level present decides what explains it. */
  function LeafDriftOf(perLevel: map<Level, Entries>, explain: map<Digest, string>, p: string): LeafDrift {
    var l1, l2, l3 := EntryOf(perLevel, L1, p), EntryOf(perLevel, L2, p), EntryOf(perLevel, L3, p);
    var best := if l3.Some? then l3 else if l2.Some? then l2 else l1;
    var explainedBy := if best.Some? && best.value.workingHash.Some? && best.value.workingHash.value in explain
                       then Some(explain[best.value.workingHash.value]) else None;
    LeafDrift(p, ForestToNodePath(p), explainedBy.Some?, explainedBy, l1.Some?, l2.Some?, l3.Some?)
  }

  ghost predicate IsReport(perLevel: map<Level, Entries>, explain: map<Digest, string>, cfg: AcceptPolicyConfig,
                           drifts: seq<LeafDrift>, policy: seq<PolicyOutcome>) {
    && (forall i, j | 0 <= i < j < |drifts| :: drifts[i].path != drifts[j].path && PathLe(drifts[i].path, drifts[j].path))
    && (forall i | 0 <= i < |drifts| :: drifts[i].path in AllPaths(perLevel)
                                        && drifts[i] == LeafDriftOf(perLevel, explain, drifts[i].path))
    && (forall p | p in AllPaths(perLevel) :: exists i :: 0 <= i < |drifts| && drifts[i].path == p)
    && IsPolicyFor(drifts, cfg, policy)
  }

  /** The richest level that reports the path: L3, else L2, else L1. */
  predicate IsRichest(perLevel: map<Level, Entries>, l: Level, p: string) {
    && l in perLevel && p in perLevel[l]
    && (l != L3 ==> !(L3 in perLevel && p in perLevel[L3]))
    && (l == L1 ==> !(L2 in perLevel && p in perLevel[L2]))
  }

  lemma RichestExists(perLevel: map<Level, Entries>, p: string)
    requires exists l | l in perLevel :: p in perLevel[l]
    ensures exists l :: IsRichest(perLevel, l, p)
  {
    if L3 in perLevel && p in perLevel[L3] {
      assert IsRichest(perLevel, L3, p);
    } else if L2 in perLevel && p in perLevel[L2] {
      assert IsRichest(perLevel, L2, p);
    } else {
      var l :| l in perLevel && p in perLevel[l];
      assert l == L1 && IsRichest(perLevel, l, p);
    }
  }

  /** What the policy is told of a drifted path: the levels that report it, and whether the audit log explains the content
      it has now, by the hash of its working node at the richest of them. A removed path is never explained. */
  lemma ReportTells(perLevel: map<Level, Entries>, explain: map<Digest, string>, cfg: AcceptPolicyConfig,
                    drifts: seq<LeafDrift>, policy: seq<PolicyOutcome>, i: nat, l: Level, b: Tree, w: Tree, scope: string)
    requires IsReport(perLevel, explain, cfg, drifts, policy) && i < |drifts|
    requires IsRichest(perLevel, l, drifts[i].path) && Rooted(b) && Rooted(w) && IsFileDrift(b, w, scope, perLevel[l])
    ensures drifts[i].l1 <==> L1 in perLevel && drifts[i].path in perLevel[L1]
    ensures drifts[i].l2 <==> L2 in perLevel && drifts[i].path in perLevel[L2]
    ensures drifts[i].l3 <==> L3 in perLevel && drifts[i].path in perLevel[L3]
    ensures drifts[i].nodePath == ForestToNodePath(drifts[i].path)
    ensures drifts[i].explained <==> drifts[i].path in w && w[drifts[i].path].hash in explain
    ensures drifts[i].explainedBy == if drifts[i].explained then Some(explain[w[drifts[i].path].hash]) else None
  {
    hide Drift, Rooted, FileEntry, ForestToNodePath, IsPolicyFor, AllPaths;
    EntrySays(b, w, scope, perLevel[l][drifts[i].path]);
  }

  function PathsOf(out: seq<PolicyOutcome>): seq<string> { seq(|out|, i requires 0 <= i < |out| => out[i].path) }

  lemma LeadingDigitsStep(s: string)
    ensures s == "" || !('0' <= s[0] <= '9') ==> LeadingDigits(s) == 0
    ensures s != "" && '0' <= s[0] <= '9' ==> LeadingDigits(s) == 1 + LeadingDigits(s[1..])
  {}

  lemma {:induction false} LeadingDigitsOf(s: string, n: nat)
    requires n <= |s| && (forall i | 0 <= i < n :: '0' <= s[i] <= '9') && (n == |s| || !('0' <= s[n] <= '9'))
    ensures LeadingDigits(s) == n
    decreases n
  {
    hide LeadingDigits;
    LeadingDigitsStep(s);
    if n > 0 {
      assert forall i | 0 <= i < n - 1 :: s[1..][i] == s[i + 1];
      LeadingDigitsOf(s[1..], n - 1);
    }
  }

  /** A container's path is the rest after its id, except where that holds a line terminator: then the forest path
      itself is judged, which no protected entry for the guest's own path catches. */
  lemma ContainerNodePath(id: string, rest: string)
    requires id != "" && (forall c | c in id :: '0' <= c <= '9') && (rest == "" || !('0' <= rest[0] <= '9'))
    ensures ForestToNodePath("pct/" + id + rest) ==
            if !OneLine(rest) then "/pct/" + id + rest else if rest == "" then "/" else rest
  {
    hide LeadingDigits, OneLine, ForestToNodePath;
    var p := "pct/" + id + rest;
    assert forall i | 0 <= i < |id| :: (id + rest)[i] == id[i] && id[i] in id;
    LeadingDigitsOf(id + rest, |id|);
    assert p[..4] == "pct/" && p[4..] == id + rest && p[4 + |id|..] == rest;
    ContainerPathOf(p, |id|);
    assert "/" + p == "/pct/" + id + rest;
  }

  /** A host path is what follows `host`, which alone is the root. */
  lemma HostNodePath(rest: string)
    requires rest == "" || rest[0] == '/'
    ensures ForestToNodePath("host" + rest) == if rest == "" then "/" else rest
  {
    var p := "host" + rest;
    assert p[..4] == "host" && p[4..] == rest;
    if rest != "" { assert p[..5] == "host/"; }
  }

  /** Any other path is judged as it is, made absolute. */
  lemma OtherNodePath(p: string)
    requires p != "host" && !("host/" <= p) && !("pct/" <= p && |p| > 4 && '0' <= p[4] <= '9')
    ensures ForestToNodePath(p) == "/" + p
  {
    hide LeadingDigits, OneLine;
    if "pct/" <= p {
      LeadingDigitsStep(p[4..]);
      if |p| > 4 { assert p[4..][0] == p[4]; }
    }
  }

  lemma ContainerPathOf(p: string, n: nat)
    requires "pct/" <= p && 0 < n <= |p| - 4 && LeadingDigits(p[4..]) == n
    ensures var rest := p[4 + n..];
            ForestToNodePath(p) == if !OneLine(rest) then "/" + p else if rest == "" then "/" else rest
  {
    hide LeadingDigits, OneLine;
    assert p[0] == 'p' && "host"[0] == 'h' && "host/"[0] == 'h';
  }

  // ---- Refolding over the store ----

  lemma WholeReplaced(t: Tree, nodes: seq<StoredNode>)
    ensures Outside(t, WHOLE_TREE) + TreeOf(nodes) == TreeOf(nodes)
  {}

  lemma FoldAllAppend(sha: Sha, b: Tree, w: Tree, paths: seq<string>, p: string)
    requires Rooted(b) && Rooted(w)
    ensures FoldAll(sha, b, w, paths + [p]) == FoldPath(sha, FoldAll(sha, b, w, paths), w, p)
    decreases |paths|
  {
    hide FoldPath, Rooted;
    if paths == [] {
      assert (paths + [p])[1..] == [];
    } else {
      assert (paths + [p])[1..] == paths[1..] + [p] && (paths + [p])[0] == paths[0];
      FoldAllAppend(sha, FoldPath(sha, b, w, paths[0]), w, paths[1..], p);
    }
  }

  lemma OneNodeTree(n: StoredNode)
    ensures TreeOf([n]) == map[n.path := n]
  {}

  /** One level after a path was folded at the given levels. */
  ghost function FoldedAt(sha: Sha, levels: seq<Level>, l: Level, b: Tree, w: Tree, path: string): Tree
    requires Rooted(b) && Rooted(w)
  {
    if l in levels then FoldPath(sha, b, w, path) else b
  }

  /** The outcomes of one kind, in order. */
  function Decided(policy: seq<PolicyOutcome>, d: Decision): seq<PolicyOutcome> {
    if policy == [] then []
    else Decided(policy[..|policy| - 1], d) + if policy[|policy| - 1].decision == d then [policy[|policy| - 1]] else []
  }

  function Records(folded: seq<PolicyOutcome>): seq<FoldRecord> {
    seq(|folded|, i requires 0 <= i < |folded| => FoldRecord(folded[i].path, folded[i].reason))
  }

  lemma RecordsAppend(log: seq<FoldRecord>, folded: seq<PolicyOutcome>, o: PolicyOutcome)
    ensures log + Records(folded + [o]) == log + Records(folded) + [FoldRecord(o.path, o.reason)]
  {}

  lemma NoRecords(log: seq<FoldRecord>)
    ensures log + Records([]) == log
  {}

  lemma EmptyRooted()
    ensures Rooted(map[])
  {}

  lemma NothingDecided(policy: seq<PolicyOutcome>)
    requires policy == []
    ensures Decided(policy, Fold) == [] && Decided(policy, Flag) == []
  {}

  lemma DecidedStep(policy: seq<PolicyOutcome>, i: nat)
    requires i < |policy|
    ensures forall d :: Decided(policy[..i + 1], d) == Decided(policy[..i], d) + if policy[i].decision == d then [policy[i]] else []
  {
    assert policy[..i + 1][..i] == policy[..i];
  }

  /** One level after a batch of paths was folded at the given levels. */
  ghost function AfterBatch(sha: Sha, levels: seq<Level>, l: Level, b: Tree, w: Tree, paths: seq<string>): (r: Tree)
    requires Rooted(b) && Rooted(w)
    ensures Rooted(r)
  {
    if l in levels then FoldAll(sha, b, w, paths) else b
  }

  /** A smart run covers all levels, another one its own. */
  lemma WantedLevels(level: VerifyLevel, l: Level)
    ensures l in LevelsOf(level) <==> level == Smart || level == Only(l)
  {
    assert l == L1 || l == L2 || l == L3;
  }

  /** So an accept folds its paths into the baselines of those levels, and touches no other. */
  lemma AcceptedBaseline(sha: Sha, level: VerifyLevel, l: Level, b: Tree, w: Tree, paths: seq<string>)
    requires Rooted(b) && Rooted(w)
    ensures AfterBatch(sha, LevelsOf(level), l, b, w, paths) == if level == Smart || level == Only(l) then FoldAll(sha, b, w, paths) else b
  {
    hide LevelsOf, FoldAll, Rooted;
    WantedLevels(level, l);
  }

  /** One record per fold, in order, with its path and reason. */
  lemma RecordsAre(folded: seq<PolicyOutcome>)
    ensures |Records(folded)| == |folded|
    ensures forall i | 0 <= i < |folded| :: Records(folded)[i].path == folded[i].path && Records(folded)[i].reason == folded[i].reason
  {}

  lemma OtherLevels(sha: Sha, levels: seq<Level>, l: Level, b: Tree, w: Tree, paths: seq<string>)
    requires Rooted(b) && Rooted(w) && Rooted(map[])
    ensures l !in levels ==> AfterBatch(sha, levels, l, b, w, paths) == AfterBatch(sha, levels, l, b, map[], paths)
  {}

  lemma EmptyBatch(sha: Sha, levels: seq<Level>, l: Level, b: Tree, w: Tree)
    requires Rooted(b) && Rooted(w)
    ensures AfterBatch(sha, levels, l, b, w, PathsOf([])) == b
  {}

  lemma BatchAppend(sha: Sha, levels: seq<Level>, l: Level, b: Tree, w: Tree, folded: seq<PolicyOutcome>, o: PolicyOutcome)
    requires Rooted(b) && Rooted(w)
    ensures AfterBatch(sha, levels, l, b, w, PathsOf(folded + [o]))
         == FoldedAt(sha, levels, l, AfterBatch(sha, levels, l, b, w, PathsOf(folded)), w, o.path)
  {
    hide FoldPath, FoldAll, Rooted;
    assert PathsOf(folded + [o]) == PathsOf(folded) + [o.path];
    FoldAllAppend(sha, b, w, PathsOf(folded), o.path);
  }

  class IntegrityEngine {
    const sha: Sha
    const store: MemoryNodeStore
    const cfg: AcceptPolicyConfig
    const forest: Level -> seq<StoredNode>
    const explain: map<Digest, string>
    var log: seq<FoldRecord>

    constructor (sha: Sha, store: MemoryNodeStore, cfg: AcceptPolicyConfig, forest: Level -> seq<StoredNode>, explain: map<Digest, string>)
      ensures this.sha == sha && this.store == store && this.cfg == cfg && this.forest == forest && this.explain == explain
      ensures log == []
    {
      this.sha, this.store, this.cfg, this.forest, this.explain, this.log := sha, store, cfg, forest, explain, [];
    }

    ghost function Part(tree: TreeKind, level: Level): Tree
      reads store
    {
      Partition(store.m, tree, level)
    }

    /** One step of the refold: the node at `p` is rewritten from its children. */
    method RefoldOne(level: Level, p: string, node: StoredNode)
      requires store.Valid() && Rooted(Part(Baseline, level))
      requires p in Part(Baseline, level) && Part(Baseline, level)[p] == node
      modifies store
      ensures store.Valid() && OnlyPart(old(store.m), store.m, Baseline, level)
      ensures var t := old(Part(Baseline, level)); Part(Baseline, level) == t[p := RefoldNode(sha, t, p)]
    {
      hide KidNames, OnlyPart, SortedNames, KidRefs, Proper, ParentForestPath, IsKidList, Rooted, NodeBytes, TreeOf, Partition;
      ghost var t := Part(Baseline, level);
      RootedAt(t, p);
      var children := store.GetChildren(Baseline, level, p);
      var refs := GatherRefs(children);
      KidListFolds(t, p, children, refs);
      var hash := node.hash;
      if refs != [] { hash := FoldNode(sha, refs); }
      var names := GatherNames(t, p, children);
      var updated := node.(hash := hash, childNames := Some(names));
      store.SurgicalUpdate(Baseline, level, [updated]);
      OneNodeTree(updated);
    }

    /** Recomputes every ancestor of a path from its children, lowest first, up to the super-root. */
    method RefoldPathToRoot(level: Level, leafPath: string)
      requires store.Valid() && Rooted(Part(Baseline, level))
      modifies store
      ensures store.Valid() && Rooted(Part(Baseline, level)) && OnlyPart(old(store.m), store.m, Baseline, level)
      ensures var t := old(Part(Baseline, level));
              Part(Baseline, level) == Refold(sha, t, if leafPath in t then t[leafPath].parentPath else None)
    {
      hide OnlyPart, Refold, Rooted, RefoldNode, Partition;
      OnlyPartRefl(store.m, Baseline, level);
      var leaf := store.Get(Baseline, level, leafPath);
      var path := if leaf.Some? then leaf.value.parentPath else None;
      ghost var result := Refold(sha, Part(Baseline, level), path);
      while path.Some?
        invariant store.Valid() && Rooted(Part(Baseline, level)) && OnlyPart(old(store.m), store.m, Baseline, level)
        invariant Refold(sha, Part(Baseline, level), path) == result
        decreases if path.None? then 0 else |path.value| + 1
      {
        ghost var before := store.m;
        RefoldUnfolds(sha, Part(Baseline, level), path);
        var node := store.Get(Baseline, level, path.value);
        if node.None? { break; }
        RefoldOne(level, path.value, node.value);
        OnlyPartTransitive(old(store.m), before, store.m, Baseline, level);
        path := node.value.parentPath;
      }
      RefoldUnfolds(sha, Part(Baseline, level), path);
    }

    /** Writes one working node into the baseline at each level that has it, and refolds above it. */
    method FoldLeafIntoBaseline(path: string, levels: seq<Level>)
      requires store.Valid() && Distinct(levels)
      requires forall l :: Rooted(Part(Baseline, l)) && Rooted(Part(Working, l))
      modifies store
      ensures store.Valid()
      ensures forall l :: Part(Working, l) == old(Part(Working, l))
      ensures forall l :: Part(Baseline, l) == FoldedAt(sha, levels, l, old(Part(Baseline, l)), old(Part(Working, l)), path)
    {
      hide Rooted, Refold, Partition, TreeOf;
      for i := 0 to |levels|
        invariant store.Valid()
        invariant forall l :: Part(Working, l) == old(Part(Working, l))
        invariant forall l ::
          Part(Baseline, l) == FoldedAt(sha, levels[..i], l, old(Part(Baseline, l)), old(Part(Working, l)), path)
      {
        var l := levels[i];
        assert l !in levels[..i];
        var w := store.Get(Working, l, path);
        if w.Some? {
          RootedAt(Part(Working, l), path);
          FoldOne(l, w.value);
        }
        assert forall x :: x in levels[..i + 1] <==> x in levels[..i] || x == l;
      }
      assert levels[..|levels|] == levels;
    }

    method FoldOne(l: Level, w: StoredNode)
      requires store.Valid() && Rooted(Part(Baseline, l)) && RootedNode(w)
      modifies store
      ensures store.Valid() && OnlyPart(old(store.m), store.m, Baseline, l)
      ensures Part(Baseline, l) == FoldInto(sha, old(Part(Baseline, l)), w)
    {
      hide Rooted, Refold, Partition, TreeOf, OnlyPart;
      ghost var t := Part(Baseline, l);
      store.SurgicalUpdate(Baseline, l, [w]);
      OneNodeTree(w);
      assert t + map[w.path := w] == t[w.path := w];
      PutRooted(t, w);
      ghost var mid := store.m;
      RefoldPathToRoot(l, w.path);
      OnlyPartTransitive(old(store.m), mid, store.m, Baseline, l);
    }

    // ---- Verify ----

    /** Baselines and assembled forests hold nodes at their own paths. */
    ghost predicate Ready()
      reads store
    {
      && store.Valid()
      && (forall l :: Rooted(Part(Baseline, l)))
      && (forall l :: Rooted(TreeOf(forest(l))))
    }

    method ComputeTree(l: Level, tree: TreeKind, nodes: seq<StoredNode>)
      requires store.Valid()
      modifies store
      ensures store.Valid() && OnlyPart(old(store.m), store.m, tree, l)
      ensures Part(tree, l) == TreeOf(nodes)
    {
      WholeReplaced(Part(tree, l), nodes);
      store.ReplaceSubtree(tree, l, WHOLE_TREE, nodes);
    }

    /** Recomputes one level and keeps the file entries of its diff against the baseline. */
    method ComputeAndDiff(l: Level, scope: string) returns (entries: Entries)
      requires Ready()
      modifies store
      ensures store.Valid() && OnlyPart(old(store.m), store.m, Working, l)
      ensures IsFileDrift(old(Part(Baseline, l)), TreeOf(forest(l)), scope, entries)
    {
      hide Rooted, Partition, TreeOf, Drift, FileEntry, OnlyPart, EntryFor;
      ComputeTree(l, Working, forest(l));
      var b := store.View(Baseline, l);
      assert b == old(Part(Baseline, l)) by { OtherPart(old(store.m), store.m, Working, l, Baseline, l); }
      var w := store.View(Working, l);
      var diff := Diff(b, w, scope);
      entries := map[];
      ghost var computed := store.m;
      for i := 0 to |diff|
        invariant store.m == computed
        invariant forall j | 0 <= j < i && FileEntry(b, w, diff[j].path) :: diff[j].path in entries
        invariant forall p | p in entries :: entries[p] in diff && entries[p].path == p && FileEntry(b, w, p)
      {
        var d := diff[i];
        assert d in diff;
        KindTellsSide(b, w, scope, d);
        if (d.path in w && w[d.path].IsLeaf()) || (d.path in b && b[d.path].IsLeaf()) || d.kind == Added || d.kind == Removed {
          entries := entries[d.path := d];
        }
      }
      forall e | e in Drift(b, w, scope) && FileEntry(b, w, e.path) ensures e.path in entries {
        var j :| 0 <= j < |diff| && diff[j] == e;
      }
    }

    method EmptyLevels(levels: seq<Level>) returns (empty: seq<Level>)
      ensures forall l :: l in empty <==> l in levels && Part(Baseline, l) == map[]
    {
      empty := [];
      for i := 0 to |levels|
        invariant forall l :: l in empty <==> l in levels[..i] && Part(Baseline, l) == map[]
      {
        assert levels[..i + 1] == levels[..i] + [levels[i]];
        var t := store.View(Baseline, levels[i]);
        if t == map[] { empty := empty + [levels[i]]; }
      }
      assert levels[..|levels|] == levels;
    }

    /** What a finished comparison reports. */
    ghost predicate IsComparison(level: VerifyLevel, scope: string, perLevel: map<Level, Entries>)
      reads store
    {
      && RightLevels(level, perLevel)
      && (forall l :: Rooted(Part(Baseline, l)) && Rooted(TreeOf(forest(l))))
      && forall l | l in perLevel :: IsFileDrift(Part(Baseline, l), TreeOf(forest(l)), scope, perLevel[l])
    }

    /** The drift report. With an empty baseline at a wanted level it establishes truth instead. */
    method Verify(level: VerifyLevel, scope: string) returns (report: VerifyReport)
      requires Ready()
      modifies store
      ensures store.Valid()
      ensures report.Seeded? <==> exists l | l in LevelsOf(level) :: old(Part(Baseline, l)) == map[]
      ensures report.Seeded? ==> forall l ::
        Part(Baseline, l) == if l in LevelsOf(level) then TreeOf(forest(l)) else old(Part(Baseline, l))
      ensures report.Compared? ==>
        && (forall l :: Part(Baseline, l) == old(Part(Baseline, l)) && Part(Working, l) == map[])
        && IsComparison(level, scope, report.perLevel)
        && IsReport(report.perLevel, explain, cfg, report.drifts, report.policy)
    {
      hide Partition, TreeOf, IsReport, Ready, IsComparison, Rooted;
      var seedLevels := LevelsOf(level);
      var empty := EmptyLevels(seedLevels);
      if empty != [] {
        assert empty[0] in empty;
        ReadyStore();
        Seed(seedLevels);
        return Seeded(empty);
      }
      var perLevel := CompareLevels(level, scope);
      var drifts, policy := AssembleReport(perLevel);
      Finish(level, scope, perLevel);
      ReadyStore();
      report := Compared(perLevel, drifts, policy);
    }

    lemma ReadyStore()
      requires Ready()
      ensures store.Valid()
    {}

    method Finish(level: VerifyLevel, scope: string, ghost perLevel: map<Level, Entries>)
      requires Ready() && IsComparison(level, scope, perLevel)
      modifies store
      ensures Ready() && IsComparison(level, scope, perLevel)
      ensures forall l :: Part(Baseline, l) == old(Part(Baseline, l)) && Part(Working, l) == map[]
    {
      hide Partition, TreeOf, IsFileDrift, Rooted;
      store.ClearWorking(None);
      assert forall l :: Part(Baseline, l) == old(Part(Baseline, l));
    }

    /** The levels a report covers: L1 gates the others of a smart run. */
    method CompareLevels(level: VerifyLevel, scope: string) returns (perLevel: map<Level, Entries>)
      requires Ready()
      modifies store
      ensures Ready() && IsComparison(level, scope, perLevel)
      ensures forall l :: Part(Baseline, l) == old(Part(Baseline, l))
    {
      hide Partition, TreeOf, IsFileDrift, Rooted, Keyed;
      var l1 := CompareLevel(L1, scope);
      perLevel := map[L1 := l1];
      if level.Smart? {
        if l1 != map[] {
          var l2 := CompareLevel(L2, scope);
          var l3 := CompareLevel(L3, scope);
          perLevel := map[L1 := l1, L2 := l2, L3 := l3];
        }
      } else if level.level != L1 {
        var entries := CompareLevel(level.level, scope);
        perLevel := map[level.level := entries];
      }
    }

    /** Folds what the policy permits, one audit record per fold; flags the rest. The policy judges what the
        verify saw, the folded nodes are the ones `later` reads. */
    method AutoAccept(level: VerifyLevel, scope: string, later: Level -> seq<StoredNode>)
      returns (report: VerifyReport, folded: seq<PolicyOutcome>, flagged: seq<PolicyOutcome>)
      requires Ready() && forall l :: Rooted(TreeOf(later(l)))
      modifies store, this`log
      ensures report.Seeded? ==> folded == [] && flagged == []
      ensures report.Compared? ==>
        && RightLevels(level, report.perLevel)
        && IsReport(report.perLevel, explain, cfg, report.drifts, report.policy)
        && folded == Decided(report.policy, Fold) && flagged == Decided(report.policy, Flag)
        && (forall l :: Rooted(old(Part(Baseline, l))) && Rooted(TreeOf(forest(l))))
        && (forall l | l in report.perLevel :: IsFileDrift(old(Part(Baseline, l)), TreeOf(forest(l)), scope, report.perLevel[l]))
        && (forall l :: Part(Baseline, l) ==
              AfterBatch(sha, LevelsOf(level), l, old(Part(Baseline, l)), TreeOf(later(l)), PathsOf(folded)))
      ensures log == old(log) + Records(folded)
    {
      hide Partition, TreeOf, IsReport, Ready, IsComparison, Rooted, AfterBatch, Decided, IsFileDrift, RightLevels, PathsOf, Records;
      folded, flagged := [], [];
      ReadyParts();
      NoRecords(log);
      report := Verify(level, scope);
      if report.Seeded? { return; }
      assert forall l :: Part(Baseline, l) == old(Part(Baseline, l));
      ComparisonParts(level, scope, report.perLevel);
      if report.policy == [] {
        NothingDecided(report.policy);
        NothingFolded(LevelsOf(level), later);
        return;
      }
      folded, flagged := FoldPermitted(LevelsOf(level), report.policy, later);
    }

    /** Recomputes the working trees, folds from them and drops them again. */
    method FoldPermitted(levels: seq<Level>, policy: seq<PolicyOutcome>, later: Level -> seq<StoredNode>)
      returns (folded: seq<PolicyOutcome>, flagged: seq<PolicyOutcome>)
      requires store.Valid() && Distinct(levels)
      requires forall l :: Part(Working, l) == map[] && Rooted(Part(Baseline, l)) && Rooted(TreeOf(later(l)))
      modifies store, this`log
      ensures folded == Decided(policy, Fold) && flagged == Decided(policy, Flag)
      ensures log == old(log) + Records(folded)
      ensures forall l ::
        Part(Baseline, l) == AfterBatch(sha, levels, l, old(Part(Baseline, l)), TreeOf(later(l)), PathsOf(folded))
    {
      hide Partition, TreeOf, Rooted, AfterBatch, Decided, Keyed, PathsOf, Records;
      EmptyRooted();
      ComputeWorking(levels, later);
      folded, flagged := ApplyOutcomes(levels, policy);
      forall l ensures Part(Baseline, l) ==
        AfterBatch(sha, levels, l, old(Part(Baseline, l)), TreeOf(later(l)), PathsOf(folded))
      {
        OtherLevels(sha, levels, l, old(Part(Baseline, l)), TreeOf(later(l)), PathsOf(folded));
      }
      store.ClearWorking(None);
    }

    lemma NothingFolded(levels: seq<Level>, later: Level -> seq<StoredNode>)
      requires forall l :: Rooted(Part(Baseline, l)) && Rooted(TreeOf(later(l)))
      ensures forall l :: Part(Baseline, l) == AfterBatch(sha, levels, l, Part(Baseline, l), TreeOf(later(l)), PathsOf([]))
    {
      hide Rooted, Partition, TreeOf, AfterBatch;
      forall l { EmptyBatch(sha, levels, l, Part(Baseline, l), TreeOf(later(l))); }
    }

    lemma ReadyParts()
      requires Ready()
      ensures forall l :: Rooted(Part(Baseline, l))
      ensures forall l :: Rooted(TreeOf(forest(l)))
    {}

    lemma ComparisonParts(level: VerifyLevel, scope: string, perLevel: map<Level, Entries>)
      requires IsComparison(level, scope, perLevel)
      ensures RightLevels(level, perLevel)
      ensures forall l :: Rooted(Part(Baseline, l)) && Rooted(TreeOf(forest(l)))
      ensures forall l | l in perLevel :: IsFileDrift(Part(Baseline, l), TreeOf(forest(l)), scope, perLevel[l])
    {}

    /** Recomputes the working trees of the given levels. */
    method ComputeWorking(levels: seq<Level>, later: Level -> seq<StoredNode>)
      requires store.Valid() && forall l :: Part(Working, l) == map[]
      modifies store
      ensures store.Valid()
      ensures forall l :: Part(Baseline, l) == old(Part(Baseline, l))
      ensures forall l :: Part(Working, l) == if l in levels then TreeOf(later(l)) else map[]
    {
      hide Partition, TreeOf;
      for i := 0 to |levels|
        invariant store.Valid()
        invariant forall l :: Part(Baseline, l) == old(Part(Baseline, l))
        invariant forall l :: Part(Working, l) == if l in levels[..i] then TreeOf(later(l)) else map[]
      {
        assert levels[..i + 1] == levels[..i] + [levels[i]];
        ComputeTree(levels[i], Working, later(levels[i]));
      }
      assert levels[..|levels|] == levels;
    }

    /** The fold loop. */
    method ApplyOutcomes(levels: seq<Level>, policy: seq<PolicyOutcome>)
      returns (folded: seq<PolicyOutcome>, flagged: seq<PolicyOutcome>)
      requires store.Valid() && Distinct(levels)
      requires forall l :: Rooted(Part(Baseline, l)) && Rooted(Part(Working, l))
      modifies store, this`log
      ensures store.Valid()
      ensures folded == Decided(policy, Fold) && flagged == Decided(policy, Flag)
      ensures log == old(log) + Records(folded)
      ensures forall l ::
        Part(Baseline, l) == AfterBatch(sha, levels, l, old(Part(Baseline, l)), old(Part(Working, l)), PathsOf(folded))
    {
      hide Partition, TreeOf, Rooted, FoldPath, FoldAll, PathsOf, Decided, AfterBatch, FoldedAt;
      folded, flagged := [], [];
      NothingDecided([]);
      forall l { EmptyBatch(sha, levels, l, Part(Baseline, l), Part(Working, l)); }
      assert policy[..0] == [];
      for i := 0 to |policy|
        invariant store.Valid()
        invariant folded == Decided(policy[..i], Fold) && flagged == Decided(policy[..i], Flag)
        invariant log == old(log) + Records(folded)
        invariant forall l :: Part(Working, l) == old(Part(Working, l))
        invariant forall l ::
          Part(Baseline, l) == AfterBatch(sha, levels, l, old(Part(Baseline, l)), old(Part(Working, l)), PathsOf(folded))
      {
        var outcome := policy[i];
        DecidedStep(policy, i);
        if outcome.decision != Fold {
          flagged := flagged + [outcome];
        } else {
          label Before:
          FoldLeafIntoBaseline(outcome.path, levels);
          forall l ensures Part(Baseline, l)
            == AfterBatch(sha, levels, l, old(Part(Baseline, l)), old(Part(Working, l)), PathsOf(folded + [outcome]))
          {
            BatchAppend(sha, levels, l, old(Part(Baseline, l)), old(Part(Working, l)), folded, outcome);
            assert Part(Baseline, l)
                == FoldedAt(sha, levels, l, old@Before(Part(Baseline, l)), old@Before(Part(Working, l)), outcome.path);
          }
          RecordsAppend(old(log), folded, outcome);
          folded := folded + [outcome];
          log := log + [FoldRecord(outcome.path, outcome.reason)];
        }
      }
      assert policy[..|policy|] == policy;
    }

    method Seed(levels: seq<Level>)
      requires store.Valid()
      modifies store
      ensures store.Valid()
      ensures forall l :: Part(Baseline, l) == if l in levels then TreeOf(forest(l)) else old(Part(Baseline, l))
    {
      hide Partition, TreeOf;
      for i := 0 to |levels|
        invariant store.Valid()
        invariant forall l :: Part(Baseline, l) == if l in levels[..i] then TreeOf(forest(l)) else old(Part(Baseline, l))
      {
        assert levels[..i + 1] == levels[..i] + [levels[i]];
        ComputeTree(levels[i], Baseline, forest(levels[i]));
      }
      assert levels[..|levels|] == levels;
    }

    /** One level of a comparison; the baselines stay as they are. */
    method CompareLevel(l: Level, scope: string) returns (entries: Entries)
      requires Ready()
      modifies store
      ensures Ready()
      ensures forall x :: Part(Baseline, x) == old(Part(Baseline, x))
      ensures IsFileDrift(old(Part(Baseline, l)), TreeOf(forest(l)), scope, entries)
    {
      hide Rooted, Partition, TreeOf, IsFileDrift;
      entries := ComputeAndDiff(l, scope);
      assert forall x :: Part(Baseline, x) == old(Part(Baseline, x));
    }

    method AssembleReport(perLevel: map<Level, Entries>) returns (drifts: seq<LeafDrift>, policy: seq<PolicyOutcome>)
      ensures IsReport(perLevel, explain, cfg, drifts, policy)
    {
      hide LeafDriftOf, AllPaths, IsReport, Verdict, BudgetDemand, PathLe, TotalPreorder;
      var paths := ListSet(AllPaths(perLevel));
      SortPreservesDistinct(PathLe, paths);
      SameElements(Sort(PathLe, paths), paths);
      PathLePreorder();
      SortSorted(PathLe, paths);
      paths := Sort(PathLe, paths);
      drifts := [];
      for i := 0 to |paths|
        invariant |drifts| == i
        invariant forall j | 0 <= j < i :: drifts[j] == LeafDriftOf(perLevel, explain, paths[j])
      {
        drifts := drifts + [LeafDriftOf(perLevel, explain, paths[i])];
      }
      policy := ApplyAcceptPolicy(drifts, cfg);
      ReportIs(perLevel, explain, cfg, paths, drifts, policy);
    }
  }

  /** Which levels a comparison of `level` holds. */
  ghost predicate RightLevels(level: VerifyLevel, perLevel: map<Level, Entries>) {
    if level.Only? then perLevel.Keys == {level.level}
    else L1 in perLevel && perLevel.Keys == if perLevel[L1] == map[] then {L1} else {L1, L2, L3}
  }

  lemma ReportIs(perLevel: map<Level, Entries>, explain: map<Digest, string>, cfg: AcceptPolicyConfig,
                 paths: seq<string>, drifts: seq<LeafDrift>, policy: seq<PolicyOutcome>)
    requires Distinct(paths) && SortedBy(PathLe, paths) && forall p :: p in paths <==> p in AllPaths(perLevel)
    requires |drifts| == |paths| && forall i | 0 <= i < |paths| :: drifts[i] == LeafDriftOf(perLevel, explain, paths[i])
    requires IsPolicyFor(drifts, cfg, policy)
    ensures IsReport(perLevel, explain, cfg, drifts, policy)
  {
    hide LeafDriftOf, AllPaths, IsPolicyFor, PathLe;
    forall i | 0 <= i < |drifts| ensures drifts[i].path == paths[i] && drifts[i].path in AllPaths(perLevel) {
      LeafDriftPath(perLevel, explain, paths[i]);
      assert paths[i] in paths;
    }
    forall p | p in AllPaths(perLevel) ensures exists i :: 0 <= i < |drifts| && drifts[i].path == p {
      assert p in paths;
      var i :| 0 <= i < |paths| && paths[i] == p;
      assert drifts[i].path == p;
    }
  }

  lemma LeafDriftPath(perLevel: map<Level, Entries>, explain: map<Digest, string>, p: string)
    ensures LeafDriftOf(perLevel, explain, p).path == p
  {}

  lemma OtherPart(before: Rows, after: Rows, tree: TreeKind, level: Level, t: TreeKind, l: Level)
    requires OnlyPart(before, after, tree, level) && (t != tree || l != level)
    ensures Partition(after, t, l) == Partition(before, t, l)
  {}

  /** The filter of `verify` is `FileEntry`. */
  lemma KindTellsSide(b: Tree, w: Tree, r: string, d: DriftEntry)
    requires Rooted(b) && Rooted(w) && d in Drift(b, w, r)
    ensures FileEntry(b, w, d.path) <==>
            (d.path in w && w[d.path].IsLeaf()) || (d.path in b && b[d.path].IsLeaf()) || d.kind == Added || d.kind == Removed
  {
    DriftSound(b, w, r, d);
    hide Drift, AtOrBelow;
  }

  // ---- What is left after an automatic accept ----

  lemma DecidedMember(policy: seq<PolicyOutcome>, d: Decision, o: PolicyOutcome)
    ensures o in Decided(policy, d) <==> o in policy && o.decision == d
  {
    if policy != [] {
      var n := |policy| - 1;
      DecidedMember(policy[..n], d, o);
      assert policy == policy[..n] + [policy[n]];
    }
  }

  ghost predicate IsFlagged(policy: seq<PolicyOutcome>, p: string) {
    exists o | o in policy :: o.path == p && o.decision == Flag
  }

  lemma VerdictPath(d: LeafDrift, cfg: AcceptPolicyConfig, left: bool)
    ensures Verdict(d, cfg, left).path == d.path
  {}

  lemma PolicyPaths(drifts: seq<LeafDrift>, cfg: AcceptPolicyConfig, policy: seq<PolicyOutcome>)
    requires IsPolicyFor(drifts, cfg, policy)
    ensures |policy| == |drifts| && forall i | 0 <= i < |policy| :: policy[i].path == drifts[i].path
  {
    hide Verdict;
    forall i | 0 <= i < |policy| ensures policy[i].path == drifts[i].path {
      VerdictPath(drifts[i], cfg, BudgetDemand(drifts[..i], cfg) < cfg.maxUnexplainedL3);
    }
  }

  /** The outcomes judge exactly the drifted paths, each once. */
  lemma ReportPaths(perLevel: map<Level, Entries>, explain: map<Digest, string>, cfg: AcceptPolicyConfig,
                    drifts: seq<LeafDrift>, policy: seq<PolicyOutcome>)
    requires IsReport(perLevel, explain, cfg, drifts, policy)
    ensures forall i, j | 0 <= i < |policy| && 0 <= j < |policy| && i != j :: policy[i].path != policy[j].path
    ensures forall i, j | 0 <= i < j < |policy| :: PathLe(policy[i].path, policy[j].path)
    ensures forall i | 0 <= i < |policy| :: policy[i].path in AllPaths(perLevel)
    ensures forall p | p in AllPaths(perLevel) :: exists i :: 0 <= i < |policy| && policy[i].path == p
  {
    hide LeafDriftOf, AllPaths, Verdict, BudgetDemand, IsPolicyFor, PathLe;
    PolicyPaths(drifts, cfg, policy);
    forall p | p in AllPaths(perLevel) ensures exists i :: 0 <= i < |policy| && policy[i].path == p {
      var i :| 0 <= i < |drifts| && drifts[i].path == p;
      assert policy[i].path == p;
    }
  }

  lemma OneOutcome(policy: seq<PolicyOutcome>, i: nat)
    requires i < |policy| && forall j | 0 <= j < |policy| && j != i :: policy[j].path != policy[i].path
    ensures policy[i].path in PathsOf(Decided(policy, Fold)) <==> !IsFlagged(policy, policy[i].path)
  {
    hide Decided;
    var folded := Decided(policy, Fold);
    DecidedMember(policy, Fold, policy[i]);
    if policy[i].decision == Fold {
      var k :| 0 <= k < |folded| && folded[k] == policy[i];
      assert PathsOf(folded)[k] == policy[i].path;
    } else {
      assert policy[i] in policy;
      forall k | 0 <= k < |folded| ensures folded[k].path != policy[i].path { DecidedMember(policy, Fold, folded[k]); }
    }
  }

  /** Each drifted path is either folded or flagged, never both. */
  lemma FoldedXorFlagged(perLevel: map<Level, Entries>, explain: map<Digest, string>, cfg: AcceptPolicyConfig,
                         drifts: seq<LeafDrift>, policy: seq<PolicyOutcome>, p: string)
    requires IsReport(perLevel, explain, cfg, drifts, policy) && p in AllPaths(perLevel)
    ensures p in PathsOf(Decided(policy, Fold)) <==> !IsFlagged(policy, p)
  {
    ReportPaths(perLevel, explain, cfg, drifts, policy);
    hide *;
    var i :| 0 <= i < |policy| && policy[i].path == p;
    OneOutcome(policy, i);
  }

  // ---- The order of the folds ----

  lemma {:induction false} DecidedFirst(policy: seq<PolicyOutcome>, d: Decision)
    requires forall i, j | 0 <= i < j < |policy| :: !AtOrBelow(policy[j].path, policy[i].path)
    ensures AncestorsFirst(PathsOf(Decided(policy, d)))
  {
    hide AtOrBelow;
    if policy != [] {
      var n := |policy| - 1;
      DecidedFirst(policy[..n], d);
      var before, all := Decided(policy[..n], d), Decided(policy, d);
      forall k | 0 <= k < |before| ensures !AtOrBelow(policy[n].path, before[k].path) {
        DecidedMember(policy[..n], d, before[k]);
        assert before[k] in policy[..n];
      }
      assert forall k | 0 <= k < |before| :: all[k] == before[k] && PathsOf(before)[k] == PathsOf(all)[k];
    }
  }

  /** The folds come in the order of the report: no path before one of its ancestors. */
  lemma FoldsAncestorsFirst(perLevel: map<Level, Entries>, explain: map<Digest, string>, cfg: AcceptPolicyConfig,
                            drifts: seq<LeafDrift>, policy: seq<PolicyOutcome>)
    requires IsReport(perLevel, explain, cfg, drifts, policy)
    ensures AncestorsFirst(PathsOf(Decided(policy, Fold)))
  {
    ReportPaths(perLevel, explain, cfg, drifts, policy);
    hide IsReport, AllPaths, Decided, PathLe, AtOrBelow, AncestorsFirst;
    var paths := PathsOf(policy);
    SortedAncestorsFirst(paths);
    forall i, j | 0 <= i < j < |policy| ensures !AtOrBelow(policy[j].path, policy[i].path) {
      assert !AtOrBelow(paths[j], paths[i]);
    }
    DecidedFirst(policy, Fold);
  }

  lemma FoldedHasOutcome(policy: seq<PolicyOutcome>, p: string)
    requires p in PathsOf(Decided(policy, Fold))
    ensures exists i :: 0 <= i < |policy| && policy[i].path == p
  {
    hide Decided;
    var folded := Decided(policy, Fold);
    var k :| 0 <= k < |folded| && PathsOf(folded)[k] == p;
    DecidedMember(policy, Fold, folded[k]);
  }

  lemma FoldedIsReported(perLevel: map<Level, Entries>, explain: map<Digest, string>, cfg: AcceptPolicyConfig,
                         drifts: seq<LeafDrift>, policy: seq<PolicyOutcome>, p: string)
    requires IsReport(perLevel, explain, cfg, drifts, policy)
    ensures p in PathsOf(Decided(policy, Fold)) <==> p in AllPaths(perLevel) && !IsFlagged(policy, p)
  {
    hide *;
    ReportPaths(perLevel, explain, cfg, drifts, policy);
    if p in PathsOf(Decided(policy, Fold)) { FoldedHasOutcome(policy, p); }
    if p in AllPaths(perLevel) { FoldedXorFlagged(perLevel, explain, cfg, drifts, policy, p); }
  }

  // ---- Main results ----

  /** One level around an automatic accept: the baseline before it, and the working tree the folds read with the
      bytes its hashes come from. */
  datatype AcceptedLevel = AcceptedLevel(b: Tree, w: Tree, preW: Preimages) {
    ghost function After(sha: Sha, paths: seq<string>): (r: Tree)
      requires Rooted(b) && Rooted(w)
      ensures Rooted(r)
    {
      FoldAll(sha, b, w, paths)
    }

    /** The working tree is a Merkle tree, and the bytes the refolds hash do not collide with its own. The baseline
        only holds nodes at their own paths, with names free of NUL: it may have gaps and miss children. */
    ghost predicate Sound(sha: Sha, paths: seq<string>) {
      && Rooted(b) && PlainNames(b) && Merkle(sha, w, preW)
      && NoCollision(sha, LiftedBytes(After(sha, paths), Folded(w, paths)) + preW.Values)
    }

    /** A file entry of the next diff. */
    ghost predicate Left(sha: Sha, paths: seq<string>, scope: string, e: DriftEntry)
      requires Rooted(b) && Rooted(w)
    {
      e in Drift(After(sha, paths), w, scope) && FileEntry(After(sha, paths), w, e.path)
    }
  }

  /** What an accept asks of a baseline, every baseline it leaves meets again. */
  lemma AcceptKeepsBaseline(sha: Sha, c: AcceptedLevel, paths: seq<string>)
    requires c.Sound(sha, paths)
    ensures Rooted(c.w) && Rooted(c.After(sha, paths)) && PlainNames(c.After(sha, paths))
  {
    hide Hashed, LeafName, NoCollision, PlainNames, KidNames;
    MerkleIsBut(sha, c.w, c.preW);
    BatchKeepsPlain(sha, c.b, c.w, paths);
  }

  /** What an automatic accept leaves to the next diff at one level: drift of files that was flagged, or appeared
      only after the report, or is gone from the working tree, and that nothing was folded below; as far as the walk
      still gets there. It does not get below a directory that was copied with its hash and not refolded since. */
  ghost predicate LeftOver(perLevel: map<Level, Entries>, policy: seq<PolicyOutcome>, c: AcceptedLevel, scope: string, e: DriftEntry) {
    var folded := Folded(c.w, PathsOf(Decided(policy, Fold)));
    var keys := c.b.Keys + folded;
    && (IsFlagged(policy, e.path) || e.path !in AllPaths(perLevel) || e.path !in c.w)
    && !Lifted(keys, folded, e.path) && StillReached(c.b, c.w, keys, folded, scope, e.path)
    && FileEntry(c.b, c.w, e.path) && e in OwnEntries(c.b, c.w, e.path)
  }

  lemma LeftOverIsLeft(perLevel: map<Level, Entries>, explain: map<Digest, string>, cfg: AcceptPolicyConfig,
                       drifts: seq<LeafDrift>, policy: seq<PolicyOutcome>, c: AcceptedLevel, scope: string, e: DriftEntry)
    requires IsReport(perLevel, explain, cfg, drifts, policy)
    ensures LeftOver(perLevel, policy, c, scope, e) <==> LeftAt(c.b, c.w, Folded(c.w, PathsOf(Decided(policy, Fold))), scope, e)
  {
    hide Lifted, StillReached, FileEntry, OwnEntries, IsReport, AllPaths, IsFlagged, Decided, PathsOf;
    FoldedIsReported(perLevel, explain, cfg, drifts, policy, e.path);
  }

  /** Main result: the file drift an automatic accept leaves at a level, for every baseline. */
  lemma AcceptLeavesTheFlagged(
    sha: Sha, perLevel: map<Level, Entries>, explain: map<Digest, string>, cfg: AcceptPolicyConfig,
    drifts: seq<LeafDrift>, policy: seq<PolicyOutcome>, c: AcceptedLevel, scope: string, e: DriftEntry)
    requires IsReport(perLevel, explain, cfg, drifts, policy)
    requires Rooted(c.w) && c.Sound(sha, PathsOf(Decided(policy, Fold)))
    ensures c.Left(sha, PathsOf(Decided(policy, Fold)), scope, e) <==> LeftOver(perLevel, policy, c, scope, e)
  {
    hide Hashed, NoCollision, Drift, FileEntry, Rooted, IsReport, Decided, PathsOf, Folded, PlainNames, LiftedBytes,
      AncestorsFirst, Shape, AllPaths, LeftAt, LeftOver, LiftedHashed, FoldedView;
    var paths := PathsOf(Decided(policy, Fold));
    FoldsAncestorsFirst(perLevel, explain, cfg, drifts, policy);
    BatchLifts(sha, c.b, c.w, paths);
    AcceptKeepsBaseline(sha, c, paths);
    FileDriftAfterBatch(sha, c.b, c.After(sha, paths), c.w, c.preW, Folded(c.w, paths), scope, e);
    LeftOverIsLeft(perLevel, explain, cfg, drifts, policy, c, scope, e);
  }

  /** Where the baseline is a Merkle tree, the folds read what the verify read, and every directory a refold came by
      was a directory before: exactly the flagged and the removed entries are left, except below a directory that
      was copied and not refolded since. */
  lemma AcceptOfPlainFolds(
    sha: Sha, perLevel: map<Level, Entries>, explain: map<Digest, string>, cfg: AcceptPolicyConfig,
    drifts: seq<LeafDrift>, policy: seq<PolicyOutcome>, l: Level, c: AcceptedLevel, preB: Preimages, scope: string, e: DriftEntry)
    requires IsReport(perLevel, explain, cfg, drifts, policy)
    requires Rooted(c.w) && c.Sound(sha, PathsOf(Decided(policy, Fold)))
    requires Merkle(sha, c.b, preB) && NoCollision(sha, preB.Values + c.preW.Values)
    requires l in perLevel && IsFileDrift(c.b, c.w, scope, perLevel[l])
    requires forall x | Lifted(c.b.Keys + Folded(c.w, PathsOf(Decided(policy, Fold))), Folded(c.w, PathsOf(Decided(policy, Fold))), x) ::
      x in c.b && !c.b[x].IsLeaf()
    ensures
      var folded := Folded(c.w, PathsOf(Decided(policy, Fold)));
      c.Left(sha, PathsOf(Decided(policy, Fold)), scope, e) <==>
        && e in Drift(c.b, c.w, scope) && FileEntry(c.b, c.w, e.path) && (IsFlagged(policy, e.path) || e.path !in c.w)
        && !Swallowed(c.b.Keys + folded, folded, scope, e.path)
  {
    hide Merkle, NoCollision, Drift, Rooted, IsReport, Decided, PathsOf, FileEntry, Lifted, Swallowed, IsFlagged, LeftOver, LeftAt, AllPaths;
    var folded := Folded(c.w, PathsOf(Decided(policy, Fold)));
    AcceptLeavesTheFlagged(sha, perLevel, explain, cfg, drifts, policy, c, scope, e);
    LeftOverIsLeft(perLevel, explain, cfg, drifts, policy, c, scope, e);
    FoldedIsReported(perLevel, explain, cfg, drifts, policy, e.path);
    PlainRemains(sha, c.b, preB, c.w, c.preW, folded, scope, e);
    if e in Drift(c.b, c.w, scope) && FileEntry(c.b, c.w, e.path) { InAllPaths(perLevel, l, e.path); }
  }

  lemma InAllPaths(perLevel: map<Level, Entries>, l: Level, p: string)
    requires l in perLevel && p in perLevel[l]
    ensures p in AllPaths(perLevel)
  {}

  // ---- The next verify ----

  ghost predicate SomethingLeft(perLevel: map<Level, Entries>, policy: seq<PolicyOutcome>, c: AcceptedLevel, scope: string) {
    exists e :: LeftOver(perLevel, policy, c, scope, e)
  }

  /** `entries` reports all that is left at one level, and nothing else. */
  ghost predicate Covers(perLevel: map<Level, Entries>, policy: seq<PolicyOutcome>, c: AcceptedLevel, scope: string, entries: Entries) {
    && (forall e | LeftOver(perLevel, policy, c, scope, e) :: e.path in entries)
    && (forall p | p in entries :: entries[p].path == p && LeftOver(perLevel, policy, c, scope, entries[p]))
  }

  /** What the next smart verify reports at one level it looks at. */
  lemma NextEntries(
    sha: Sha, perLevel: map<Level, Entries>, explain: map<Digest, string>, cfg: AcceptPolicyConfig,
    drifts: seq<LeafDrift>, policy: seq<PolicyOutcome>, c: AcceptedLevel, scope: string, entries: Entries)
    requires IsReport(perLevel, explain, cfg, drifts, policy)
    requires Rooted(c.w) && c.Sound(sha, PathsOf(Decided(policy, Fold)))
    requires IsFileDrift(c.After(sha, PathsOf(Decided(policy, Fold))), c.w, scope, entries)
    ensures Covers(perLevel, policy, c, scope, entries)
  {
    hide Drift, Rooted, IsReport, Decided, PathsOf, FileEntry, LeftOver;
    forall e | LeftOver(perLevel, policy, c, scope, e) ensures e.path in entries {
      AcceptLeavesTheFlagged(sha, perLevel, explain, cfg, drifts, policy, c, scope, e);
    }
    forall p | p in entries ensures entries[p].path == p && LeftOver(perLevel, policy, c, scope, entries[p]) {
      AcceptLeavesTheFlagged(sha, perLevel, explain, cfg, drifts, policy, c, scope, entries[p]);
    }
  }

  lemma EmptyCovers(perLevel: map<Level, Entries>, policy: seq<PolicyOutcome>, c: AcceptedLevel, scope: string, entries: Entries)
    requires Covers(perLevel, policy, c, scope, entries)
    ensures entries == map[] <==> !SomethingLeft(perLevel, policy, c, scope)
  {
    hide Rooted, LeftOver;
    if p :| p in entries { assert LeftOver(perLevel, policy, c, scope, entries[p]); }
  }

  /** `next` reports every path on which something is left, at some level. */
  ghost predicate SeesAll(perLevel: map<Level, Entries>, policy: seq<PolicyOutcome>, at: Level -> AcceptedLevel, scope: string,
                          next: map<Level, Entries>)
  {
    forall l, e | LeftOver(perLevel, policy, at(l), scope, e) :: e.path in AllPaths(next)
  }

  lemma CleanGate(perLevel: map<Level, Entries>, policy: seq<PolicyOutcome>, at: Level -> AcceptedLevel, scope: string,
                  next: map<Level, Entries>)
    requires next == map[L1 := map[]]
    ensures SeesAll(perLevel, policy, at, scope, next) <==> forall l :: !SomethingLeft(perLevel, policy, at(l), scope)
  {
    hide Rooted, LeftOver;
    assert AllPaths(next) == {};
    forall l, e ensures SeesAll(perLevel, policy, at, scope, next) ==> !LeftOver(perLevel, policy, at(l), scope, e) {
      assert e.path !in AllPaths(next);
    }
  }

  lemma LevelIn(levels: set<Level>, l: Level)
    requires L1 in levels && L2 in levels && L3 in levels
    ensures l in levels
  {}

  lemma OpenGate(perLevel: map<Level, Entries>, policy: seq<PolicyOutcome>, at: Level -> AcceptedLevel, scope: string,
                 next: map<Level, Entries>)
    requires next.Keys == {L1, L2, L3} && forall l | l in next :: Covers(perLevel, policy, at(l), scope, next[l])
    ensures SeesAll(perLevel, policy, at, scope, next)
  {
    hide Rooted, LeftOver, AllPaths;
    forall l, e | LeftOver(perLevel, policy, at(l), scope, e) ensures e.path in AllPaths(next) {
      LevelIn(next.Keys, l);
      InAllPaths(next, l, e.path);
    }
  }

  lemma GateOf(next: map<Level, Entries>)
    requires RightLevels(Smart, next)
    ensures L1 in next && if next[L1] == map[] then next == map[L1 := map[]] else next.Keys == {L1, L2, L3}
  {}

  /** The smart verify after an automatic accept on unchanged files reports all that is left exactly when
      something is left at L1 or nothing at all: a clean L1 keeps L2 and L3 from being looked at. */
  lemma NextVerifySeesAll(
    sha: Sha, perLevel: map<Level, Entries>, explain: map<Digest, string>, cfg: AcceptPolicyConfig,
    drifts: seq<LeafDrift>, policy: seq<PolicyOutcome>, at: Level -> AcceptedLevel, scope: string,
    next: map<Level, Entries>)
    requires IsReport(perLevel, explain, cfg, drifts, policy)
    requires forall l {:trigger at(l)} :: Rooted(at(l).b) && Rooted(at(l).w) && at(l).Sound(sha, PathsOf(Decided(policy, Fold)))
    requires RightLevels(Smart, next)
    requires forall l | l in next ::
      IsFileDrift(at(l).After(sha, PathsOf(Decided(policy, Fold))), at(l).w, scope, next[l])
    ensures SeesAll(perLevel, policy, at, scope, next) <==>
            SomethingLeft(perLevel, policy, at(L1), scope) || forall l :: !SomethingLeft(perLevel, policy, at(l), scope)
  {
    hide *;
    GateOf(next);
    forall l | l in next ensures Covers(perLevel, policy, at(l), scope, next[l]) {
      NextEntries(sha, perLevel, explain, cfg, drifts, policy, at(l), scope, next[l]);
    }
    EmptyCovers(perLevel, policy, at(L1), scope, next[L1]);
    if next[L1] == map[] {
      CleanGate(perLevel, policy, at, scope, next);
    } else {
      OpenGate(perLevel, policy, at, scope, next);
    }
  }
}
