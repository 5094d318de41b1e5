/** The pruned tree comparison (src/integrity/diff.ts) against a full, hash-blind one. */
module TreeDiff {
  import opened Sorting
  import opened Utf8
  import opened ForestPaths
  import opened Folding
  import opened Options
  import opened MerkleTrees

  datatype DriftKind = Added | Removed | Changed | StateChanged

  datatype DriftEntry = DriftEntry(
    path: string,
    kind: DriftKind,
    baselineHash: Option<Digest>,
    workingHash: Option<Digest>,
    baselineState: Option<NodeState>,
    workingState: Option<NodeState>
  )

  function RemovedEntry(q: string, b: StoredNode): DriftEntry {
    DriftEntry(q, Removed, Some(b.hash), None, Some(b.state), None)
  }

  function AddedEntry(q: string, w: StoredNode): DriftEntry {
    DriftEntry(q, Added, None, Some(w.hash), None, Some(w.state))
  }

  function BothEntry(q: string, b: StoredNode, w: StoredNode): DriftEntry {
    DriftEntry(q, if b.state != w.state then StateChanged else Changed,
               Some(b.hash), Some(w.hash), Some(b.state), Some(w.state))
  }

  // ---- The walk ----

  /** Longest path of a set, the bound the descent cannot pass. */
  ghost function MaxLength(s: set<string>): (m: nat)
    ensures forall x | x in s :: |x| <= m
  {
    if s == {} then 0 else
      var x :| x in s;
      var m := MaxLength(s - {x});
      if |x| > m then |x| else m
  }

  ghost function Below(b: Tree, w: Tree, path: string): nat {
    var m := MaxLength(b.Keys + w.Keys);
    if m < |path| then 0 else m - |path| + 1
  }

  ghost predicate KidsOfEither(b: Tree, w: Tree, path: string, names: seq<string>) {
    forall n | n in names :: n in KidNames(b, path) + KidNames(w, path)
  }

  lemma KidIsDeeper(b: Tree, w: Tree, path: string, name: string)
    requires Rooted(b) && Rooted(w) && name in KidNames(b, path) + KidNames(w, path)
    ensures Below(b, w, JoinPath(path, name)) < Below(b, w, path)
    ensures JoinPath(path, name) in b.Keys + w.Keys
    ensures ParentForestPath(JoinPath(path, name)) == path && JoinPath(path, name) != SUPER_ROOT
    ensures AtOrBelow(path, JoinPath(path, name))
  {
    if name in KidNames(b, path) { KidPlaced(b, path, name); } else { KidPlaced(w, path, name); }
    assert JoinPath(path, name) in b.Keys + w.Keys;
    assert AtOrBelow(path, path);
  }

  lemma KidSides(b: Tree, w: Tree, path: string, name: string)
    requires Rooted(b) && Rooted(w) && name in KidNames(b, path) + KidNames(w, path)
    ensures JoinPath(path, name) in b <==> name in KidNames(b, path)
    ensures JoinPath(path, name) in w <==> name in KidNames(w, path)
  {
    var c := JoinPath(path, name);
    if name in KidNames(b, path) { KidPlaced(b, path, name); } else { KidPlaced(w, path, name); }
    if c in b { PlacedIsKid(b, c); }
    if c in w { PlacedIsKid(w, c); }
    if name in KidNames(b, path) { KidPlaced(b, path, name); }
    if name in KidNames(w, path) { KidPlaced(w, path, name); }
  }

  /** What `walk` pushes for `path` itself. */
  function OwnEntries(b: Tree, w: Tree, path: string): (own: seq<DriftEntry>)
    ensures |own| <= 1 && forall e | e in own :: e.path == path
  {
    if path in b && path !in w then [RemovedEntry(path, b[path])]
    else if path !in b && path in w then [AddedEntry(path, w[path])]
    else if path !in b || b[path].hash == w[path].hash then []
    else if (b[path].IsLeaf() && w[path].IsLeaf()) || b[path].state != w[path].state then
      [BothEntry(path, b[path], w[path])]
    else []
  }

  /** `walk` goes below `path`: on both sides, hashes differ, not a leaf pair. */
  predicate Descends(b: Tree, w: Tree, path: string) {
    path in b && path in w && b[path].hash != w[path].hash && !(b[path].IsLeaf() && w[path].IsLeaf())
  }

  /** The entries `walk` pushes from `path` down, in order. */
  ghost function Drift(b: Tree, w: Tree, path: string): seq<DriftEntry>
    requires Rooted(b) && Rooted(w)
    decreases Below(b, w, path), 1, 0
  {
    OwnEntries(b, w, path) +
    if Descends(b, w, path) then DriftOfKids(b, w, path, WalkedNames(b, w, path)) else []
  }

  ghost function WalkedNames(b: Tree, w: Tree, path: string): (names: seq<string>)
    ensures KidsOfEither(b, w, path, names) && Distinct(names)
    ensures forall n :: n in names <==> n in KidNames(b, path) + KidNames(w, path)
  {
    SortedNames(KidNames(b, path) + KidNames(w, path))
  }

  ghost function DriftOfKids(b: Tree, w: Tree, path: string, names: seq<string>): seq<DriftEntry>
    requires Rooted(b) && Rooted(w) && KidsOfEither(b, w, path, names)
    decreases Below(b, w, path), 0, |names|
  {
    if names == [] then [] else
      KidIsDeeper(b, w, path, names[0]);
      assert KidsOfEither(b, w, path, names[1..]);
      Drift(b, w, JoinPath(path, names[0])) + DriftOfKids(b, w, path, names[1..])
  }

  lemma DriftOfKidsHead(b: Tree, w: Tree, path: string, names: seq<string>)
    requires Rooted(b) && Rooted(w) && KidsOfEither(b, w, path, names)
    ensures names == [] ==> DriftOfKids(b, w, path, names) == []
    ensures names != [] ==>
      KidsOfEither(b, w, path, names[1..]) &&
      DriftOfKids(b, w, path, names) == Drift(b, w, JoinPath(path, names[0])) + DriftOfKids(b, w, path, names[1..])
  {
    hide KidNames, Below, Drift, WalkedNames;
    if names != [] {
      KidIsDeeper(b, w, path, names[0]);
      assert KidsOfEither(b, w, path, names[1..]);
    }
  }

  // ---- The full comparison ----

  /** What a comparison of every path, without pruning, reports at or below `r`: the top of each subtree
      on one side only, and each differing path on both sides that is a leaf pair or changed state. */
  ghost predicate Reported(b: Tree, w: Tree, r: string, q: string) {
    && AtOrBelow(r, q)
    && if q in b && q in w then
         b[q].hash != w[q].hash && ((b[q].IsLeaf() && w[q].IsLeaf()) || b[q].state != w[q].state)
       else
         (q in b || q in w) && (q == r || (ParentForestPath(q) in b && ParentForestPath(q) in w))
  }

  function EntryFor(b: Tree, w: Tree, q: string): DriftEntry
    requires q in b || q in w
  {
    if q !in w then RemovedEntry(q, b[q]) else if q !in b then AddedEntry(q, w[q]) else BothEntry(q, b[q], w[q])
  }

  lemma {:induction false} KidsMember(b: Tree, w: Tree, path: string, names: seq<string>, e: DriftEntry)
    requires Rooted(b) && Rooted(w) && KidsOfEither(b, w, path, names)
    ensures e in DriftOfKids(b, w, path, names) <==> exists n | n in names :: e in Drift(b, w, JoinPath(path, n))
  {
    hide KidNames, Below, Drift, WalkedNames, Linked;
    if names != [] {
      DriftOfKidsHead(b, w, path, names);
      var rest := names[1..];
      KidsMember(b, w, path, rest, e);
      assert forall n :: n in names <==> n == names[0] || n in rest;
    }
  }

  /** Nothing but true drift is reported, once per path, whatever the hashes. */
  lemma {:induction false} DriftSound(b: Tree, w: Tree, r: string, e: DriftEntry)
    requires Rooted(b) && Rooted(w)
    requires e in Drift(b, w, r)
    ensures Reported(b, w, r, e.path) && e == EntryFor(b, w, e.path)
    decreases Below(b, w, r)
  {
    hide WalkedNames, KidNames, Below, Linked;
    if Descends(b, w, r) {
      var names := WalkedNames(b, w, r);
      if e in DriftOfKids(b, w, r, names) {
        KidsMember(b, w, r, names, e);
        var n :| n in names && e in Drift(b, w, JoinPath(r, n));
        KidIsDeeper(b, w, r, n);
        DriftSound(b, w, JoinPath(r, n), e);
        AtOrBelowTransitive(r, JoinPath(r, n), e.path);
      }
    }
  }

  /** An entry carries the hash and state of each side that has its path, and its kind says which sides have it and
      whether the states differ. */
  lemma EntrySays(b: Tree, w: Tree, r: string, e: DriftEntry)
    requires Rooted(b) && Rooted(w) && e in Drift(b, w, r)
    ensures e.path in b || e.path in w
    ensures e.kind == Added <==> e.path !in b
    ensures e.kind == Removed <==> e.path !in w
    ensures e.kind == StateChanged <==> e.path in b && e.path in w && b[e.path].state != w[e.path].state
    ensures e.baselineHash == (if e.path in b then Some(b[e.path].hash) else None)
    ensures e.workingHash == (if e.path in w then Some(w[e.path].hash) else None)
    ensures e.baselineState == (if e.path in b then Some(b[e.path].state) else None)
    ensures e.workingState == (if e.path in w then Some(w[e.path].state) else None)
  {
    hide Drift, Rooted, AtOrBelow;
    DriftSound(b, w, r, e);
  }

  /** The child of `r` on the way down to `q`. */
  function Toward(r: string, q: string): (c: string)
    requires AtOrBelow(r, q) && q != r
    ensures c != SUPER_ROOT && ParentForestPath(c) == r && AtOrBelow(c, q) && AtOrBelow(r, c)
    decreases |q|
  {
    if ParentForestPath(q) == r then q else Toward(r, ParentForestPath(q))
  }

  /** The first step of a descent from `r` to a node `q` of either tree is one of the walked names. */
  lemma TowardIsKid(b: Tree, w: Tree, r: string, q: string)
    requires Shape(b) && Shape(w) && AtOrBelow(r, q) && q != r && (q in b || q in w)
    ensures var n := LeafName(Toward(r, q));
            n in KidNames(b, r) + KidNames(w, r) && JoinPath(r, n) == Toward(r, q)
    ensures (r in b && !b[r].IsLeaf()) || (r in w && !w[r].IsLeaf())
  {
    var c := Toward(r, q);
    if q in b {
      AncestorInTree(b, c, q);
      NodeIsKid(b, c);
      assert Linked(b, c);
    } else {
      AncestorInTree(w, c, q);
      NodeIsKid(w, c);
      assert Linked(w, c);
    }
  }

  lemma ReportedNeedsBoth(b: Tree, w: Tree, r: string, q: string)
    requires Shape(b) && Shape(w) && Reported(b, w, r, q) && q != r
    ensures r in b && r in w && (q in b || q in w)
    ensures Reported(b, w, Toward(r, q), q)
  {
    var up := ParentForestPath(q);
    assert q in b ==> Linked(b, q);
    assert q in w ==> Linked(w, q);
    assert up in b && up in w;
    AncestorInTree(b, r, up);
    AncestorInTree(w, r, up);
  }

  /** Pruning loses nothing: every report of the full comparison is found. */
  lemma {:induction false} DriftComplete(sha: Sha, b: Tree, preB: Preimages, w: Tree, preW: Preimages, r: string, q: string)
    requires Merkle(sha, b, preB) && Merkle(sha, w, preW)
    requires NoCollision(sha, preB.Values + preW.Values)
    requires Reported(b, w, r, q)
    ensures EntryFor(b, w, q) in Drift(b, w, r)
    decreases Below(b, w, r)
  {
    hide NoCollision, KidNames, WalkedNames, Linked, NodeHashed, Below;
    if q != r {
      ReportedNeedsBoth(b, w, r, q);
      if b[r].hash == w[r].hash {
        HashBindsSubtree(sha, b, preB, w, preW, r, q);
        assert false;
      }
      TowardIsKid(b, w, r, q);
      var n := LeafName(Toward(r, q));
      KidIsDeeper(b, w, r, n);
      DriftComplete(sha, b, preB, w, preW, JoinPath(r, n), q);
      KidsMember(b, w, r, WalkedNames(b, w, r), EntryFor(b, w, q));
    }
  }

  /** The pruned walk and the full comparison report the same entries. */
  lemma PrunedEqualsFull(sha: Sha, b: Tree, preB: Preimages, w: Tree, preW: Preimages, r: string, e: DriftEntry)
    requires Merkle(sha, b, preB) && Merkle(sha, w, preW)
    requires NoCollision(sha, preB.Values + preW.Values)
    ensures e in Drift(b, w, r) <==> Reported(b, w, r, e.path) && e == EntryFor(b, w, e.path)
  {
    if e in Drift(b, w, r) { DriftSound(b, w, r, e); }
    if Reported(b, w, r, e.path) && e == EntryFor(b, w, e.path) { DriftComplete(sha, b, preB, w, preW, r, e.path); }
  }

  // ---- No path twice ----

  ghost predicate PathsDistinct(out: seq<DriftEntry>) {
    forall i, j | 0 <= i < j < |out| :: out[i].path != out[j].path
  }

  lemma SiblingsDisjoint(c: string, d: string, q: string)
    requires c != SUPER_ROOT && d != SUPER_ROOT && ParentForestPath(c) == ParentForestPath(d)
    requires AtOrBelow(c, q) && AtOrBelow(d, q)
    ensures c == d
  {
    if c != d {
      var p := ParentForestPath(c);
      if |c| <= |d| {
        AncestorsChain(c, d, q);
        AtOrBelowLength(c, p);
      } else {
        AncestorsChain(d, c, q);
        AtOrBelowLength(d, p);
      }
    }
  }

  lemma DistinctAppend(x: seq<DriftEntry>, y: seq<DriftEntry>)
    requires PathsDistinct(x) && PathsDistinct(y)
    requires forall e, f | e in x && f in y :: e.path != f.path
    ensures PathsDistinct(x + y)
  {}

  /** An entry found below `r` comes from the walk of one child and names a path below that child. */
  lemma KidEntry(b: Tree, w: Tree, r: string, names: seq<string>, e: DriftEntry) returns (n: string)
    requires Rooted(b) && Rooted(w) && KidsOfEither(b, w, r, names)
    requires e in DriftOfKids(b, w, r, names)
    ensures n in names && AtOrBelow(JoinPath(r, n), e.path) && e.path != r
    ensures JoinPath(r, n) != SUPER_ROOT && ParentForestPath(JoinPath(r, n)) == r
  {
    KidsMember(b, w, r, names, e);
    n :| n in names && e in Drift(b, w, JoinPath(r, n));
    KidIsDeeper(b, w, r, n);
    DriftSound(b, w, JoinPath(r, n), e);
    AtOrBelowLength(JoinPath(r, n), e.path);
  }

  lemma OwnThenKidsDistinct(b: Tree, w: Tree, r: string, own: seq<DriftEntry>, names: seq<string>)
    requires Rooted(b) && Rooted(w) && KidsOfEither(b, w, r, names)
    requires PathsDistinct(own) && forall e | e in own :: e.path == r
    requires PathsDistinct(DriftOfKids(b, w, r, names))
    ensures PathsDistinct(own + DriftOfKids(b, w, r, names))
  {
    forall e, f | e in own && f in DriftOfKids(b, w, r, names) ensures e.path != f.path {
      var n := KidEntry(b, w, r, names, f);
    }
    DistinctAppend(own, DriftOfKids(b, w, r, names));
  }

  lemma SiblingEntries(b: Tree, w: Tree, r: string, names: seq<string>, e: DriftEntry, f: DriftEntry)
    requires Rooted(b) && Rooted(w) && KidsOfEither(b, w, r, names) && Distinct(names) && names != []
    requires KidsOfEither(b, w, r, names[1..])
    requires e in Drift(b, w, JoinPath(r, names[0])) && f in DriftOfKids(b, w, r, names[1..])
    ensures e.path != f.path
  {
    hide KidNames, Below, Drift, WalkedNames, Linked, DriftOfKids, EntryFor;
    var c := JoinPath(r, names[0]);
    var n := KidEntry(b, w, r, names[1..], f);
    KidIsDeeper(b, w, r, names[0]);
    DriftSound(b, w, c, e);
    if e.path == f.path {
      SiblingsDisjoint(c, JoinPath(r, n), e.path);
      SameParentSameName(b, w, r, names[0], n);
    }
  }

  lemma {:induction false} DriftDistinct(b: Tree, w: Tree, r: string)
    requires Rooted(b) && Rooted(w)
    ensures PathsDistinct(Drift(b, w, r))
    decreases Below(b, w, r), 1, 0
  {
    if Descends(b, w, r) {
      var names := WalkedNames(b, w, r);
      DriftOfKidsDistinct(b, w, r, names);
      OwnThenKidsDistinct(b, w, r, OwnEntries(b, w, r), names);
    }
  }

  lemma {:induction false} DriftOfKidsDistinct(b: Tree, w: Tree, r: string, names: seq<string>)
    requires Rooted(b) && Rooted(w) && KidsOfEither(b, w, r, names) && Distinct(names)
    ensures PathsDistinct(DriftOfKids(b, w, r, names))
    decreases Below(b, w, r), 0, |names|
  {
    hide KidNames, Below, Drift, WalkedNames, Linked, Reported, DriftOfKids;
    DriftOfKidsHead(b, w, r, names);
    if names != [] {
      var c, rest := JoinPath(r, names[0]), names[1..];
      KidIsDeeper(b, w, r, names[0]);
      DriftDistinct(b, w, c);
      DriftOfKidsDistinct(b, w, r, rest);
      forall e, f | e in Drift(b, w, c) && f in DriftOfKids(b, w, r, rest) ensures e.path != f.path {
        SiblingEntries(b, w, r, names, e, f);
      }
      DistinctAppend(Drift(b, w, c), DriftOfKids(b, w, r, rest));
    }
  }

  lemma SameParentSameName(b: Tree, w: Tree, r: string, m: string, n: string)
    requires Rooted(b) && Rooted(w) && JoinPath(r, m) == JoinPath(r, n)
    requires m in KidNames(b, r) + KidNames(w, r) && n in KidNames(b, r) + KidNames(w, r)
    ensures m == n
  {
    if m in KidNames(b, r) { KidPlaced(b, r, m); } else { KidPlaced(w, r, m); }
    if n in KidNames(b, r) { KidPlaced(b, r, n); } else { KidPlaced(w, r, n); }
  }

  // ---- Empty exactly when the root hashes agree ----

  /** The states the assembly gives: leaves are present or unreadable, a childless directory is never
      `present`, and the sentinel states carry their sentinel hashes. */
  ghost predicate StatesHonest(sha: Sha, t: Tree) { forall p | p in t :: StateHonest(sha, t, p) }

  ghost predicate StateHonest(sha: Sha, t: Tree, p: string)
    requires p in t
  {
    var n := t[p];
    && (n.state == Unreadable ==> n.hash == UnreadableHash(sha))
    && if n.IsLeaf() then n.state == Present || n.state == Unreadable
       else if KidNames(t, p) == {} then
         n.state != Present && (n.state == EmptyDir ==> n.hash == EmptyDirHash(sha))
       else n.state != EmptyDir
  }

  /** Two childless unavailable nodes at one path, a frozen placeholder and a frozen empty guest, have the
      same hash. Their state does not tell them apart. */
  ghost predicate FrozenAgree(b: Tree, w: Tree) {
    forall p | p in b && p in w && b[p].state == Unavailable && w[p].state == Unavailable
               && KidNames(b, p) == {} && KidNames(w, p) == {} :: b[p].hash == w[p].hash
  }

  lemma LeavesHaveNoKids(t: Tree, p: string)
    requires Shape(t) && p in t && t[p].IsLeaf()
    ensures KidNames(t, p) == {}
  {
    forall q | q in t ensures t[q].parentPath != Some(p) { assert Linked(t, q); }
  }

  ghost predicate KidsAgree(b: Tree, w: Tree, r: string) {
    && KidNames(b, r) == KidNames(w, r)
    && forall n | n in KidNames(b, r) :: HashAt(b, JoinPath(r, n)) == HashAt(w, JoinPath(r, n))
  }

  lemma DisagreeingName(x: set<string>, y: set<string>, b: Tree, w: Tree, r: string) returns (n: string)
    requires !(x == y && forall n | n in x :: HashAt(b, JoinPath(r, n)) == HashAt(w, JoinPath(r, n)))
    ensures n in x + y
    ensures n in x && n in y ==> HashAt(b, JoinPath(r, n)) != HashAt(w, JoinPath(r, n))
  {
    if !(x <= y) {
      n :| n in x && n !in y;
    } else if !(y <= x) {
      n :| n in y && n !in x;
    } else {
      assert x == y;
      n :| n in x && HashAt(b, JoinPath(r, n)) != HashAt(w, JoinPath(r, n));
    }
  }

  /** Nodes with the same state and the same children have the same hash, leaf pairs apart. */
  lemma SameKidsSameHash(sha: Sha, b: Tree, preB: Preimages, w: Tree, preW: Preimages, r: string)
    requires Merkle(sha, b, preB) && Merkle(sha, w, preW)
    requires StatesHonest(sha, b) && StatesHonest(sha, w) && FrozenAgree(b, w)
    requires r in b && r in w && b[r].state == w[r].state && !(b[r].IsLeaf() && w[r].IsLeaf())
    requires KidNames(b, r) == KidNames(w, r) && KidRefs(b, r) == KidRefs(w, r)
    ensures b[r].hash == w[r].hash
  {
    assert NodeHashed(sha, b, r, preB[r]) && NodeHashed(sha, w, r, preW[r]);
    assert StateHonest(sha, b, r) && StateHonest(sha, w, r);
    if b[r].IsLeaf() { LeavesHaveNoKids(b, r); }
    if w[r].IsLeaf() { LeavesHaveNoKids(w, r); }
  }

  lemma UnequalDirsUnequalKid(sha: Sha, b: Tree, preB: Preimages, w: Tree, preW: Preimages, r: string) returns (n: string)
    requires Merkle(sha, b, preB) && Merkle(sha, w, preW)
    requires StatesHonest(sha, b) && StatesHonest(sha, w) && FrozenAgree(b, w)
    requires r in b && r in w && b[r].hash != w[r].hash && b[r].state == w[r].state
    requires !(b[r].IsLeaf() && w[r].IsLeaf())
    ensures n in KidNames(b, r) + KidNames(w, r)
    ensures n in KidNames(b, r) && n in KidNames(w, r) ==> HashAt(b, JoinPath(r, n)) != HashAt(w, JoinPath(r, n))
  {
    if KidsAgree(b, w, r) {
      KidRefsFrame(b, w, r);
      SameKidsSameHash(sha, b, preB, w, preW, r);
      assert false;
    }
    n := DisagreeingName(KidNames(b, r), KidNames(w, r), b, w, r);
  }

  lemma KidDriftIsDrift(b: Tree, w: Tree, r: string, n: string)
    requires Rooted(b) && Rooted(w) && Descends(b, w, r)
    requires n in KidNames(b, r) + KidNames(w, r) && Drift(b, w, JoinPath(r, n)) != []
    ensures Drift(b, w, r) != []
  {
    hide KidNames, Linked, Below, OwnEntries;
    KidsMember(b, w, r, WalkedNames(b, w, r), Drift(b, w, JoinPath(r, n))[0]);
  }

  lemma OneSidedDrift(b: Tree, w: Tree, r: string)
    requires Rooted(b) && Rooted(w) && (r in b) != (r in w)
    ensures Drift(b, w, r) != []
  {}

  lemma EqualOrOwnDrift(b: Tree, w: Tree, r: string)
    requires Rooted(b) && Rooted(w) && r in b && r in w
    ensures b[r].hash == w[r].hash ==> Drift(b, w, r) == []
    ensures b[r].hash != w[r].hash && (!Descends(b, w, r) || b[r].state != w[r].state) ==> Drift(b, w, r) != []
  {
    hide DriftOfKids;
  }

  /** The diff is empty exactly when the hashes agree. */
  lemma {:induction false} DriftEmptyIffHashesAgree(sha: Sha, b: Tree, preB: Preimages, w: Tree, preW: Preimages, r: string)
    requires Merkle(sha, b, preB) && Merkle(sha, w, preW)
    requires StatesHonest(sha, b) && StatesHonest(sha, w) && FrozenAgree(b, w)
    requires r in b && r in w
    ensures Drift(b, w, r) == [] <==> b[r].hash == w[r].hash
    decreases Below(b, w, r)
  {
    hide KidNames, Drift, Hashed, StatesHonest, FrozenAgree, Linked, Below;
    EqualOrOwnDrift(b, w, r);
    if Descends(b, w, r) && b[r].state == w[r].state {
      var n := UnequalDirsUnequalKid(sha, b, preB, w, preW, r);
      KidIsDeeper(b, w, r, n);
      KidSides(b, w, r, n);
      var c := JoinPath(r, n);
      if c in b && c in w {
        DriftEmptyIffHashesAgree(sha, b, preB, w, preW, c);
      } else {
        OneSidedDrift(b, w, c);
      }
      KidDriftIsDrift(b, w, r, n);
    }
  }

  // ---- Every drifted file is accounted for ----

  ghost predicate Differs(b: Tree, w: Tree, q: string) {
    (q in b) != (q in w) || (q in b && q in w && b[q].hash != w[q].hash)
  }

  ghost predicate FileIn(t: Tree, q: string) { q in t && t[q].IsLeaf() }

  /** The highest ancestor of `q`, at or below `r`, that only one tree has. */
  lemma {:induction false} TopOfOneSided(b: Tree, w: Tree, r: string, q: string) returns (top: string)
    requires Shape(b) && Shape(w) && r in b && r in w && AtOrBelow(r, q)
    requires (q in b) != (q in w)
    ensures AtOrBelow(r, top) && AtOrBelow(top, q) && Reported(b, w, r, top)
    ensures (top in b) != (top in w)
    decreases |q|
  {
    var up := ParentForestPath(q);
    assert q in b ==> Linked(b, q);
    assert q in w ==> Linked(w, q);
    if up in b && up in w {
      top := q;
    } else {
      top := TopOfOneSided(b, w, r, up);
    }
  }

  /** Where a file became a directory in the same state, or the reverse, the children are reported. */
  lemma FlipHasReportedKid(sha: Sha, b: Tree, w: Tree, r: string, q: string) returns (c: string)
    requires Shape(b) && Shape(w) && StatesHonest(sha, b) && StatesHonest(sha, w)
    requires AtOrBelow(r, q) && q in b && q in w && b[q].hash != w[q].hash
    requires b[q].IsLeaf() != w[q].IsLeaf() && b[q].state == w[q].state
    ensures AtOrBelow(q, c) && Reported(b, w, r, c)
  {
    assert StateHonest(sha, b, q) && StateHonest(sha, w, q);
    if b[q].IsLeaf() { LeavesHaveNoKids(b, q); } else { LeavesHaveNoKids(w, q); }
    var n :| n in KidNames(b, q) + KidNames(w, q);
    KidIsDeeper(b, w, q, n);
    KidSides(b, w, q, n);
    c := JoinPath(q, n);
    AtOrBelowTransitive(r, q, c);
  }

  /** A file path that differs is reported itself, lies below a reported addition or removal, or, where a
      file became a directory or the reverse, has a reported path at or below it. */
  lemma FileDriftCovered(sha: Sha, b: Tree, preB: Preimages, w: Tree, preW: Preimages, r: string, q: string)
    returns (e: DriftEntry)
    requires Merkle(sha, b, preB) && Merkle(sha, w, preW)
    requires NoCollision(sha, preB.Values + preW.Values)
    requires StatesHonest(sha, b) && StatesHonest(sha, w)
    requires r in b && r in w && AtOrBelow(r, q)
    requires (FileIn(b, q) || FileIn(w, q)) && Differs(b, w, q)
    ensures e in Drift(b, w, r)
    ensures e.path == q
         || (AtOrBelow(e.path, q) && (e.kind == Added || e.kind == Removed))
         || (q in b && q in w && b[q].IsLeaf() != w[q].IsLeaf() && AtOrBelow(q, e.path))
  {
    hide Shape, Hashed, Drift, KidNames, StatesHonest, NoCollision;
    var top := q;
    if (q in b) != (q in w) {
      top := TopOfOneSided(b, w, r, q);
    } else if !Reported(b, w, r, q) {
      top := FlipHasReportedKid(sha, b, w, r, q);
    }
    e := EntryFor(b, w, top);
    DriftComplete(sha, b, preB, w, preW, r, top);
  }

  // ---- The imperative walk ----

  method ListSet(s: set<string>) returns (l: seq<string>)
    ensures Distinct(l) && forall x :: x in l <==> x in s
  {
    l := [];
    var todo := s;
    while todo != {}
      invariant todo <= s && Distinct(l) && forall x :: x in l <==> x in s && x !in todo
      decreases |todo|
    {
      var x :| x in todo;
      l := l + [x];
      todo := todo - {x};
    }
  }

  ghost predicate IsKidList(t: Tree, p: string, kids: seq<StoredNode>) {
    && (forall n | n in kids :: n.path in t && t[n.path] == n && n.parentPath == Some(p))
    && (forall q | q in t && t[q].parentPath == Some(p) :: t[q] in kids)
    && (forall i, j | 0 <= i < j < |kids| :: kids[i].path != kids[j].path)
  }

  lemma PathIsKey(t: Tree, q: string)
    requires Rooted(t) && q in t
    ensures t[q].path == q
  {
    RootedAt(t, q);
  }

  /** `getChildren`: the nodes recorded under `parent`, in whatever order the store lists them. */
  method ChildrenOf(t: Tree, parent: string) returns (kids: seq<StoredNode>)
    requires Rooted(t)
    ensures IsKidList(t, parent, kids)
  {
    hide Rooted;
    var under := set q | q in t && t[q].parentPath == Some(parent);
    var paths := ListSet(under);
    kids := [];
    for i := 0 to |paths|
      invariant |kids| == i
      invariant forall j | 0 <= j < i :: paths[j] in under && kids[j] == t[paths[j]] && kids[j].path == paths[j]
    {
      assert paths[i] in paths;
      PathIsKey(t, paths[i]);
      kids := kids + [t[paths[i]]];
    }
    forall q | q in under ensures t[q] in kids {
      var i :| 0 <= i < |paths| && paths[i] == q;
      assert kids[i] == t[q];
    }
  }

  /** `names.add(lastSeg(c.path))` over a child list. */
  method AddNames(names: set<string>, kids: seq<StoredNode>) returns (r: set<string>)
    ensures r == names + set n | n in kids :: LeafName(n.path)
  {
    hide LeafName;
    r := names;
    for i := 0 to |kids|
      invariant r == names + set j | 0 <= j < i :: LeafName(kids[j].path)
    {
      r := r + {LeafName(kids[i].path)};
    }
  }

  lemma KidsGiveNames(t: Tree, p: string, kids: seq<StoredNode>)
    requires Rooted(t) && IsKidList(t, p, kids)
    ensures (set n | n in kids :: LeafName(n.path)) == KidNames(t, p)
  {
    forall x | x in KidNames(t, p) ensures exists n :: n in kids && LeafName(n.path) == x {
      var q :| q in t && t[q].parentPath == Some(p) && LeafName(q) == x;
      RootedAt(t, q);
      assert t[q] in kids;
    }
  }

  lemma KidsSplit(b: Tree, w: Tree, path: string, names: seq<string>, i: nat, pushed: seq<DriftEntry>)
    requires Rooted(b) && Rooted(w) && KidsOfEither(b, w, path, names) && i < |names|
    ensures KidsOfEither(b, w, path, names[i..]) && KidsOfEither(b, w, path, names[i + 1..])
    ensures pushed + DriftOfKids(b, w, path, names[i..])
         == pushed + Drift(b, w, JoinPath(path, names[i])) + DriftOfKids(b, w, path, names[i + 1..])
  {
    hide KidNames, Below, Drift, WalkedNames, Linked, DriftOfKids;
    assert names[i..][1..] == names[i + 1..];
    DriftOfKidsHead(b, w, path, names[i..]);
  }

  /** The shared result list of one comparison. */
  class Differ {
    var out: seq<DriftEntry>

    constructor ()
      ensures out == []
    {
      out := [];
    }

    method Walk(baseline: Tree, working: Tree, path: string)
      requires Rooted(baseline) && Rooted(working)
      modifies this
      ensures out == old(out) + Drift(baseline, working, path)
      decreases Below(baseline, working, path), 1
    {
      hide KidNames, Below, DriftOfKids, WalkedNames, Linked;
      if path in baseline && path !in working {
        out := out + [RemovedEntry(path, baseline[path])];
        return;
      }
      if path !in baseline && path in working {
        out := out + [AddedEntry(path, working[path])];
        return;
      }
      if path !in baseline || baseline[path].hash == working[path].hash { return; }
      if baseline[path].IsLeaf() && working[path].IsLeaf() {
        out := out + [BothEntry(path, baseline[path], working[path])];
        return;
      }
      if baseline[path].state != working[path].state {
        out := out + [BothEntry(path, baseline[path], working[path])];
      }
      WalkKids(baseline, working, path);
    }

    /** The descent below a node that changed. */
    method WalkKids(baseline: Tree, working: Tree, path: string)
      requires Rooted(baseline) && Rooted(working) && Descends(baseline, working, path)
      modifies this
      ensures out == old(out) + DriftOfKids(baseline, working, path, WalkedNames(baseline, working, path))
      decreases Below(baseline, working, path), 0
    {
      hide KidNames, Drift, DriftOfKids, WalkedNames, Linked;
      var names := WalkNames(baseline, working, path);
      ghost var all := out + DriftOfKids(baseline, working, path, names);
      assert names[0..] == names;
      for i := 0 to |names|
        invariant KidsOfEither(baseline, working, path, names[i..])
        invariant out + DriftOfKids(baseline, working, path, names[i..]) == all
      {
        KidsSplit(baseline, working, path, names, i, out);
        KidIsDeeper(baseline, working, path, names[i]);
        Walk(baseline, working, JoinPath(path, names[i]));
      }
      assert names[|names|..] == [];
      DriftOfKidsHead(baseline, working, path, names[|names|..]);
    }
  }

  /** The union of both sides' child names, sorted by bytes. */
  method WalkNames(baseline: Tree, working: Tree, path: string) returns (names: seq<string>)
    requires Rooted(baseline) && Rooted(working)
    ensures names == WalkedNames(baseline, working, path)
    ensures KidsOfEither(baseline, working, path, names)
  {
    hide KidNames, Rooted, IsKidList, LeafName;
    var kids := ChildrenOf(baseline, path);
    KidsGiveNames(baseline, path, kids);
    var all := AddNames({}, kids);
    kids := ChildrenOf(working, path);
    KidsGiveNames(working, path, kids);
    all := AddNames(all, kids);
    assert all == KidNames(baseline, path) + KidNames(working, path);
    var listed := ListSet(all);
    SortedNamesUnique(all, listed);
    names := Sort(NameLe, listed);
  }

  method Diff(baseline: Tree, working: Tree, rootPath: string) returns (out: seq<DriftEntry>)
    requires Rooted(baseline) && Rooted(working)
    ensures out == Drift(baseline, working, rootPath)
  {
    hide *;
    var d := new Differ();
    d.Walk(baseline, working, rootPath);
    ghost var r := Drift(baseline, working, rootPath);
    assert [] + r == r;
    out := d.out;
  }
}
