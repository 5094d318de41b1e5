/** Folding a connected list of entries into stored nodes (src/integrity/tree.ts, assembleSubtree). */
module Assembly {
  import opened Sorting
  import opened Utf8
  import opened ForestPaths
  import opened Folding
  import opened Options
  import opened Numerals
  import opened MerkleTrees
  import opened TreeDiff
  import opened NodeStores
  import opened Synthesis

  /** The content hash text of a readable file, as bytes. */
  type ContentHash = string -> Option<seq<byte>>

  /** What one assembly is given. */
  datatype Job = Job(level: Level, root: string, entries: EntryMap, content: ContentHash, isConfig: string -> bool)

  function MtimePayload(secs: int): seq<byte> { Encode(if secs < 0 then "-" + Decimal(-secs) else Decimal(secs)) }

  // ---- What an assembly yields ----

  ghost predicate ConfigBelow(j: Job, p: string, f: string) {
    f in j.entries && j.entries[f].kind == File && j.isConfig(f) && AtOrBelow(p, f)
  }

  /** All entries; at L2 the root, the config files and the directories above one. */
  ghost function Included(j: Job): set<string> {
    set p | p in j.entries && (j.level != L2 || p == j.root || exists f :: ConfigBelow(j, p, f))
  }

  /** The bytes of a file leaf. */
  function FileBytes(j: Job, p: string, e: RawEntry): seq<byte> {
    if e.state == Unreadable then UNREADABLE_BYTES
    else if j.level == L1 then LeafBytes(MtimePayload(if e.mtime.Some? then e.mtime.value else 0))
    else match j.content(p)
      case None => UNREADABLE_BYTES
      case Some(text) => LeafBytes(text)
  }

  /** The node at `p`, given the children the tree lists for it. */
  ghost function NodeFor(sha: Sha, j: Job, t: Tree, p: string): StoredNode
    requires p in j.entries
  {
    var e := j.entries[p];
    StoredNode(p,
      if e.kind == File then sha(FileBytes(j, p, e))
      else if e.state == Unreadable then UnreadableHash(sha)
      else FoldRefs(sha, KidRefs(t, p)),
      if e.kind == Dir && e.state == Present && KidNames(t, p) == {} then EmptyDir else e.state,
      e.mtime,
      Some(ParentForestPath(p)),
      if e.kind == File then None
      else if e.state == Unreadable then Some([])
      else Some(SortedNames(KidNames(t, p))))
  }

  ghost predicate IsAssembled(sha: Sha, j: Job, t: Tree) {
    && t.Keys == Included(j)
    && forall p | p in t :: t[p] == NodeFor(sha, j, t, p)
  }

  // ---- It is determined by the entries ----

  /** Both trees hang their nodes by their paths. */
  ghost predicate ByPath(t: Tree) { forall q | q in t :: t[q].parentPath == Some(ParentForestPath(q)) && Proper(q) }

  lemma SameKeysSameKids(t: Tree, u: Tree, p: string)
    requires t.Keys == u.Keys && ByPath(t) && ByPath(u)
    ensures KidNames(t, p) == KidNames(u, p)
  {}

  lemma AssembledByPath(sha: Sha, j: Job, t: Tree)
    requires IsAssembled(sha, j, t) && TreeEntries(j.root, j.entries)
    ensures ByPath(t)
  {
    hide KidRefs, KidNames, SortedNames, LeafName, Proper, FileBytes;
  }

  lemma ByPathKid(t: Tree, p: string, n: string)
    requires ByPath(t) && n in KidNames(t, p)
    ensures JoinPath(p, n) in t && |JoinPath(p, n)| > |p| && ParentForestPath(JoinPath(p, n)) == p
  {
    var q :| q in t && t[q].parentPath == Some(p) && LeafName(q) == n;
    JoinOfParts(q);
  }

  lemma {:induction false} AssembledNodeUnique(sha: Sha, j: Job, t: Tree, u: Tree, p: string)
    requires IsAssembled(sha, j, t) && IsAssembled(sha, j, u) && TreeEntries(j.root, j.entries) && p in t
    ensures t[p] == u[p]
    decreases Below(t, u, p)
  {
    hide KidRefs, KidNames, SortedNames, LeafName, Proper, FileBytes, TreeEntries, Included;
    AssembledByPath(sha, j, t);
    AssembledByPath(sha, j, u);
    SameKeysSameKids(t, u, p);
    forall n | n in KidNames(t, p) ensures HashAt(t, JoinPath(p, n)) == HashAt(u, JoinPath(p, n)) {
      ByPathKid(t, p, n);
      assert JoinPath(p, n) in t.Keys + u.Keys;
      AssembledNodeUnique(sha, j, t, u, JoinPath(p, n));
    }
    KidRefsFrame(t, u, p);
  }

  /** The tree is a function of the set of entries: listing them in another order changes no hash. */
  lemma AssembledUnique(sha: Sha, j: Job, t: Tree, u: Tree)
    requires IsAssembled(sha, j, t) && IsAssembled(sha, j, u) && TreeEntries(j.root, j.entries)
    ensures t == u
  {
    hide NodeFor, Included, TreeEntries;
    forall p | p in t ensures t[p] == u[p] { AssembledNodeUnique(sha, j, t, u, p); }
  }

  // ---- It is a Merkle tree below its root ----

  /** Part of a forest: Merkle equations hold, parents that are present are directories. */
  ghost predicate Grounded(sha: Sha, t: Tree, pre: Preimages) {
    && pre.Keys == t.Keys && ByPath(t)
    && (forall p | p in t :: GroundedNode(sha, t, p, pre[p]))
  }

  ghost predicate GroundedNode(sha: Sha, t: Tree, p: string, bytes: seq<byte>)
    requires p in t
  {
    && t[p].path == p && '\0' !in LeafName(p)
    && (ParentForestPath(p) in t ==> !t[ParentForestPath(p)].IsLeaf())
    && NodeHashed(sha, t, p, bytes)
  }

  ghost function BytesFor(j: Job, t: Tree, p: string): seq<byte>
    requires p in j.entries
  {
    if j.entries[p].kind == File then FileBytes(j, p, j.entries[p])
    else if j.entries[p].state == Unreadable then UNREADABLE_BYTES
    else NodeBytes(KidRefs(t, p))
  }

  lemma BarrenHasNoKids(j: Job, t: Tree, p: string)
    requires TreeEntries(j.root, j.entries) && ByPath(t) && t.Keys <= j.entries.Keys
    requires p in j.entries && (j.entries[p].kind == File || j.entries[p].state == Unreadable)
    ensures KidNames(t, p) == {}
  {
    if n :| n in KidNames(t, p) {
      ByPathKid(t, p, n);
      var q := JoinPath(p, n);
      if q == j.root { AtOrBelowLength(j.root, p); }
    }
  }

  /** Each assembled directory has the fold of exactly its included children. */
  lemma AssembledNodeGrounded(sha: Sha, j: Job, t: Tree, p: string)
    requires IsAssembled(sha, j, t) && TreeEntries(j.root, j.entries) && p in t
    ensures p in j.entries && GroundedNode(sha, t, p, BytesFor(j, t, p)) && StateHonest(sha, t, p)
  {
    hide KidRefs, KidNames, SortedNames, LeafName, Proper, Included, FileBytes, NodeBytes;
    AssembledByPath(sha, j, t);
    IncludedAreEntries(j);
    var e := j.entries[p];
    if e.kind == File || e.state == Unreadable { BarrenHasNoKids(j, t, p); }
    NoKids(t, p);
    FileBytesShape(j, p, e);
    var up := ParentForestPath(p);
    if up in t && p == j.root { RootParentOutside(j); }
  }

  lemma NoKids(t: Tree, p: string)
    ensures KidNames(t, p) == {} ==> SortedNames(KidNames(t, p)) == [] && KidRefs(t, p) == []
  {}

  lemma FileBytesShape(j: Job, p: string, e: RawEntry)
    ensures var b := FileBytes(j, p, e); (b != [] && b[0] == LEAF_DOMAIN) || b == UNREADABLE_BYTES
    ensures e.state == Unreadable ==> FileBytes(j, p, e) == UNREADABLE_BYTES
  {}

  // ---- What a file's hash depends on ----

  /** What is hashed for a modification time is its decimal text. */
  lemma MtimeIsDecimal(secs: int) returns (text: string)
    ensures IsDecimal(text, secs) && MtimePayload(secs) == Encode(text)
  {
    if secs < 0 {
      DecimalIsNumeral(-secs);
      text := "-" + Decimal(-secs);
      assert text[1..] == Decimal(-secs);
    } else {
      DecimalIsNumeral(secs);
      text := Decimal(secs);
    }
  }

  /** A readable file that is part of the tree. */
  ghost predicate IsFile(j: Job, t: Tree, p: string) {
    p in t && p in j.entries && j.entries[p].kind == File && j.entries[p].state != Unreadable
  }

  function SecondsAt(j: Job, p: string): int
    requires p in j.entries
  {
    if j.entries[p].mtime.Some? then j.entries[p].mtime.value else 0
  }

  /** The node of a file: the sentinel hash where it could not be read, its modification time at L1, its content at L2 and
      L3. */
  lemma FileNode(sha: Sha, j: Job, t: Tree, p: string)
    requires IsAssembled(sha, j, t) && p in t && p in j.entries && j.entries[p].kind == File
    ensures t[p].path == p && t[p].IsLeaf() && t[p].state == j.entries[p].state && t[p].mtime == j.entries[p].mtime
    ensures j.entries[p].state == Unreadable ==> t[p].hash == sha([2])
    ensures IsFile(j, t, p) && j.level == L1 ==> exists text :: IsDecimal(text, SecondsAt(j, p)) && t[p].hash == sha([0] + Encode(text))
    ensures IsFile(j, t, p) && j.level != L1 ==> t[p].hash == sha(if j.content(p).Some? then [0] + j.content(p).value else [2])
  {
    hide KidRefs, KidNames, SortedNames, ParentForestPath, Included, IsDecimal, MtimePayload;
    if IsFile(j, t, p) { var text := MtimeIsDecimal(SecondsAt(j, p)); }
  }

  /** The bytes a readable file is hashed from: the leaf byte, and the time or the content. */
  ghost predicate IsLeafInput(j: Job, p: string, bytes: seq<byte>)
    requires p in j.entries
  {
    if j.level == L1 then exists text :: IsDecimal(text, SecondsAt(j, p)) && bytes == [0] + Encode(text)
    else j.content(p).Some? && bytes == [0] + j.content(p).value
  }

  /** Two assemblies read the same of a file: at L1 its time, a missing one counting as 0, at L2 and L3 its content. */
  predicate SameFile(j: Job, k: Job, p: string)
    requires p in j.entries && p in k.entries
  {
    if j.level == L1 then SecondsAt(j, p) == SecondsAt(k, p) else j.content(p) == k.content(p)
  }

  lemma LeafInputHashed(sha: Sha, j: Job, t: Tree, p: string, bytes: seq<byte>)
    requires IsAssembled(sha, j, t) && IsFile(j, t, p) && IsLeafInput(j, p, bytes)
    ensures t[p].hash == sha(bytes)
  {
    hide IsAssembled, IsDecimal;
    FileNode(sha, j, t, p);
    if j.level == L1 {
      var text :| IsDecimal(text, SecondsAt(j, p)) && bytes == [0] + Encode(text);
      var other :| IsDecimal(other, SecondsAt(j, p)) && t[p].hash == sha([0] + Encode(other));
      DecimalUnique(text, other, SecondsAt(j, p));
    }
  }

  /** So two assemblies give a file the same hash exactly when they read the same of it. */
  lemma SameFileIff(sha: Sha, j: Job, t: Tree, k: Job, u: Tree, p: string, x: seq<byte>, y: seq<byte>)
    requires IsAssembled(sha, j, t) && IsAssembled(sha, k, u) && IsFile(j, t, p) && IsFile(k, u, p) && j.level == k.level
    requires IsLeafInput(j, p, x) && IsLeafInput(k, p, y) && NoCollision(sha, {x, y})
    ensures t[p].hash == u[p].hash <==> SameFile(j, k, p)
  {
    hide IsAssembled, IsDecimal, NoCollision;
    LeafInputHashed(sha, j, t, p, x);
    LeafInputHashed(sha, k, u, p, y);
    if sha(x) == sha(y) { CollisionFree(sha, {x, y}, x, y); }
    SameInputIff(j, k, p, x, y);
  }

  lemma SameInputIff(j: Job, k: Job, p: string, x: seq<byte>, y: seq<byte>)
    requires p in j.entries && p in k.entries && j.level == k.level && IsLeafInput(j, p, x) && IsLeafInput(k, p, y)
    ensures x == y <==> SameFile(j, k, p)
  {
    hide IsDecimal;
    assert x[1..] == y[1..] <==> x == y;
    if j.level == L1 {
      var s :| IsDecimal(s, SecondsAt(j, p)) && x == [0] + Encode(s);
      var t :| IsDecimal(t, SecondsAt(k, p)) && y == [0] + Encode(t);
      assert x[1..] == Encode(s) && y[1..] == Encode(t);
      if x == y {
        EncodeInjective(s, t);
        DecimalDetermines(s, SecondsAt(j, p), SecondsAt(k, p));
      }
      if SecondsAt(j, p) == SecondsAt(k, p) { DecimalUnique(s, t, SecondsAt(j, p)); }
    } else {
      assert x[1..] == j.content(p).value && y[1..] == k.content(p).value;
    }
  }

  lemma CollisionFree(sha: Sha, inputs: set<seq<byte>>, x: seq<byte>, y: seq<byte>)
    requires NoCollision(sha, inputs) && x in inputs && y in inputs && sha(x) == sha(y)
    ensures x == y
  {}

  lemma IncludedAreEntries(j: Job)
    ensures Included(j) <= j.entries.Keys
  {}

  lemma RootParentOutside(j: Job)
    requires TreeEntries(j.root, j.entries)
    ensures ParentForestPath(j.root) !in j.entries
  {
    var up := ParentForestPath(j.root);
    if up in j.entries { AtOrBelowLength(j.root, up); }
  }

  lemma AssembledGrounded(sha: Sha, j: Job, t: Tree) returns (pre: Preimages)
    requires IsAssembled(sha, j, t) && TreeEntries(j.root, j.entries)
    ensures Grounded(sha, t, pre) && StatesHonest(sha, t)
  {
    hide KidRefs, KidNames, SortedNames, LeafName, Proper, Included, BytesFor, GroundedNode, StateHonest, NodeFor, TreeEntries;
    AssembledByPath(sha, j, t);
    IncludedAreEntries(j);
    pre := map p | p in t :: BytesFor(j, t, p);
    forall p | p in t ensures GroundedNode(sha, t, p, pre[p]) && StateHonest(sha, t, p) { AssembledNodeGrounded(sha, j, t, p); }
  }

  // ---- The imperative assembly ----

  function ByPathMap(entries: seq<RawEntry>): EntryMap {
    if entries == [] then map[]
    else ByPathMap(entries[..|entries| - 1])[entries[|entries| - 1].path := entries[|entries| - 1]]
  }

  ghost predicate DistinctEntries(entries: seq<RawEntry>) {
    forall i, k | 0 <= i < k < |entries| :: entries[i].path != entries[k].path
  }

  lemma {:induction false} ByPathMapKeys(entries: seq<RawEntry>, p: string)
    ensures p in ByPathMap(entries) <==> exists i :: 0 <= i < |entries| && entries[i].path == p
  {
    if entries != [] {
      var n := |entries| - 1;
      ByPathMapKeys(entries[..n], p);
      if i :| 0 <= i < n && entries[i].path == p { assert entries[..n][i].path == p; }
    }
  }

  lemma {:induction false} ByPathMapAt(entries: seq<RawEntry>, i: nat)
    requires DistinctEntries(entries) && i < |entries|
    ensures entries[i].path in ByPathMap(entries) && ByPathMap(entries)[entries[i].path] == entries[i]
  {
    var n := |entries| - 1;
    if i < n {
      assert forall k | 0 <= k < n :: entries[..n][k] == entries[k];
      ByPathMapAt(entries[..n], i);
    }
  }

  lemma ByPathMapMember(entries: seq<RawEntry>)
    requires DistinctEntries(entries)
    ensures forall p :: p in ByPathMap(entries) <==> exists i :: 0 <= i < |entries| && entries[i].path == p
    ensures forall i | 0 <= i < |entries| :: entries[i].path in ByPathMap(entries) && ByPathMap(entries)[entries[i].path] == entries[i]
  {
    hide ByPathMap, DistinctEntries;
    forall p ensures p in ByPathMap(entries) <==> exists i :: 0 <= i < |entries| && entries[i].path == p {
      ByPathMapKeys(entries, p);
    }
    forall i | 0 <= i < |entries|
      ensures entries[i].path in ByPathMap(entries) && ByPathMap(entries)[entries[i].path] == entries[i]
    {
      ByPathMapAt(entries, i);
    }
  }

  /** Adds a path and its ancestors up to the root, stopping at the first one present. */
  method AddChain(root: string, start: set<string>, path: string) returns (inc: set<string>)
    requires root != "" && AtOrBelow(root, path)
    requires forall q | q in start && q != root :: q != "" && ParentForestPath(q) in start
    ensures forall q :: q in inc <==> q in start || Between(root, q, path)
  {
    inc := start;
    var p := path;
    ChainStart(root, path);
    while p != "" && |p| >= |root| && p !in inc
      invariant Between(root, p, path)
      invariant forall q :: q in inc <==> q in start || (Between(root, q, path) && |q| > |p|)
      decreases |p|
    {
      hide AtOrBelow, ParentForestPath, Between;
      FillStep(root, p, path);
      inc := inc + {p};
      if p == root {
        ChainAll(root, path);
        return;
      }
      ChainUp(root, p, path);
      p := ParentForestPath(p);
    }
    ChainStop(root, p, path);
    forall q | Between(root, q, path) && |q| <= |p| ensures q in start { ChainPresent(root, start, p, path, q); }
  }

  lemma ChainStart(root: string, path: string)
    requires AtOrBelow(root, path)
    ensures Between(root, path, path) && forall q | Between(root, q, path) :: |q| <= |path|
  {
    assert AtOrBelow(path, path);
    forall q | Between(root, q, path) ensures |q| <= |path| { AtOrBelowLength(q, path); }
  }

  lemma ChainStop(root: string, p: string, path: string)
    requires root != "" && Between(root, p, path)
    ensures p != "" && |p| >= |root|
  {
    AtOrBelowLength(root, p);
  }

  lemma ChainAll(root: string, path: string)
    ensures forall q | Between(root, q, path) :: |q| >= |root|
  {
    forall q | Between(root, q, path) ensures |q| >= |root| { AtOrBelowLength(root, q); }
  }

  lemma ChainUp(root: string, p: string, path: string)
    requires root != "" && Between(root, p, path) && p != root
    ensures Between(root, ParentForestPath(p), path) && |ParentForestPath(p)| < |p|
    ensures forall q | Between(root, q, path) :: |q| > |ParentForestPath(p)| <==> |q| >= |p|
  {
    AboveStep(root, p, path);
  }

  lemma ChainPresent(root: string, start: set<string>, p: string, path: string, q: string)
    requires root != "" && Between(root, p, path) && Between(root, q, path) && |q| <= |p| && p in start
    requires forall x | x in start && x != root :: x != "" && ParentForestPath(x) in start
    ensures q in start
    decreases |p|
  {
    AncestorsChain(q, p, path);
    if q != p {
      AtOrBelowLength(root, q);
      AtOrBelowLength(q, p);
      assert p != root;
      AboveStep(root, p, path);
      AtOrBelowLength(q, ParentForestPath(p));
      ChainPresent(root, start, ParentForestPath(p), path, q);
    }
  }

  ghost predicate ConfigChain(j: Job, entries: seq<RawEntry>, q: string) {
    exists i :: 0 <= i < |entries| && entries[i].kind == File && j.isConfig(entries[i].path) && Between(j.root, q, entries[i].path)
  }

  /** The config files of a list and everything above them, up to the root. */
  method IncludeConfig(j: Job, entries: seq<RawEntry>) returns (inc: set<string>)
    requires j.root != "" && forall e | e in entries :: AtOrBelow(j.root, e.path)
    ensures forall q :: q in inc <==> ConfigChain(j, entries, q)
  {
    hide AtOrBelow, ConfigChain, Between;
    inc := {};
    NoChain(j);
    assert entries[..0] == [];
    for i := 0 to |entries|
      invariant forall q :: q in inc <==> ConfigChain(j, entries[..i], q)
    {
      var e := entries[i];
      assert e in entries;
      ChainClosed(j, entries[..i], inc);
      ChainGrows(j, entries, i);
      if e.kind == File && j.isConfig(e.path) { inc := AddChain(j.root, inc, e.path); }
    }
    assert entries[..|entries|] == entries;
  }

  lemma NoChain(j: Job)
    ensures forall q :: !ConfigChain(j, [], q)
  {}

  method IncludeAll(entries: seq<RawEntry>) returns (inc: set<string>)
    ensures forall p :: p in inc <==> exists i :: 0 <= i < |entries| && entries[i].path == p
  {
    inc := {};
    for i := 0 to |entries|
      invariant forall p :: p in inc <==> exists k :: 0 <= k < i && entries[k].path == p
    {
      inc := inc + {entries[i].path};
    }
  }

  /** The membership pass. */
  method IncludePaths(j: Job, entries: seq<RawEntry>) returns (inc: set<string>)
    requires DistinctEntries(entries) && j.entries == ByPathMap(entries) && TreeEntries(j.root, j.entries)
    ensures inc == Included(j)
  {
    hide ByPathMap, TreeEntries, Included, AtOrBelow, ConfigChain, DistinctEntries;
    EntriesFacts(j, entries);
    if j.level == L2 {
      inc := IncludeConfig(j, entries);
      inc := inc + {j.root};
      ConfigIncluded(j, entries, inc);
    } else {
      inc := IncludeAll(entries);
      AllIncluded(j, inc);
    }
  }

  lemma EntriesFacts(j: Job, entries: seq<RawEntry>)
    requires DistinctEntries(entries) && j.entries == ByPathMap(entries) && TreeEntries(j.root, j.entries)
    ensures j.root != "" && forall e | e in entries :: AtOrBelow(j.root, e.path)
    ensures forall p :: p in j.entries <==> exists i :: 0 <= i < |entries| && entries[i].path == p
    ensures forall i | 0 <= i < |entries| :: entries[i].path in j.entries && j.entries[entries[i].path] == entries[i]
  {
    ByPathMapMember(entries);
    hide ByPathMap, AtOrBelow;
  }

  lemma EntryAtRoot(j: Job, p: string)
    requires TreeEntries(j.root, j.entries) && p in j.entries
    ensures AtOrBelow(j.root, p) && j.root != "" && Proper(p)
  {}

  lemma ChainClosed(j: Job, entries: seq<RawEntry>, inc: set<string>)
    requires forall q :: q in inc <==> ConfigChain(j, entries, q)
    requires j.root != ""
    ensures forall q | q in inc && q != j.root :: q != "" && ParentForestPath(q) in inc
  {
    forall q | q in inc && q != j.root ensures q != "" && ParentForestPath(q) in inc {
      var i :| 0 <= i < |entries| && entries[i].kind == File && j.isConfig(entries[i].path) && Between(j.root, q, entries[i].path);
      AboveStep(j.root, q, entries[i].path);
      assert ConfigChain(j, entries, ParentForestPath(q));
    }
  }

  lemma ChainGrows(j: Job, entries: seq<RawEntry>, i: nat)
    requires i < |entries|
    ensures forall q :: ConfigChain(j, entries[..i + 1], q) <==>
      ConfigChain(j, entries[..i], q) || (entries[i].kind == File && j.isConfig(entries[i].path) && Between(j.root, q, entries[i].path))
  {
    hide Between;
    var now, was := entries[..i + 1], entries[..i];
    assert forall k | 0 <= k < i :: now[k] == was[k];
    assert now[i] == entries[i];
    forall q | ConfigChain(j, was, q) ensures ConfigChain(j, now, q) {
      var k :| 0 <= k < |was| && was[k].kind == File && j.isConfig(was[k].path) && Between(j.root, q, was[k].path);
      assert now[k] == was[k];
    }
  }

  lemma AncestorIsEntry(j: Job, q: string, f: string)
    requires TreeEntries(j.root, j.entries) && f in j.entries && Between(j.root, q, f)
    ensures q in j.entries
    decreases |f|
  {
    if q != f {
      AtOrBelowLength(j.root, q);
      AtOrBelowLength(q, f);
      AncestorIsEntry(j, q, ParentForestPath(f));
    }
  }

  lemma ConfigIncluded(j: Job, entries: seq<RawEntry>, inc: set<string>)
    requires TreeEntries(j.root, j.entries) && j.level == L2
    requires forall p :: p in j.entries <==> exists i :: 0 <= i < |entries| && entries[i].path == p
    requires forall i | 0 <= i < |entries| :: entries[i].path in j.entries && j.entries[entries[i].path] == entries[i]
    requires forall q :: q in inc <==> q == j.root || ConfigChain(j, entries, q)
    ensures inc == Included(j)
  {
    hide TreeEntries, AtOrBelow;
    RootIsEntry(j);
    forall q ensures q in inc <==> q in Included(j) {
      if ConfigChain(j, entries, q) {
        var i :| 0 <= i < |entries| && entries[i].kind == File && j.isConfig(entries[i].path) && Between(j.root, q, entries[i].path);
        AncestorIsEntry(j, q, entries[i].path);
        assert ConfigBelow(j, q, entries[i].path);
      }
      if q in j.entries {
        EntryAtRoot(j, q);
        if f :| ConfigBelow(j, q, f) {
          var i :| 0 <= i < |entries| && entries[i].path == f;
          assert Between(j.root, q, entries[i].path);
        }
      }
    }
  }

  lemma RootIsEntry(j: Job)
    requires TreeEntries(j.root, j.entries)
    ensures j.root in j.entries
  {}

  lemma AllIncluded(j: Job, inc: set<string>)
    requires j.level != L2 && forall p :: p in inc <==> p in j.entries
    ensures inc == Included(j)
  {
    assert forall p :: p in Included(j) <==> p in j.entries;
  }

  // ---- The fold pass ----

  /** Number of slashes. */
  function Depth(p: string): nat {
    if p == "" then 0 else Depth(p[..|p| - 1]) + if p[|p| - 1] == '/' then 1 else 0
  }

  predicate DeeperFirst(p: string, q: string) { Depth(p) >= Depth(q) }

  lemma DepthSuffix(p: string, i: nat)
    requires i <= |p| && forall k | i <= k < |p| :: p[k] != '/'
    ensures Depth(p) == Depth(p[..i])
    decreases |p|
  {
    if i == |p| {
      assert p[..i] == p;
    } else {
      var r := p[..|p| - 1];
      DepthSuffix(r, i);
      assert r[..i] == p[..i];
    }
  }

  lemma ChildIsDeeper(p: string, q: string)
    requires Proper(q) && ParentForestPath(q) == p && p != ""
    ensures Depth(q) == Depth(p) + 1
  {
    var i := LastSlash(q);
    DepthSuffix(q, i + 1);
    assert q[..i + 1][..i] == p;
  }

  /** The part of the tree folded so far. */
  ghost predicate Partial(sha: Sha, j: Job, t: Tree) {
    t.Keys <= Included(j) && ByPath(t) && forall p | p in t :: p in j.entries && t[p] == NodeFor(sha, j, t, p)
  }

  /** Nothing folded so far is above `q`. */
  ghost predicate NoneAbove(t: Tree, q: string) { ParentForestPath(q) !in t && ParentForestPath(q) != q }

  lemma NewNodeKeepsKids(t: Tree, q: string, n: StoredNode, p: string)
    requires ByPath(t) && q !in t && n.parentPath == Some(ParentForestPath(q)) && p != ParentForestPath(q)
    ensures KidNames(t[q := n], p) == KidNames(t, p)
    ensures forall m | m in KidNames(t, p) :: HashAt(t[q := n], JoinPath(p, m)) == HashAt(t, JoinPath(p, m))
  {
    hide LeafName, Proper, ParentForestPath;
    forall m | m in KidNames(t, p) ensures HashAt(t[q := n], JoinPath(p, m)) == HashAt(t, JoinPath(p, m)) {
      ByPathKid(t, p, m);
    }
  }

  lemma NodeForFrame(sha: Sha, j: Job, t: Tree, u: Tree, p: string)
    requires p in j.entries && KidNames(t, p) == KidNames(u, p)
    requires forall m | m in KidNames(t, p) :: HashAt(t, JoinPath(p, m)) == HashAt(u, JoinPath(p, m))
    ensures NodeFor(sha, j, t, p) == NodeFor(sha, j, u, p)
  {
    hide KidNames, SortedNames, FileBytes;
    KidRefsFrame(t, u, p);
  }

  /** Adding a node after everything below it leaves the earlier nodes right. */
  lemma PartialGrows(sha: Sha, j: Job, t: Tree, q: string)
    requires Partial(sha, j, t) && q in Included(j) && q in j.entries && q !in t && NoneAbove(t, q) && Proper(q)
    ensures Partial(sha, j, t[q := NodeFor(sha, j, t, q)])
  {
    hide KidNames, SortedNames, FileBytes, LeafName, Included, KidRefs, ParentForestPath, Proper;
    var n := NodeFor(sha, j, t, q);
    var u := t[q := n];
    forall p | p in u ensures u[p] == NodeFor(sha, j, u, p) {
      NewNodeKeepsKids(t, q, n, p);
      NodeForFrame(sha, j, t, u, p);
    }
  }

  lemma TreeOfAppend(out: seq<StoredNode>, n: StoredNode)
    ensures TreeOf(out + [n]) == TreeOf(out)[n.path := n]
  {
    assert (out + [n])[..|out|] == out;
  }

  /** The children of a directory among the nodes hashed so far. */
  method GatherKids(ghost t: Tree, j: Job, path: string, entries: seq<RawEntry>, included: set<string>, hashOf: map<string, Digest>)
    returns (kids: seq<ChildRef>)
    requires DistinctEntries(entries) && j.entries == ByPathMap(entries) && TreeEntries(j.root, j.entries)
    requires ByPath(t) && t.Keys <= included && included <= j.entries.Keys && path in included
    requires hashOf.Keys == t.Keys && forall p | p in t :: hashOf[p] == t[p].hash
    ensures DistinctNames(kids)
    ensures forall r :: r in kids <==> r.name in KidNames(t, path) && r.hash == HashAt(t, JoinPath(path, r.name))
  {
    hide ByPathMap, TreeEntries, KidNames, LeafName, ParentForestPath, Proper, ByPath, KidSources, DistinctEntries, FoundIn;
    EntriesFacts(j, entries);
    kids := [];
    NoSources(t, path);
    assert forall p :: !FoundIn(entries[..0], p) by { NotFoundInNone(); assert entries[..0] == []; }
    ghost var src: seq<string> := [];
    for i := 0 to |entries|
      invariant KidSources(t, path, src, kids)
      invariant forall p | p in src :: FoundIn(entries[..i], p)
      invariant forall p | p in t && p != path && ParentForestPath(p) == path && FoundIn(entries[..i], p) :: p in src
    {
      var child := entries[i];
      FoundStep(entries, i);
      if child.path != path && ParentForestPath(child.path) == path && child.path in included && child.path in hashOf {
        AddSource(t, path, src, kids, child.path);
        kids := kids + [ChildRef(LeafName(child.path), hashOf[child.path])];
        src := src + [child.path];
      }
    }
    assert entries[..|entries|] == entries;
    forall p | p in t ensures FoundIn(entries, p) { EntryFound(j, entries, p); }
    SourcesAreKids(t, path, src, kids);
  }

  ghost predicate FoundIn(entries: seq<RawEntry>, p: string) { exists i :: 0 <= i < |entries| && entries[i].path == p }

  lemma EntryFound(j: Job, entries: seq<RawEntry>, p: string)
    requires DistinctEntries(entries) && j.entries == ByPathMap(entries) && p in j.entries
    ensures FoundIn(entries, p)
  {
    ByPathMapMember(entries);
  }

  lemma FoundStep(entries: seq<RawEntry>, i: nat)
    requires DistinctEntries(entries) && i < |entries|
    ensures !FoundIn(entries[..i], entries[i].path)
    ensures forall p :: FoundIn(entries[..i + 1], p) <==> FoundIn(entries[..i], p) || p == entries[i].path
  {
    var now, was := entries[..i + 1], entries[..i];
    assert now[i] == entries[i] && forall k | 0 <= k < i :: now[k] == was[k];
    forall p | FoundIn(was, p) ensures FoundIn(now, p) {
      var k :| 0 <= k < |was| && was[k].path == p;
      assert now[k].path == p;
    }
  }

  /** `kids` are the references of the distinct nodes `src`, all children of `path`. */
  ghost predicate KidSources(t: Tree, path: string, src: seq<string>, kids: seq<ChildRef>) {
    && |kids| == |src| && Distinct(src)
    && forall i | 0 <= i < |src| :: src[i] in t && src[i] != path && ParentForestPath(src[i]) == path
                                 && kids[i] == ChildRef(LeafName(src[i]), t[src[i]].hash)
  }

  lemma NotFoundInNone()
    ensures forall p :: !FoundIn([], p)
  {}

  lemma NoSources(t: Tree, path: string)
    ensures KidSources(t, path, [], [])
  {}

  lemma AddSource(t: Tree, path: string, src: seq<string>, kids: seq<ChildRef>, p: string)
    requires KidSources(t, path, src, kids) && p in t && p != path && ParentForestPath(p) == path && p !in src
    ensures KidSources(t, path, src + [p], kids + [ChildRef(LeafName(p), t[p].hash)])
  {
    hide LeafName, ParentForestPath;
  }

  lemma SourcesAreKids(t: Tree, path: string, src: seq<string>, kids: seq<ChildRef>)
    requires ByPath(t) && KidSources(t, path, src, kids)
    requires forall p | p in t && p != path && ParentForestPath(p) == path :: p in src
    ensures DistinctNames(kids)
    ensures forall r :: r in kids <==> r.name in KidNames(t, path) && r.hash == HashAt(t, JoinPath(path, r.name))
  {
    hide Proper;
    forall i | 0 <= i < |src| ensures JoinPath(path, kids[i].name) == src[i] { JoinOfParts(src[i]); }
    forall r: ChildRef | r.name in KidNames(t, path) && r.hash == HashAt(t, JoinPath(path, r.name)) ensures r in kids {
      var q :| q in t && t[q].parentPath == Some(path) && LeafName(q) == r.name;
      JoinOfParts(q);
      ProperNotRoot(q);
      assert q in src;
      var i :| 0 <= i < |src| && src[i] == q;
      assert kids[i] == r;
    }
  }

  function NamesOf(kids: seq<ChildRef>): (names: seq<string>)
    ensures |names| == |kids|
    ensures forall i | 0 <= i < |kids| :: names[i] == kids[i].name
  {
    seq(|kids|, i requires 0 <= i < |kids| => kids[i].name)
  }

  /** The gathered references give the hash and the child names of the specification. */
  lemma KidsFold(sha: Sha, t: Tree, path: string, kids: seq<ChildRef>)
    requires DistinctNames(kids)
    requires forall r :: r in kids <==> r.name in KidNames(t, path) && r.hash == HashAt(t, JoinPath(path, r.name))
    ensures FoldRefs(sha, kids) == FoldRefs(sha, KidRefs(t, path))
    ensures Sort(NameLe, NamesOf(kids)) == SortedNames(KidNames(t, path))
    ensures kids == [] <==> KidNames(t, path) == {}
  {
    KidRefsElements(t, path);
    hide KidRefs, KidNames, SortedNames, JoinPath, NodeBytes;
    NodeBytesPermutation(kids, KidRefs(t, path));
    var names := NamesOf(kids);
    forall n ensures n in names <==> n in KidNames(t, path) {
      if n in names { var i :| 0 <= i < |names| && names[i] == n; assert kids[i] in kids; }
      if n in KidNames(t, path) {
        var r := ChildRef(n, HashAt(t, JoinPath(path, n)));
        var i :| 0 <= i < |kids| && kids[i] == r;
        assert names[i] == n;
      }
    }
    SortedNamesUnique(KidNames(t, path), names);
    if kids != [] { assert kids[0] in kids; }
    if n :| n in KidNames(t, path) { assert ChildRef(n, HashAt(t, JoinPath(path, n))) in kids; }
  }

  /** One node of the fold pass. */
  method FoldEntry(sha: Sha, ghost t: Tree, j: Job, path: string, entries: seq<RawEntry>, included: set<string>, hashOf: map<string, Digest>)
    returns (n: StoredNode)
    requires DistinctEntries(entries) && j.entries == ByPathMap(entries) && TreeEntries(j.root, j.entries)
    requires ByPath(t) && t.Keys <= included && included <= j.entries.Keys && path in included
    requires hashOf.Keys == t.Keys && forall p | p in t :: hashOf[p] == t[p].hash
    ensures n == NodeFor(sha, j, t, path)
  {
    hide ByPathMap, KidNames, LeafName, ParentForestPath, Proper, SortedNames, KidRefs, FoldRefs;
    var e := j.entries[path];
    var hash: Digest, childNames: Option<seq<string>> := sha([]), None;
    if e.state == Unreadable {
      hash := UnreadableHash(sha);
      if e.kind == Dir { childNames := Some([]); BarrenHasNoKids(j, t, path); }
    } else if e.kind == File {
      hash := sha(FileBytes(j, path, e));
    } else {
      var kids := GatherKids(t, j, path, entries, included, hashOf);
      KidsFold(sha, t, path, kids);
      childNames := Some(Sort(NameLe, NamesOf(kids)));
      hash := if kids == [] then EmptyDirHash(sha) else FoldRefs(sha, kids);
    }
    EntryState(j, path);
    var state := if e.kind == Dir && e.state == Present && childNames.Some? && childNames.value == [] then EmptyDir else e.state;
    n := StoredNode(path, hash, state, e.mtime, Some(ParentForestPath(path)), childNames);
  }

  lemma EntryState(j: Job, p: string)
    requires TreeEntries(j.root, j.entries) && p in j.entries
    ensures j.entries[p].state == Present || j.entries[p].state == Unreadable
  {}

  /** Everything the fold pass relies on about its order. */
  ghost predicate FoldOrder(j: Job, ordered: seq<string>) {
    && SortedBy(DeeperFirst, ordered) && Distinct(ordered)
    && forall p :: p in ordered <==> p in Included(j)
  }

  ghost predicate GoodEntries(j: Job, entries: seq<RawEntry>) {
    DistinctEntries(entries) && j.entries == ByPathMap(entries) && TreeEntries(j.root, j.entries)
  }

  lemma PassStep(sha: Sha, j: Job, ordered: seq<string>, i: nat, t: Tree)
    requires TreeEntries(j.root, j.entries) && FoldOrder(j, ordered) && i < |ordered|
    requires Partial(sha, j, t) && forall p :: p in t <==> p in ordered[..i]
    ensures ordered[i] in Included(j) && ordered[i] in j.entries && ByPath(t) && t.Keys <= Included(j)
    ensures var u := t[ordered[i] := NodeFor(sha, j, t, ordered[i])];
            Partial(sha, j, u) && forall p :: p in u <==> p in ordered[..i + 1]
  {
    hide NodeFor, Included, TreeEntries, ByPath, DeeperFirst;
    IncludedAreEntries(j);
    assert ordered[i] in ordered;
    assert ordered[..i + 1] == ordered[..i] + [ordered[i]];
    forall p | p in ordered ensures p in j.entries {}
    DeepestSoFar(j, ordered, i, t);
    PartialGrows(sha, j, t, ordered[i]);
  }

  method FoldPass(sha: Sha, j: Job, entries: seq<RawEntry>, included: set<string>, ordered: seq<string>) returns (out: seq<StoredNode>)
    requires GoodEntries(j, entries) && FoldOrder(j, ordered) && included == Included(j)
    ensures Partial(sha, j, TreeOf(out)) && forall p :: p in TreeOf(out) <==> p in ordered
    ensures |out| == |ordered| && forall k | 0 <= k < |out| :: out[k].path == ordered[k]
  {
    hide ByPathMap, Included, TreeEntries, NodeFor, ByPath, FoldOrder, Partial, TreeOf, DistinctEntries;
    IncludedAreEntries(j);
    var hashOf: map<string, Digest> := map[];
    out := [];
    NothingFolded(sha, j);
    for i := 0 to |ordered|
      invariant Partial(sha, j, TreeOf(out))
      invariant |out| == i && forall k | 0 <= k < i :: out[k].path == ordered[k]
      invariant forall p :: p in TreeOf(out) <==> p in ordered[..i]
      invariant hashOf.Keys == TreeOf(out).Keys && forall p | p in TreeOf(out) :: hashOf[p] == TreeOf(out)[p].hash
    {
      ghost var t := TreeOf(out);
      PassStep(sha, j, ordered, i, t);
      var n := FoldEntry(sha, t, j, ordered[i], entries, included, hashOf);
      NodePath(sha, j, t, ordered[i]);
      TreeOfAppend(out, n);
      hashOf := hashOf[ordered[i] := n.hash];
      out := out + [n];
    }
    assert ordered[..|ordered|] == ordered;
  }

  /** `assembleSubtree`: membership, then a fold from the deepest paths up. */
  method AssembleSubtree(sha: Sha, j: Job, entries: seq<RawEntry>) returns (out: seq<StoredNode>)
    requires DistinctEntries(entries) && j.entries == ByPathMap(entries) && TreeEntries(j.root, j.entries)
    ensures IsAssembled(sha, j, TreeOf(out)) && DistinctNodes(out)
  {
    hide ByPathMap, Included, TreeEntries, NodeFor, ByPath, DeeperFirst, TreeOf, DistinctEntries;
    var included := IncludePaths(j, entries);
    var listed := ListSet(included);
    var ordered := Sort(DeeperFirst, listed);
    DeeperFirstSorts(listed);
    SameElements(ordered, listed);
    SortPreservesDistinct(DeeperFirst, listed);
    out := FoldPass(sha, j, entries, included, ordered);
  }

  lemma DeeperFirstSorts(s: seq<string>)
    ensures SortedBy(DeeperFirst, Sort(DeeperFirst, s))
  {
    SortSorted(DeeperFirst, s);
  }

  lemma NothingFolded(sha: Sha, j: Job)
    ensures Partial(sha, j, TreeOf([])) && TreeOf([]) == map[]
  {}

  lemma NodePath(sha: Sha, j: Job, t: Tree, p: string)
    requires p in j.entries
    ensures NodeFor(sha, j, t, p).path == p
  {}

  lemma DeepestSoFar(j: Job, ordered: seq<string>, i: nat, t: Tree)
    requires i < |ordered| && SortedBy(DeeperFirst, ordered) && Distinct(ordered)
    requires TreeEntries(j.root, j.entries) && forall p | p in ordered :: p in j.entries
    requires forall p :: p in t <==> p in ordered[..i]
    ensures ordered[i] !in t && NoneAbove(t, ordered[i]) && Proper(ordered[i])
  {
    var q := ordered[i];
    var p := ParentForestPath(q);
    assert q in ordered;
    assert forall x | x in ordered[..i] :: DeeperFirst(x, q);
    if p in ordered { ChildIsDeeper(p, q); }
  }

  /** End to end: two listings of the same enumeration give the same hashed tree. */
  lemma EnumerationOrderFree(
    sha: Sha, prefix: string, es: seq<EnumeratedEntry>, fs: seq<EnumeratedEntry>, m: EntryMap, n: EntryMap,
    level: Level, content: ContentHash, isConfig: string -> bool, t: Tree, u: Tree)
    requires IsSynthesis(prefix, es, m) && IsSynthesis(prefix, fs, n) && TreeEntries(prefix, m)
    requires Synthesis.PathsDistinct(prefix, es) && Synthesis.PathsDistinct(prefix, fs) && forall e :: e in es <==> e in fs
    requires IsAssembled(sha, Job(level, prefix, m, content, isConfig), t)
    requires IsAssembled(sha, Job(level, prefix, n, content, isConfig), u)
    ensures t == u
  {
    hide IsSynthesis, IsAssembled, TreeEntries, Synthesis.PathsDistinct;
    SynthesisOrderFree(prefix, es, fs, m, n);
    AssembledUnique(sha, Job(level, prefix, m, content, isConfig), t, u);
  }
}
