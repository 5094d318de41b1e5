/** Which backups to delete (src/backup/eviction.ts). An entry's time is what `Date` makes of its timestamp, if
    it makes anything of it. */
module Eviction {
  import opened Sorting
  import opened Options

  /** A file of the backup store: `<key>/<stamp>.gz` or `<key>/<stamp>.meta`. */
  datatype Extension = Gz | Meta
  datatype FileName = FileName(key: string, stamp: int, ext: Extension)

  datatype BackupEntry = BackupEntry(path: FileName, fileKey: string, timestamp: Option<int>, sizeBytes: nat)

  datatype EvictionPlan = EvictionPlan(toDelete: seq<BackupEntry>, toKeep: seq<BackupEntry>)

  /** The comparator of the sort: a difference of times. Without a time on either side it is not a number, which
      the sort takes for a tie. Among entries with and without a time its answers contradict each other and the
      order is the engine's; here those without come first. */
  predicate OlderFirst(a: BackupEntry, b: BackupEntry) {
    a.timestamp.None? || (b.timestamp.Some? && a.timestamp.value <= b.timestamp.value)
  }

  function Total(s: seq<BackupEntry>): nat { if s == [] then 0 else s[0].sizeBytes + Total(s[1..]) }

  /** The versions of one file, in order. */
  function Versions(s: seq<BackupEntry>, key: string): seq<BackupEntry> {
    if s == [] then [] else (if s[0].fileKey == key then [s[0]] else []) + Versions(s[1..], key)
  }

  /** Each entry stays while no more than `cap` versions of its file, itself included, follow. */
  function KeepNewest(s: seq<BackupEntry>, cap: int): seq<BackupEntry> {
    if s == [] then []
    else (if |Versions(s, s[0].fileKey)| <= cap then [s[0]] else []) + KeepNewest(s[1..], cap)
  }

  /** Drops from the front until the total fits. */
  function DropOldest(s: seq<BackupEntry>, cap: int): seq<BackupEntry> {
    if s == [] || Total(s) <= cap then s else DropOldest(s[1..], cap)
  }

  function Kept(entries: seq<BackupEntry>, perFileCap: int, globalCap: int): seq<BackupEntry> {
    DropOldest(KeepNewest(Sort(OlderFirst, entries), perFileCap), globalCap)
  }

  ghost predicate DistinctPaths(s: seq<BackupEntry>) { forall i, j | 0 <= i < j < |s| :: s[i].path != s[j].path }

  // ---- The plan, step by step ----

  lemma {:induction false} VersionsConcat(s: seq<BackupEntry>, t: seq<BackupEntry>, key: string)
    ensures Versions(s + t, key) == Versions(s, key) + Versions(t, key)
  {
    if s == [] {
      assert s + t == t;
    } else {
      assert (s + t)[0] == s[0] && (s + t)[1..] == s[1..] + t;
      VersionsConcat(s[1..], t, key);
      var head := if s[0].fileKey == key then [s[0]] else [];
      assert Versions(s + t, key) == head + Versions(s[1..] + t, key);
      assert head + (Versions(s[1..], key) + Versions(t, key)) == (head + Versions(s[1..], key)) + Versions(t, key);
    }
  }

  lemma VersionsAppend(s: seq<BackupEntry>, e: BackupEntry, key: string)
    ensures Versions(s + [e], key) == Versions(s, key) + if e.fileKey == key then [e] else []
  {
    VersionsConcat(s, [e], key);
    assert [e][1..] == [];
  }

  lemma VersionsMember(s: seq<BackupEntry>, key: string)
    ensures forall e :: e in Versions(s, key) <==> e in s && e.fileKey == key
  {}

  lemma {:induction false} VersionsDistinct(s: seq<BackupEntry>, key: string)
    requires DistinctPaths(s)
    ensures DistinctPaths(Versions(s, key))
  {
    if s != [] {
      VersionsDistinct(s[1..], key);
      VersionsMember(s[1..], key);
      assert forall e | e in s[1..] :: e.path != s[0].path;
    }
  }

  /** Groups by file, oldest first in each group, files in order of first appearance. */
  method GroupByFile(sorted: seq<BackupEntry>) returns (order: seq<string>, byFile: map<string, seq<BackupEntry>>)
    ensures forall k :: k in byFile <==> k in order
    ensures forall k | k in byFile :: byFile[k] == Versions(sorted, k)
    ensures forall k | k !in byFile :: Versions(sorted, k) == []
    ensures Distinct(order)
  {
    order, byFile := [], map[];
    assert sorted[..0] == [];
    for i := 0 to |sorted|
      invariant forall k :: k in byFile <==> k in order
      invariant forall k | k in byFile :: byFile[k] == Versions(sorted[..i], k)
      invariant forall k | k !in byFile :: Versions(sorted[..i], k) == []
      invariant Distinct(order)
    {
      var e := sorted[i];
      assert sorted[..i + 1] == sorted[..i] + [e];
      forall k { VersionsAppend(sorted[..i], e, k); }
      var list := if e.fileKey in byFile then byFile[e.fileKey] else [];
      if e.fileKey !in byFile { order := order + [e.fileKey]; }
      byFile := byFile[e.fileKey := list + [e]];
    }
    assert sorted[..|sorted|] == sorted;
  }

  /** The versions over the per-file cap. */
  function Excess(versions: seq<BackupEntry>, cap: int): (r: seq<BackupEntry>)
    requires cap >= 0
    ensures r <= versions
  {
    if |versions| - cap > 0 then versions[..|versions| - cap] else []
  }

  /** An entry is over its file's cap exactly when more than `cap` versions of its file start at it. */
  lemma ExcessIff(s: seq<BackupEntry>, i: nat, cap: int)
    requires DistinctPaths(s) && i < |s| && cap >= 0
    ensures s[i] in Excess(Versions(s, s[i].fileKey), cap) <==> |Versions(s[i..], s[i].fileKey)| > cap
  {
    var k := s[i].fileKey;
    var g := Versions(s, k);
    assert s == s[..i] + s[i..];
    VersionsConcat(s[..i], s[i..], k);
    var p := |Versions(s[..i], k)|;
    assert g[p] == s[i];
    VersionsDistinct(s, k);
    assert forall q | 0 <= q < |g| && g[q] == s[i] :: q == p;
  }

  /** The entries of `s` whose path is not among the deleted ones. */
  function Surviving(s: seq<BackupEntry>, gone: set<FileName>): seq<BackupEntry> {
    if s == [] then [] else (if s[0].path in gone then [] else [s[0]]) + Surviving(s[1..], gone)
  }

  method FilterDeleted(sorted: seq<BackupEntry>, gone: set<FileName>) returns (kept: seq<BackupEntry>)
    ensures kept == Surviving(sorted, gone)
  {
    kept := [];
    assert sorted[0..] == sorted;
    for i := 0 to |sorted|
      invariant kept + Surviving(sorted[i..], gone) == Surviving(sorted, gone)
    {
      assert sorted[i..][0] == sorted[i] && sorted[i..][1..] == sorted[i + 1..];
      ghost var rest := Surviving(sorted[i + 1..], gone);
      if sorted[i].path !in gone {
        assert kept + ([sorted[i]] + rest) == (kept + [sorted[i]]) + rest;
        kept := kept + [sorted[i]];
      } else {
        assert [] + rest == rest;
      }
    }
  }

  /** The deletions of the per-file pass. */
  ghost predicate IsExcess(sorted: seq<BackupEntry>, cap: int, toDelete: seq<BackupEntry>)
    requires cap >= 0
  {
    forall e :: e in toDelete <==> e in Excess(Versions(sorted, e.fileKey), cap)
  }

  /** The excess of the listed files only, without repetition. */
  ghost predicate IsExcessOf(sorted: seq<BackupEntry>, cap: int, keys: seq<string>, toDelete: seq<BackupEntry>)
    requires cap >= 0
  {
    && (forall e: BackupEntry :: e in toDelete <==> e.fileKey in keys && e in Excess(Versions(sorted, e.fileKey), cap))
    && Distinct(toDelete)
  }

  lemma ExcessStep(sorted: seq<BackupEntry>, cap: int, keys: seq<string>, k: string, toDelete: seq<BackupEntry>)
    requires DistinctPaths(sorted) && cap >= 0 && k !in keys && IsExcessOf(sorted, cap, keys, toDelete)
    ensures IsExcessOf(sorted, cap, keys + [k], toDelete + Excess(Versions(sorted, k), cap))
  {
    hide Versions;
    var more := Excess(Versions(sorted, k), cap);
    VersionsMember(sorted, k);
    VersionsDistinct(sorted, k);
    assert forall e | e in more :: e in Versions(sorted, k);
    assert forall e | e in toDelete :: e.fileKey != k;
    hide Excess, Versions;
    DistinctJoin(toDelete, more);
    forall e: BackupEntry ensures
      e in toDelete + more <==> e.fileKey in keys + [k] && e in Excess(Versions(sorted, e.fileKey), cap)
    {
      assert e in toDelete + more <==> e in toDelete || e in more;
    }
  }

  lemma DistinctJoin<T>(a: seq<T>, b: seq<T>)
    requires Distinct(a) && Distinct(b) && forall x | x in a :: x !in b
    ensures Distinct(a + b)
  {
    forall i, j | 0 <= i < j < |a + b| ensures (a + b)[i] != (a + b)[j] {
      if i < |a| <= j { assert a[i] in a && b[j - |a|] in b; }
    }
  }

  method CollectExcess(sorted: seq<BackupEntry>, cap: int) returns (toDelete: seq<BackupEntry>)
    requires DistinctPaths(sorted) && cap >= 0
    ensures IsExcess(sorted, cap, toDelete) && Distinct(toDelete)
  {
    hide Versions, Excess;
    var order, byFile := GroupByFile(sorted);
    toDelete := [];
    for i := 0 to |order|
      invariant IsExcessOf(sorted, cap, order[..i], toDelete)
    {
      var k := order[i];
      assert k in order && byFile[k] == Versions(sorted, k);
      assert order[..i + 1] == order[..i] + [k] && k !in order[..i];
      ExcessStep(sorted, cap, order[..i], k, toDelete);
      toDelete := toDelete + Excess(byFile[k], cap);
    }
    assert order[..|order|] == order;
    forall e: BackupEntry | e in Excess(Versions(sorted, e.fileKey), cap) ensures e.fileKey in order {
      assert e in Versions(sorted, e.fileKey);
    }
  }

  lemma {:induction false} SurvivingIsKeepNewest(s: seq<BackupEntry>, i: nat, cap: int, gone: set<FileName>)
    requires DistinctPaths(s) && i <= |s| && cap >= 0
    requires forall e | e in s :: e.path in gone <==> e in Excess(Versions(s, e.fileKey), cap)
    ensures Surviving(s[i..], gone) == KeepNewest(s[i..], cap)
    decreases |s| - i
  {
    if i < |s| {
      assert s[i..][0] == s[i] && s[i..][1..] == s[i + 1..];
      ExcessIff(s, i, cap);
      SurvivingIsKeepNewest(s, i + 1, cap, gone);
    }
  }

  lemma PathsTell(s: seq<BackupEntry>, cap: int, toDelete: seq<BackupEntry>)
    requires DistinctPaths(s) && cap >= 0 && IsExcess(s, cap, toDelete)
    ensures forall e: BackupEntry | e in s :: e.path in (set d: BackupEntry | d in toDelete :: d.path) <==> e in Excess(Versions(s, e.fileKey), cap)
  {
    forall e: BackupEntry | e in s && exists d: BackupEntry :: d in toDelete && d.path == e.path ensures e in toDelete {
      var d: BackupEntry :| d in toDelete && d.path == e.path;
      VersionsMember(s, d.fileKey);
      assert d in Versions(s, d.fileKey);
      assert d in s;
    }
  }

  method SumSizes(s: seq<BackupEntry>) returns (total: nat)
    ensures total == Total(s)
  {
    total := 0;
    assert s[0..] == s;
    for i := 0 to |s|
      invariant total + Total(s[i..]) == Total(s)
    {
      assert s[i..][1..] == s[i + 1..];
      total := total + s[i].sizeBytes;
    }
  }

  /** The global cap: oldest first until the total fits. */
  method TrimToCap(kept: seq<BackupEntry>, cap: int) returns (dropped: seq<BackupEntry>, toKeep: seq<BackupEntry>)
    ensures toKeep == DropOldest(kept, cap) && dropped + toKeep == kept
  {
    dropped, toKeep := [], kept;
    var total := SumSizes(kept);
    while total > cap && |toKeep| > 0
      invariant total == Total(toKeep) && dropped + toKeep == kept
      invariant DropOldest(toKeep, cap) == DropOldest(kept, cap)
      decreases |toKeep|
    {
      var evict := toKeep[0];
      dropped := dropped + [evict];
      toKeep := toKeep[1..];
      total := total - evict.sizeBytes;
    }
  }

  /** The plan keeps `Kept(...)`, partitions its input, and lists last, oldest first, what the global cap costs. */
  method PlanEviction(entries: seq<BackupEntry>, perFileCap: int, globalCap: int) returns (plan: EvictionPlan)
    requires DistinctPaths(entries) && perFileCap >= 0
    ensures plan.toKeep == Kept(entries, perFileCap, globalCap)
    ensures multiset(plan.toDelete) + multiset(plan.toKeep) == multiset(entries)
    ensures IsEvicted(entries, perFileCap, globalCap, plan.toDelete)
  {
    hide Versions, Excess, Surviving, KeepNewest, DropOldest, Total, Sort;
    var sorted := Sort(OlderFirst, entries);
    SortedPaths(entries);
    var toDelete := CollectExcess(sorted, perFileCap);
    var gone := set d: BackupEntry | d in toDelete :: d.path;
    var toKeep := FilterDeleted(sorted, gone);
    ghost var sofar := toKeep;
    SplitByExcess(sorted, perFileCap, toDelete);
    ghost var excess := toDelete;
    var dropped;
    dropped, toKeep := TrimToCap(toKeep, globalCap);
    toDelete := toDelete + dropped;
    assert multiset(sofar) == multiset(dropped) + multiset(toKeep);
    assert toDelete[..|excess|] == excess && toDelete[|excess|..] == dropped;
    plan := EvictionPlan(toDelete, toKeep);
  }

  /** What is deleted: first every version over its file's cap, then the oldest of the rest. */
  ghost predicate IsEvicted(entries: seq<BackupEntry>, perFileCap: int, globalCap: int, toDelete: seq<BackupEntry>)
    requires perFileCap >= 0
  {
    var sorted := Sort(OlderFirst, entries);
    exists n | 0 <= n <= |toDelete| ::
      IsExcess(sorted, perFileCap, toDelete[..n])
      && toDelete[n..] + Kept(entries, perFileCap, globalCap) == KeepNewest(sorted, perFileCap)
  }

  lemma SplitByExcess(sorted: seq<BackupEntry>, cap: int, toDelete: seq<BackupEntry>)
    requires DistinctPaths(sorted) && cap >= 0 && IsExcess(sorted, cap, toDelete) && Distinct(toDelete)
    ensures
      var kept := Surviving(sorted, set d: BackupEntry | d in toDelete :: d.path);
      kept == KeepNewest(sorted, cap) && multiset(toDelete) + multiset(kept) == multiset(sorted)
  {
    hide Versions, Surviving, KeepNewest, Excess;
    var gone := set d: BackupEntry | d in toDelete :: d.path;
    var kept := Surviving(sorted, gone);
    PathsTell(sorted, cap, toDelete);
    assert sorted[0..] == sorted;
    SurvivingIsKeepNewest(sorted, 0, cap, gone);
    SurvivingMember(sorted, gone);
    SurvivingDistinct(sorted, gone);
    ExcessMembers(sorted, cap);
    DistinctSplit(toDelete, kept, sorted);
  }

  lemma ExcessMembers(s: seq<BackupEntry>, cap: int)
    requires cap >= 0
    ensures forall e: BackupEntry | e in Excess(Versions(s, e.fileKey), cap) :: e in s
  {
    forall e: BackupEntry | e in Excess(Versions(s, e.fileKey), cap) ensures e in s {
      assert e in Versions(s, e.fileKey);
      VersionsMember(s, e.fileKey);
    }
  }

  lemma DistinctCount<T>(s: seq<T>, x: T)
    requires Distinct(s)
    ensures multiset(s)[x] == if x in s then 1 else 0
  {
    DistinctMultiset(s);
  }

  lemma DistinctSplit<T>(a: seq<T>, b: seq<T>, whole: seq<T>)
    requires Distinct(a) && Distinct(b) && Distinct(whole)
    requires forall x | x in whole :: x in a <==> x !in b
    requires (forall x | x in a :: x in whole) && forall x | x in b :: x in whole
    ensures multiset(a) + multiset(b) == multiset(whole)
  {
    hide Distinct;
    forall x ensures (multiset(a) + multiset(b))[x] == multiset(whole)[x] {
      DistinctCount(a, x);
      DistinctCount(b, x);
      DistinctCount(whole, x);
    }
  }

  lemma SortedPaths(entries: seq<BackupEntry>)
    requires DistinctPaths(entries)
    ensures DistinctPaths(Sort(OlderFirst, entries))
  {
    var s := Sort(OlderFirst, entries);
    SameElements(s, entries);
    SortPreservesDistinct(OlderFirst, entries);
    forall i, j | 0 <= i < j < |s| ensures s[i].path != s[j].path {
      assert s[i] in entries && s[j] in entries && s[i] != s[j];
    }
  }

  lemma SurvivingMember(s: seq<BackupEntry>, gone: set<FileName>)
    ensures forall e :: e in Surviving(s, gone) <==> e in s && e.path !in gone
  {}

  lemma SurvivingDistinct(s: seq<BackupEntry>, gone: set<FileName>)
    requires DistinctPaths(s)
    ensures DistinctPaths(Surviving(s, gone))
  {
    if s != [] {
      SurvivingDistinct(s[1..], gone);
      SurvivingMember(s[1..], gone);
    }
  }

  // ---- What the kept list is ----

  ghost predicate IsSuffix<T>(s: seq<T>, whole: seq<T>) {
    |s| <= |whole| && s == whole[|whole| - |s|..]
  }

  /** The newest `cap` of a list that runs from old to new. */
  function Newest(s: seq<BackupEntry>, cap: int): seq<BackupEntry>
    requires cap >= 0
  {
    if |s| <= cap then s else s[|s| - cap..]
  }

  /** The per-file pass leaves each file exactly its newest `cap` versions. */
  lemma {:induction false} KeepNewestPerFile(s: seq<BackupEntry>, cap: int, key: string)
    requires cap >= 0
    ensures Versions(KeepNewest(s, cap), key) == Newest(Versions(s, key), cap)
  {
    if s != [] {
      KeepNewestPerFile(s[1..], cap, key);
      KeepNewestHead(s, cap, key);
    }
  }

  lemma KeepNewestUnfold(s: seq<BackupEntry>, cap: int)
    requires s != []
    ensures KeepNewest(s, cap) == (if |Versions(s, s[0].fileKey)| <= cap then [s[0]] else []) + KeepNewest(s[1..], cap)
  {
    hide Versions;
  }

  lemma VersionsUnfold(s: seq<BackupEntry>, key: string)
    requires s != []
    ensures Versions(s, key) == (if s[0].fileKey == key then [s[0]] else []) + Versions(s[1..], key)
    ensures Versions([s[0]], key) == (if s[0].fileKey == key then [s[0]] else []) && Versions([], key) == []
  {
    assert [s[0]][1..] == [];
  }

  lemma KeepNewestHead(s: seq<BackupEntry>, cap: int, key: string)
    requires cap >= 0 && s != []
    requires Versions(KeepNewest(s[1..], cap), key) == Newest(Versions(s[1..], key), cap)
    ensures Versions(KeepNewest(s, cap), key) == Newest(Versions(s, key), cap)
  {
    hide Versions, KeepNewest;
    var k := s[0].fileKey;
    var head := if |Versions(s, k)| <= cap then [s[0]] else [];
    var rest := Versions(s[1..], key);
    KeepNewestUnfold(s, cap);
    VersionsConcat(head, KeepNewest(s[1..], cap), key);
    VersionsUnfold(s, key);
    if k == key {
      assert |Versions(s, key)| == 1 + |rest|;
      if |rest| >= cap { assert ([s[0]] + rest)[1 + |rest| - cap..] == rest[|rest| - cap..]; }
    } else {
      assert [] + rest == rest;
      assert [] + Newest(rest, cap) == Newest(rest, cap);
    }
  }

  /** The global pass keeps a newest suffix within the cap, and one entry more would not fit. */
  lemma {:induction false} DropOldestFits(s: seq<BackupEntry>, cap: int)
    requires cap >= 0
    ensures
      var r := DropOldest(s, cap);
      && IsSuffix(r, s)
      && Total(r) <= cap
      && (|r| < |s| ==> Total(s[|s| - |r| - 1..]) > cap)
  {
    hide *;
    DropOldestUnfold(s, cap);
    if s == [] || Total(s) <= cap {
      assert IsSuffix(s, s) by { SuffixOfItself(s); }
    } else {
      DropOldestFits(s[1..], cap);
      SuffixOfTail(DropOldest(s[1..], cap), s);
    }
  }

  lemma DropOldestUnfold(s: seq<BackupEntry>, cap: int)
    ensures DropOldest(s, cap) == if s == [] || Total(s) <= cap then s else DropOldest(s[1..], cap)
    ensures Total([]) == 0
  {
    hide Total;
    assert Total([]) == 0 by { TotalOfNone(); }
  }

  lemma TotalOfNone()
    ensures Total([]) == 0
  {}

  lemma SuffixOfItself(s: seq<BackupEntry>)
    ensures IsSuffix(s, s)
  {
    assert s[0..] == s;
  }

  lemma SuffixOfTail(r: seq<BackupEntry>, s: seq<BackupEntry>)
    requires s != [] && IsSuffix(r, s[1..])
    ensures IsSuffix(r, s) && |r| < |s|
    ensures if |r| < |s| - 1 then s[1..][|s[1..]| - |r| - 1..] == s[|s| - |r| - 1..] else s[|s| - |r| - 1..] == s
  {
    assert s[1..][|s[1..]| - |r|..] == s[|s| - |r|..];
    assert s[0..] == s;
  }

  lemma VersionsOfSuffix(s: seq<BackupEntry>, r: seq<BackupEntry>, key: string)
    requires IsSuffix(r, s)
    ensures IsSuffix(Versions(r, key), Versions(s, key))
  {
    var cut := |s| - |r|;
    assert s == s[..cut] + r;
    VersionsConcat(s[..cut], r, key);
  }

  /** Each file keeps a newest suffix of its versions, within the per-file cap. */
  lemma KeptPerFile(entries: seq<BackupEntry>, perFileCap: int, globalCap: int, key: string)
    requires perFileCap >= 0 && globalCap >= 0
    ensures
      var mine := Versions(Kept(entries, perFileCap, globalCap), key);
      |mine| <= perFileCap && IsSuffix(mine, Versions(Sort(OlderFirst, entries), key))
  {
    hide *;
    var sorted := Sort(OlderFirst, entries);
    var some := KeepNewest(sorted, perFileCap);
    KeptTotal(entries, perFileCap, globalCap);
    VersionsOfSuffix(some, Kept(entries, perFileCap, globalCap), key);
    KeepNewestPerFile(sorted, perFileCap, key);
    NewestSuffix(Versions(Kept(entries, perFileCap, globalCap), key), Versions(sorted, key), perFileCap);
  }

  lemma NewestSuffix(r: seq<BackupEntry>, s: seq<BackupEntry>, cap: int)
    requires cap >= 0 && IsSuffix(r, Newest(s, cap))
    ensures |r| <= cap && IsSuffix(r, s)
  {}

  /** The kept total is within the global cap, and putting the last victim of that cap back would exceed it. */
  lemma KeptTotal(entries: seq<BackupEntry>, perFileCap: int, globalCap: int)
    requires perFileCap >= 0 && globalCap >= 0
    ensures
      var some := KeepNewest(Sort(OlderFirst, entries), perFileCap);
      var kept := Kept(entries, perFileCap, globalCap);
      && Total(kept) <= globalCap
      && IsSuffix(kept, some)
      && (kept != some ==> Total([some[|some| - |kept| - 1]] + kept) > globalCap)
  {
    hide KeepNewest, Sort;
    var some := KeepNewest(Sort(OlderFirst, entries), perFileCap);
    var kept := Kept(entries, perFileCap, globalCap);
    DropOldestFits(some, globalCap);
    if |kept| < |some| {
      assert some[|some| - |kept| - 1..] == [some[|some| - |kept| - 1]] + kept;
    } else {
      assert some[0..] == some;
    }
  }

  // ---- Planning again deletes nothing ----

  lemma {:induction false} KeepNewestOrdered(s: seq<BackupEntry>, cap: int)
    requires SortedBy(OlderFirst, s)
    ensures SortedBy(OlderFirst, KeepNewest(s, cap)) && forall e | e in KeepNewest(s, cap) :: e in s
  {
    if s != [] {
      hide KeepNewest, Versions;
      KeepNewestOrdered(s[1..], cap);
      KeepNewestUnfold(s, cap);
      var rest := KeepNewest(s[1..], cap);
      forall i, j | 0 <= i < j < |[s[0]] + rest| ensures OlderFirst(([s[0]] + rest)[i], ([s[0]] + rest)[j]) {
        assert rest[j - 1] in rest && rest[j - 1] in s[1..];
      }
      assert [] + rest == rest;
    }
  }

  lemma {:induction false} SortOfSorted(s: seq<BackupEntry>)
    requires SortedBy(OlderFirst, s)
    ensures Sort(OlderFirst, s) == s
  {
    if s != [] {
      SortOfSorted(s[1..]);
      assert s == [s[0]] + s[1..];
      assert |s| > 1 ==> OlderFirst(s[0], s[1]);
    }
  }

  lemma {:induction false} KeepNewestNothingOver(s: seq<BackupEntry>, cap: int)
    requires forall key :: |Versions(s, key)| <= cap
    ensures KeepNewest(s, cap) == s
  {
    if s != [] {
      forall key ensures |Versions(s[1..], key)| <= cap {
        assert |Versions(s, key)| <= cap;
      }
      KeepNewestNothingOver(s[1..], cap);
      assert |Versions(s, s[0].fileKey)| <= cap;
      assert s == [s[0]] + s[1..];
    }
  }

  /** The plan is idempotent: everything kept once is kept again. */
  lemma KeptIsStable(entries: seq<BackupEntry>, perFileCap: int, globalCap: int)
    requires perFileCap >= 0 && globalCap >= 0
    ensures Kept(Kept(entries, perFileCap, globalCap), perFileCap, globalCap) == Kept(entries, perFileCap, globalCap)
  {
    hide Versions, KeepNewest, Sort, Total;
    var sorted := Sort(OlderFirst, entries);
    var kept := Kept(entries, perFileCap, globalCap);
    SortSorted(OlderFirst, entries);
    KeepNewestOrdered(sorted, perFileCap);
    KeptTotal(entries, perFileCap, globalCap);
    SortOfSorted(kept);
    forall key ensures |Versions(kept, key)| <= perFileCap { KeptPerFile(entries, perFileCap, globalCap, key); }
    KeepNewestNothingOver(kept, perFileCap);
  }

  /** Whether what a plan keeps is still over the global cap. */
  method IsOverCap(kept: seq<BackupEntry>, globalCap: int) returns (over: bool)
    ensures over <==> Total(kept) > globalCap
  {
    var total := SumSizes(kept);
    over := total > globalCap;
  }

  /** Planning the kept entries again: nothing to delete. */
  method ReplanKept(entries: seq<BackupEntry>, perFileCap: int, globalCap: int) returns (first: EvictionPlan, again: EvictionPlan)
    requires DistinctPaths(entries) && perFileCap >= 0 && globalCap >= 0
    ensures again.toDelete == [] && again.toKeep == first.toKeep == Kept(entries, perFileCap, globalCap)
  {
    hide Kept;
    first := PlanEviction(entries, perFileCap, globalCap);
    PartPaths(first.toDelete, first.toKeep, entries);
    again := PlanEviction(first.toKeep, perFileCap, globalCap);
    KeptIsStable(entries, perFileCap, globalCap);
    assert |multiset(again.toDelete)| + |multiset(again.toKeep)| == |multiset(first.toKeep)|;
  }

  lemma PartPaths(a: seq<BackupEntry>, b: seq<BackupEntry>, whole: seq<BackupEntry>)
    requires DistinctPaths(whole) && multiset(a) + multiset(b) == multiset(whole)
    ensures DistinctPaths(a + b) && DistinctPaths(b)
  {
    SameElements(a + b, whole);
    PermutationDistinct(a + b, whole);
    forall i, j | 0 <= i < j < |a + b| ensures (a + b)[i].path != (a + b)[j].path {
      assert (a + b)[i] in whole && (a + b)[j] in whole && (a + b)[i] != (a + b)[j];
    }
    forall i, j | 0 <= i < j < |b| ensures b[i].path != b[j].path {
      assert (a + b)[|a| + i] == b[i] && (a + b)[|a| + j] == b[j];
    }
  }

  // ---- Which entries survive ----

  lemma {:induction false} KeepNewestSuffix(s: seq<BackupEntry>, i: nat, cap: int)
    requires i <= |s|
    ensures IsSuffix(KeepNewest(s[i..], cap), KeepNewest(s, cap))
  {
    if i == 0 {
      assert s[0..] == s;
      SuffixOfItself(KeepNewest(s, cap));
    } else {
      assert s[i..] == s[1..][i - 1..];
      KeepNewestSuffix(s[1..], i - 1, cap);
      KeepNewestUnfold(s, cap);
      var r, rest := KeepNewest(s[i..], cap), KeepNewest(s[1..], cap);
      var head := if |Versions(s, s[0].fileKey)| <= cap then [s[0]] else [];
      hide *;
      SuffixOfJoin(r, head, rest);
    }
  }

  lemma SuffixOfJoin<T>(r: seq<T>, head: seq<T>, rest: seq<T>)
    requires IsSuffix(r, rest)
    ensures IsSuffix(r, head + rest)
  {
    assert (head + rest)[|head + rest| - |r|..] == rest[|rest| - |r|..];
  }

  lemma {:induction false} KeepNewestMembers(s: seq<BackupEntry>, cap: int)
    requires DistinctPaths(s)
    ensures DistinctPaths(KeepNewest(s, cap)) && forall e | e in KeepNewest(s, cap) :: e in s
  {
    if s != [] {
      KeepNewestMembers(s[1..], cap);
      KeepNewestUnfold(s, cap);
      hide KeepNewest, Versions;
      assert forall e | e in s[1..] :: e.path != s[0].path;
    }
  }

  lemma {:induction false} TotalOfSuffix(s: seq<BackupEntry>, i: nat)
    requires i <= |s|
    ensures Total(s[i..]) <= Total(s)
  {
    if i == 0 {
      assert s[0..] == s;
    } else {
      assert s[i..] == s[1..][i - 1..];
      TotalOfSuffix(s[1..], i - 1);
    }
  }

  /** An entry outlives the global cap exactly when it and everything after it fit. */
  lemma {:induction false} OutlivesCap(k: seq<BackupEntry>, j: nat, cap: int)
    requires DistinctPaths(k) && j < |k| && cap >= 0
    ensures k[j] in DropOldest(k, cap) <==> Total(k[j..]) <= cap
  {
    DropOldestUnfold(k, cap);
    hide Total, DropOldest;
    if Total(k) <= cap {
      TotalOfSuffix(k, j);
    } else if j == 0 {
      DropOldestFits(k[1..], cap);
      assert k[0..] == k;
      forall e | e in DropOldest(k[1..], cap) ensures e != k[0] { SuffixMember(DropOldest(k[1..], cap), k[1..], e); }
    } else {
      assert k[1..][j - 1] == k[j] && k[1..][j - 1..] == k[j..];
      OutlivesCap(k[1..], j - 1, cap);
    }
  }

  lemma SuffixMember<T>(r: seq<T>, s: seq<T>, e: T)
    requires IsSuffix(r, s) && e in r
    ensures e in s
  {}

  /** With the entries in order, one is kept exactly when fewer than the per-file cap of its file come after it
      and it fits into the global cap together with what the per-file pass keeps after it. */
  lemma SurvivesIff(entries: seq<BackupEntry>, perFileCap: int, globalCap: int, i: nat)
    requires DistinctPaths(entries) && perFileCap >= 0 && globalCap >= 0 && i < |entries|
    ensures
      var s := Sort(OlderFirst, entries);
      s[i] in Kept(entries, perFileCap, globalCap) <==>
        |Versions(s[i + 1..], s[i].fileKey)| < perFileCap && Total(KeepNewest(s[i..], perFileCap)) <= globalCap
  {
    var s := Sort(OlderFirst, entries);
    SortedPaths(entries);
    SameElements(s, entries);
    SameLength(s, entries);
    SurvivesInOrder(s, perFileCap, globalCap, i);
  }

  lemma SuffixAt<T>(r: seq<T>, k: seq<T>)
    requires IsSuffix(r, k) && r != []
    ensures |r| <= |k| && k[|k| - |r|..] == r && k[|k| - |r|] == r[0]
  {}

  lemma HeadCounts(s: seq<BackupEntry>, i: nat, cap: int)
    requires i < |s|
    ensures |Versions(s[i..], s[i].fileKey)| == |Versions(s[i + 1..], s[i].fileKey)| + 1
    ensures |Versions(s[i..], s[i].fileKey)| <= cap ==> KeepNewest(s[i..], cap) != [] && KeepNewest(s[i..], cap)[0] == s[i]
  {
    hide Versions, KeepNewest;
    assert s[i..][0] == s[i] && s[i..][1..] == s[i + 1..];
    VersionsUnfold(s[i..], s[i].fileKey);
    KeepNewestUnfold(s[i..], cap);
  }

  lemma SurvivesInOrder(s: seq<BackupEntry>, perFileCap: int, globalCap: int, i: nat)
    requires DistinctPaths(s) && perFileCap >= 0 && globalCap >= 0 && i < |s|
    ensures s[i] in DropOldest(KeepNewest(s, perFileCap), globalCap) <==>
      |Versions(s[i + 1..], s[i].fileKey)| < perFileCap && Total(KeepNewest(s[i..], perFileCap)) <= globalCap
  {
    hide *;
    var k, r := KeepNewest(s, perFileCap), KeepNewest(s[i..], perFileCap);
    HeadCounts(s, i, perFileCap);
    KeepNewestMembers(s, perFileCap);
    if |Versions(s[i + 1..], s[i].fileKey)| < perFileCap {
      KeepNewestSuffix(s, i, perFileCap);
      SuffixAt(r, k);
      OutlivesCap(k, |k| - |r|, globalCap);
    } else {
      OverFileCap(s, i, perFileCap);
      DropOldestFits(k, globalCap);
      if s[i] in DropOldest(k, globalCap) { SuffixMember(DropOldest(k, globalCap), k, s[i]); }
    }
  }

  /** An entry over its file's cap is not kept by the per-file pass. */
  lemma {:induction false} OverFileCap(s: seq<BackupEntry>, i: nat, cap: int)
    requires DistinctPaths(s) && i < |s| && |Versions(s[i..], s[i].fileKey)| > cap
    ensures s[i] !in KeepNewest(s, cap)
  {
    KeepNewestUnfold(s, cap);
    hide KeepNewest, Versions;
    if i == 0 {
      assert s[0..] == s;
      KeepNewestMembers(s[1..], cap);
    } else {
      assert s[1..][i - 1] == s[i] && s[1..][i - 1..] == s[i..];
      OverFileCap(s[1..], i - 1, cap);
    }
  }

  // ---- Is it the oldest that go? ----

  /** No version of a file is deleted while an older one of that file stays, going by `age`. */
  ghost predicate SparesNewer(entries: seq<BackupEntry>, cap: int, age: BackupEntry -> int)
    requires cap >= 0
  {
    var kept := KeepNewest(Sort(OlderFirst, entries), cap);
    forall e, d | e in kept && d in entries && d !in kept && d.fileKey == e.fileKey :: age(d) <= age(e)
  }

  lemma KeptOfFile(entries: seq<BackupEntry>, cap: int, e: BackupEntry)
    requires cap >= 0
    ensures var s := Sort(OlderFirst, entries);
            e in KeepNewest(s, cap) <==> e in Newest(Versions(s, e.fileKey), cap)
    ensures e in Versions(Sort(OlderFirst, entries), e.fileKey) <==> e in entries
  {
    hide Versions, KeepNewest, Sort, Newest;
    var s := Sort(OlderFirst, entries);
    SameElements(s, entries);
    KeepNewestPerFile(s, cap, e.fileKey);
    VersionsMember(KeepNewest(s, cap), e.fileKey);
    VersionsMember(s, e.fileKey);
  }

  ghost predicate Rising(s: seq<BackupEntry>, age: BackupEntry -> int) {
    forall i, j | 0 <= i < j < |s| :: age(s[i]) <= age(s[j])
  }

  /** Under every per-file cap the oldest go first. */
  ghost predicate AlwaysSparesNewer(entries: seq<BackupEntry>, age: BackupEntry -> int) {
    forall cap: nat :: SparesNewer(entries, cap, age)
  }

  /** The list has each file's versions by age. */
  ghost predicate FilesRise(s: seq<BackupEntry>, age: BackupEntry -> int) { forall key :: Rising(Versions(s, key), age) }

  /** The oldest versions of a file go first, whatever the cap, exactly when the plan works in that order. */
  lemma SparesNewerIff(entries: seq<BackupEntry>, age: BackupEntry -> int)
    requires DistinctPaths(entries)
    ensures AlwaysSparesNewer(entries, age) <==> FilesRise(Sort(OlderFirst, entries), age)
  {
    hide Versions, KeepNewest, Sort, SparesNewer, Rising;
    if FilesRise(Sort(OlderFirst, entries), age) {
      forall cap: nat ensures SparesNewer(entries, cap, age) { RisingSpares(entries, cap, age); }
    }
    if AlwaysSparesNewer(entries, age) {
      forall key ensures Rising(Versions(Sort(OlderFirst, entries), key), age) { SparingRises(entries, key, age); }
    }
  }

  lemma NewestHas(v: seq<BackupEntry>, cap: int, i: nat)
    requires cap >= 0 && i < |v| && i >= |v| - cap
    ensures v[i] in Newest(v, cap)
  {
    assert |v| > cap ==> v[i] == v[|v| - cap..][i - (|v| - cap)];
  }

  lemma NotNewest(v: seq<BackupEntry>, cap: int, i: nat)
    requires cap >= 0 && i < |v| && v[i] !in Newest(v, cap)
    ensures i < |v| - cap
  {
    hide Newest;
    if i >= |v| - cap { NewestHas(v, cap, i); }
  }

  lemma RisingSpares(entries: seq<BackupEntry>, cap: int, age: BackupEntry -> int)
    requires cap >= 0 && FilesRise(Sort(OlderFirst, entries), age)
    ensures SparesNewer(entries, cap, age)
  {
    hide Versions, KeepNewest, Sort;
    var s := Sort(OlderFirst, entries);
    var kept := KeepNewest(s, cap);
    forall e, d | e in kept && d in entries && d !in kept && d.fileKey == e.fileKey ensures age(d) <= age(e) {
      KeptOfFile(entries, cap, e);
      KeptOfFile(entries, cap, d);
      var v := Versions(s, e.fileKey);
      assert Rising(v, age);
      var i :| 0 <= i < |v| && v[i] == d;
      var cut := if |v| <= cap then 0 else |v| - cap;
      var j :| cut <= j < |v| && v[j] == e;
      NotNewest(v, cap, i);
    }
  }

  lemma SparingRises(entries: seq<BackupEntry>, key: string, age: BackupEntry -> int)
    requires DistinctPaths(entries) && AlwaysSparesNewer(entries, age)
    ensures Rising(Versions(Sort(OlderFirst, entries), key), age)
  {
    hide Versions, KeepNewest, Sort;
    var s := Sort(OlderFirst, entries);
    var v := Versions(s, key);
    SortedPaths(entries);
    SameElements(s, entries);
    VersionsDistinct(s, key);
    VersionsMember(s, key);
    forall i, j | 0 <= i < j < |v| ensures age(v[i]) <= age(v[j]) {
      var cap := |v| - i - 1;
      assert SparesNewer(entries, cap, age);
      assert v[i] in v && v[j] in v;
      KeptOfFile(entries, cap, v[i]);
      KeptOfFile(entries, cap, v[j]);
      assert Newest(v, cap)[j - i - 1] == v[j];
      assert v[i] !in Newest(v, cap);
    }
  }

  function TimeOf(e: BackupEntry): int { if e.timestamp.Some? then e.timestamp.value else 0 }

  /** Entries with times: the oldest go first. */
  lemma TimedSparesNewer(entries: seq<BackupEntry>, cap: int)
    requires cap >= 0 && forall e: BackupEntry | e in entries :: e.timestamp.Some?
    ensures SparesNewer(entries, cap, TimeOf)
  {
    hide KeepNewest, Sort;
    var s := Sort(OlderFirst, entries);
    SortSorted(OlderFirst, entries);
    SameElements(s, entries);
    forall key ensures Rising(Versions(s, key), TimeOf) { VersionsRise(s, key); }
    RisingSpares(entries, cap, TimeOf);
  }

  lemma {:induction false} VersionsRise(s: seq<BackupEntry>, key: string)
    requires SortedBy(OlderFirst, s) && forall e: BackupEntry | e in s :: e.timestamp.Some?
    ensures Rising(Versions(s, key), TimeOf)
  {
    if s != [] {
      VersionsRise(s[1..], key);
      VersionsMember(s[1..], key);
      var rest := Versions(s[1..], key);
      forall j | 0 <= j < |rest| ensures TimeOf(s[0]) <= TimeOf(rest[j]) {
        assert rest[j] in s[1..];
        var i :| 0 <= i < |s[1..]| && s[1..][i] == rest[j];
        assert OlderFirst(s[0], s[i + 1]);
      }
    }
  }

  /** Entries without times stay in the order they were listed in, whatever their age. */
  lemma UntimedKeepOrder(entries: seq<BackupEntry>)
    requires forall e: BackupEntry | e in entries :: e.timestamp.None?
    ensures Sort(OlderFirst, entries) == entries
  {
    forall i, j | 0 <= i < j < |entries| ensures OlderFirst(entries[i], entries[j]) { assert entries[i] in entries; }
    SortOfSorted(entries);
  }

  /** So among entries without times the oldest of every file go first, whatever the cap, exactly when each file's
      entries are listed oldest first. */
  lemma UntimedSparesIff(entries: seq<BackupEntry>, age: BackupEntry -> int)
    requires DistinctPaths(entries) && forall e: BackupEntry | e in entries :: e.timestamp.None?
    ensures AlwaysSparesNewer(entries, age) <==> FilesRise(entries, age)
  {
    hide AlwaysSparesNewer, FilesRise, Sort;
    UntimedKeepOrder(entries);
    SparesNewerIff(entries, age);
  }

  function StampOf(e: BackupEntry): int { e.path.stamp }

  lemma PairKept(first: BackupEntry, second: BackupEntry, globalCap: int)
    requires first.fileKey == second.fileKey && second.sizeBytes <= globalCap
    ensures KeepNewest([first, second], 1) == [second] && DropOldest([second], globalCap) == [second]
  {
    var key := first.fileKey;
    assert [first, second][1..] == [second] && [second][1..] == [];
    assert Versions([second], key) == [second] && Versions([first, second], key) == [first, second];
    assert KeepNewest([], 1) == [] && Total([]) == 0;
  }

  lemma PairDropsNewer(newer: BackupEntry, older: BackupEntry, globalCap: int, age: BackupEntry -> int)
    requires newer.timestamp.None? && older.timestamp.None? && newer.fileKey == older.fileKey && age(older) < age(newer)
    requires older.sizeBytes <= globalCap
    ensures Kept([newer, older], 1, globalCap) == [older] && !SparesNewer([newer, older], 1, age)
  {
    hide KeepNewest, DropOldest, Sort;
    UntimedKeepOrder([newer, older]);
    PairKept(newer, older, globalCap);
    assert newer in [newer, older] && older in [older];
  }

  /** Two untimed versions listed newest first, a cap of one: the newer one is deleted. */
  lemma UntimedExample()
    ensures
      var newer := BackupEntry(FileName("k", 2, Gz), "k", None, 1);
      var older := BackupEntry(FileName("k", 1, Gz), "k", None, 1);
      Kept([newer, older], 1, 100) == [older] && !SparesNewer([newer, older], 1, StampOf)
  {
    hide Kept, SparesNewer;
    PairDropsNewer(BackupEntry(FileName("k", 2, Gz), "k", None, 1), BackupEntry(FileName("k", 1, Gz), "k", None, 1), 100, StampOf);
  }
}
