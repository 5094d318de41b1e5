/** From an enumeration to a connected tree of entries (src/integrity/forestShape.ts, synthesizeEntries). */
module Synthesis {
  import opened ForestPaths
  import opened Options
  import opened MerkleTrees

  datatype EntryKind = File | Dir

  datatype EnumeratedEntry = EnumeratedEntry(nodePath: string, kind: EntryKind, mtime: Option<int>, unreadable: bool)

  datatype RawEntry = RawEntry(path: string, kind: EntryKind, mtime: Option<int>, state: NodeState)

  type EntryMap = map<string, RawEntry>

  function ToForestPath(prefix: string, nodePath: string): string {
    if nodePath == "/" then prefix else prefix + nodePath
  }

  function ToNodePath(prefix: string, forestPath: string): string
    requires |prefix| <= |forestPath|
  {
    if forestPath == prefix then "/" else forestPath[|prefix|..]
  }

  /** Node paths are absolute. */
  predicate Absolute(nodePath: string) { nodePath != "" && nodePath[0] == '/' }

  predicate AllAbsolute(es: seq<EnumeratedEntry>) { forall e | e in es :: Absolute(e.nodePath) }

  function FilledDir(p: string): RawEntry { RawEntry(p, Dir, None, Present) }

  function EntryAt(prefix: string, e: EnumeratedEntry): RawEntry {
    RawEntry(ToForestPath(prefix, e.nodePath), e.kind, e.mtime, if e.unreadable then Unreadable else Present)
  }

  function ForestPathOf(prefix: string, e: EnumeratedEntry): string { ToForestPath(prefix, e.nodePath) }

  /** `q` is on the way from `prefix` to `p`, both included. */
  predicate Between(prefix: string, q: string, p: string) { AtOrBelow(prefix, q) && AtOrBelow(q, p) }

  /** The last enumerated entry at `q`, or a filled-in directory. */
  function EntryFor(prefix: string, es: seq<EnumeratedEntry>, q: string): RawEntry {
    if es == [] then FilledDir(q)
    else if ForestPathOf(prefix, es[|es| - 1]) == q then EntryAt(prefix, es[|es| - 1])
    else EntryFor(prefix, es[..|es| - 1], q)
  }

  /** `es[i]` is the last enumerated entry at its path. */
  predicate IsLast(prefix: string, es: seq<EnumeratedEntry>, i: nat) {
    i < |es| && forall k | i < k < |es| :: ForestPathOf(prefix, es[k]) != ForestPathOf(prefix, es[i])
  }

  /** The last entry at a path gives its kind, its time and whether it can be read. */
  lemma {:induction false} LastEntryCounts(prefix: string, es: seq<EnumeratedEntry>, i: nat)
    requires IsLast(prefix, es, i)
    ensures EntryFor(prefix, es, ForestPathOf(prefix, es[i]))
         == RawEntry(ForestPathOf(prefix, es[i]), es[i].kind, es[i].mtime, if es[i].unreadable then Unreadable else Present)
  {
    if i < |es| - 1 {
      assert es[..|es| - 1][i] == es[i];
      LastEntryCounts(prefix, es[..|es| - 1], i);
    }
  }

  lemma {:induction false} LastEntryExists(prefix: string, es: seq<EnumeratedEntry>, e: EnumeratedEntry)
    requires e in es
    ensures exists i: nat :: IsLast(prefix, es, i) && ForestPathOf(prefix, es[i]) == ForestPathOf(prefix, e)
  {
    var n := |es| - 1;
    if ForestPathOf(prefix, es[n]) == ForestPathOf(prefix, e) {
      assert IsLast(prefix, es, n);
    } else {
      LastEntryExists(prefix, es[..n], e);
      var i: nat :| IsLast(prefix, es[..n], i) && ForestPathOf(prefix, es[..n][i]) == ForestPathOf(prefix, e);
      assert IsLast(prefix, es, i);
    }
  }

  /** A path with no entry is filled in as a directory. */
  lemma {:induction false} NoEntryIsDirectory(prefix: string, es: seq<EnumeratedEntry>, q: string)
    requires forall e | e in es :: ForestPathOf(prefix, e) != q
    ensures EntryFor(prefix, es, q) == RawEntry(q, Dir, None, Present)
  {
    if es != [] { NoEntryIsDirectory(prefix, es[..|es| - 1], q); }
  }

  /** Forest paths put the prefix before the node's own path, whose root is the prefix itself, and back. */
  lemma PathsRoundTrip(prefix: string, nodePath: string)
    requires Absolute(nodePath)
    ensures |prefix| <= |ToForestPath(prefix, nodePath)| && ToNodePath(prefix, ToForestPath(prefix, nodePath)) == nodePath
    ensures nodePath == "/" ==> ToForestPath(prefix, nodePath) == prefix
    ensures nodePath != "/" ==> ToForestPath(prefix, nodePath) == prefix + nodePath
  {}

  /** `m` holds the prefix, every enumerated path and exactly the directories between them. */
  ghost predicate IsSynthesis(prefix: string, es: seq<EnumeratedEntry>, m: EntryMap) {
    && (forall q :: q in m <==> q == prefix || exists e | e in es :: Between(prefix, q, ForestPathOf(prefix, e)))
    && (forall q | q in m :: m[q] == EntryFor(prefix, es, q))
  }

  lemma ForestPathBelow(prefix: string, x: string)
    requires prefix != "" && (x == "" || x[0] == '/')
    ensures AtOrBelow(prefix, prefix + x)
    decreases |x|
  {
    var p := prefix + x;
    if x == "" {
      assert p == prefix;
    } else {
      var i := LastSlash(p);
      assert p[|prefix|] == '/';
      assert i >= |prefix|;
      assert p[..i] == prefix + x[..i - |prefix|];
      ForestPathBelow(prefix, x[..i - |prefix|]);
    }
  }

  lemma EntryBelowPrefix(prefix: string, e: EnumeratedEntry)
    requires prefix != "" && Absolute(e.nodePath)
    ensures AtOrBelow(prefix, ForestPathOf(prefix, e))
  {
    if e.nodePath != "/" { ForestPathBelow(prefix, e.nodePath); } else { assert AtOrBelow(prefix, prefix); }
  }

  /** `m` is `start` with a directory at each path longer than `k` on the way to `fp`. */
  ghost predicate FilledTo(m: EntryMap, start: EntryMap, prefix: string, fp: string, k: nat) {
    && (forall q :: q in m <==> q in start || (Between(prefix, q, fp) && |q| > k))
    && (forall q | q in m :: m[q] == if q in start then start[q] else FilledDir(q))
  }

  lemma FilledStart(prefix: string, start: EntryMap, fp: string)
    requires prefix != "" && fp in start && AtOrBelow(prefix, fp) && fp != prefix
    ensures FilledTo(start, start, prefix, fp, |ParentForestPath(fp)|)
    ensures Between(prefix, ParentForestPath(fp), fp) && |ParentForestPath(fp)| < |fp|
  {
    AboveStep(prefix, fp, fp);
    forall q | Between(prefix, q, fp) && |q| > |ParentForestPath(fp)| ensures q == fp { AtOrBelowLength(q, fp); }
  }

  lemma FilledStep(m: EntryMap, start: EntryMap, prefix: string, p: string, fp: string)
    requires prefix != "" && FilledTo(m, start, prefix, fp, |p|) && Between(prefix, p, fp) && p != prefix && p !in m
    ensures FilledTo(m[p := FilledDir(p)], start, prefix, fp, |ParentForestPath(p)|)
    ensures Between(prefix, ParentForestPath(p), fp) && |ParentForestPath(p)| < |p|
  {
    AboveStep(prefix, p, fp);
    FillStep(prefix, p, fp);
    hide AtOrBelow, ParentForestPath;
  }

  /** Fills the ancestors of `fp` up to the first one present. The prefix is always present, so the walk
      never steps over it. */
  method FillAncestors(prefix: string, start: EntryMap, fp: string) returns (m: EntryMap)
    requires prefix in start && prefix != "" && fp in start && AtOrBelow(prefix, fp)
    requires forall q | q in start && q != fp && q != prefix :: q != "" && ParentForestPath(q) in start
    ensures forall q :: q in m <==> q in start || Between(prefix, q, fp)
    ensures forall q | q in m :: m[q] == if q in start then start[q] else FilledDir(q)
  {
    m := start;
    if fp == prefix {
      PrefixOnly(prefix);
      return;
    }
    FilledStart(prefix, start, fp);
    hide AtOrBelow, ParentForestPath;
    var p := ParentForestPath(fp);
    while p != "" && |p| >= |prefix| && p !in m
      invariant Between(prefix, p, fp) && |p| < |fp| && FilledTo(m, start, prefix, fp, |p|)
      decreases |p|
    {
      FilledStep(m, start, prefix, p, fp);
      m := m[p := FilledDir(p)];
      p := ParentForestPath(p);
    }
    AtOrBelowLength(prefix, p);
    forall q | Between(prefix, q, fp) ensures q in m { FilledAll(prefix, start, p, fp, q); }
  }

  lemma PrefixOnly(prefix: string)
    ensures forall q :: Between(prefix, q, prefix) ==> q == prefix
  {
    forall q | Between(prefix, q, prefix) ensures q == prefix { AtOrBelowLength(prefix, q); AtOrBelowLength(q, prefix); }
  }

  /** One step up from a path below the prefix stays below the prefix. */
  lemma AboveStep(prefix: string, p: string, fp: string)
    requires prefix != "" && Between(prefix, p, fp) && p != prefix
    ensures p != "" && Between(prefix, ParentForestPath(p), fp) && |ParentForestPath(p)| < |p|
    ensures forall q | Between(prefix, q, fp) && |q| > |ParentForestPath(p)| :: |q| >= |p|
  {
    AtOrBelowLength(prefix, p);
    assert AtOrBelow(ParentForestPath(p), ParentForestPath(p)) && AtOrBelow(ParentForestPath(p), p);
    AtOrBelowTransitive(ParentForestPath(p), p, fp);
    forall q | Between(prefix, q, fp) && |q| > |ParentForestPath(p)| ensures |q| >= |p| {
      if |q| < |p| {
        AncestorsChain(q, p, fp);
        AtOrBelowLength(q, ParentForestPath(p));
      }
    }
  }

  /** Paths of one chain with equal lengths are equal. */
  lemma FillStep(prefix: string, p: string, fp: string)
    requires Between(prefix, p, fp)
    ensures forall q :: Between(prefix, q, fp) && |q| >= |p| <==> (Between(prefix, q, fp) && |q| > |p|) || q == p
  {
    forall q | Between(prefix, q, fp) && |q| == |p| ensures q == p {
      AncestorsChain(q, p, fp);
      AtOrBelowLength(q, p);
    }
  }

  lemma ClosedAbove(prefix: string, start: EntryMap, p: string, q: string)
    requires forall x | x in start && x != prefix && |x| <= |p| :: x != "" && ParentForestPath(x) in start
    requires p in start && Between(prefix, q, p)
    ensures q in start
    decreases |p|
  {
    if q != p {
      AtOrBelowLength(prefix, q);
      AtOrBelowLength(q, p);
      ClosedAbove(prefix, start, ParentForestPath(p), q);
    }
  }

  lemma FilledAll(prefix: string, start: EntryMap, p: string, fp: string, q: string)
    requires prefix in start && p in start && p != fp && Between(prefix, p, fp) && Between(prefix, q, fp)
    requires forall x | x in start && x != fp && x != prefix :: x != "" && ParentForestPath(x) in start
    ensures q in start || |q| > |p|
  {
    if |q| <= |p| {
      AncestorsChain(q, p, fp);
      AtOrBelowLength(p, fp);
      ClosedAbove(prefix, start, p, q);
    }
  }

  method SynthesizeEntries(prefix: string, enumerated: seq<EnumeratedEntry>) returns (m: EntryMap)
    requires prefix != "" && AllAbsolute(enumerated)
    ensures IsSynthesis(prefix, enumerated, m)
  {
    m := map[prefix := FilledDir(prefix)];
    assert enumerated[..0] == [];
    for i := 0 to |enumerated|
      invariant IsSynthesis(prefix, enumerated[..i], m)
    {
      var e := enumerated[i];
      assert e in enumerated;
      EntryBelowPrefix(prefix, e);
      var fp := ToForestPath(prefix, e.nodePath);
      ghost var before := m;
      SynthesisClosed(prefix, enumerated[..i], m);
      m := m[fp := EntryAt(prefix, e)];
      var filled := FillAncestors(prefix, m, fp);
      SynthesisStep(prefix, enumerated, i, before, m, filled);
      m := filled;
    }
    assert enumerated[..|enumerated|] == enumerated;
  }

  lemma SynthesisClosed(prefix: string, es: seq<EnumeratedEntry>, m: EntryMap)
    requires prefix != "" && IsSynthesis(prefix, es, m)
    ensures forall q | q in m && q != prefix :: q != "" && ParentForestPath(q) in m
  {
    hide EntryFor, ForestPathOf;
    forall q | q in m && q != prefix ensures q != "" && ParentForestPath(q) in m {
      var e :| e in es && Between(prefix, q, ForestPathOf(prefix, e));
      AboveStep(prefix, q, ForestPathOf(prefix, e));
    }
  }

  lemma EntryPathPresent(prefix: string, es: seq<EnumeratedEntry>, m: EntryMap, e: EnumeratedEntry)
    requires prefix != "" && AllAbsolute(es) && IsSynthesis(prefix, es, m) && e in es
    ensures ForestPathOf(prefix, e) in m
  {
    EntryBelowPrefix(prefix, e);
    var fp := ForestPathOf(prefix, e);
    assert AtOrBelow(fp, fp);
    assert Between(prefix, fp, fp);
  }

  lemma FilledWhenNone(prefix: string, es: seq<EnumeratedEntry>, q: string)
    requires forall e | e in es :: ForestPathOf(prefix, e) != q
    ensures EntryFor(prefix, es, q) == FilledDir(q)
  {
    if es != [] {
      assert es[|es| - 1] in es;
      FilledWhenNone(prefix, es[..|es| - 1], q);
    }
  }

  lemma SynthesisKeys(prefix: string, es: seq<EnumeratedEntry>, i: nat, before: EntryMap, filled: EntryMap, q: string)
    requires i < |es| && IsSynthesis(prefix, es[..i], before)
    requires AtOrBelow(prefix, ForestPathOf(prefix, es[i]))
    requires q in filled <==> q in before || q == ForestPathOf(prefix, es[i]) || Between(prefix, q, ForestPathOf(prefix, es[i]))
    ensures q in filled <==> q == prefix || exists e | e in es[..i + 1] :: Between(prefix, q, ForestPathOf(prefix, e))
  {
    hide AtOrBelow, ForestPathOf, Between, EntryFor;
    var fp, now := ForestPathOf(prefix, es[i]), es[..i + 1];
    assert now == es[..i] + [es[i]];
    BetweenItself(prefix, fp);
    if e :| e in es[..i] && Between(prefix, q, ForestPathOf(prefix, e)) { assert e in now; }
    if Between(prefix, q, fp) { assert es[i] in now; }
    if e :| e in now && Between(prefix, q, ForestPathOf(prefix, e)) { assert e in es[..i] || e == es[i]; }
  }

  lemma BetweenItself(prefix: string, p: string)
    requires AtOrBelow(prefix, p)
    ensures Between(prefix, p, p)
  {
    assert AtOrBelow(p, p);
  }

  lemma SynthesisStep(prefix: string, es: seq<EnumeratedEntry>, i: nat, before: EntryMap, put: EntryMap, filled: EntryMap)
    requires i < |es| && IsSynthesis(prefix, es[..i], before) && prefix != "" && AllAbsolute(es)
    requires put == before[ForestPathOf(prefix, es[i]) := EntryAt(prefix, es[i])]
    requires forall q :: q in filled <==> q in put || Between(prefix, q, ForestPathOf(prefix, es[i]))
    requires forall q | q in filled :: filled[q] == if q in put then put[q] else FilledDir(q)
    ensures IsSynthesis(prefix, es[..i + 1], filled)
  {
    hide AtOrBelow, ForestPathOf, Between, EntryFor, IsSynthesis;
    assert es[i] in es;
    EntryBelowPrefix(prefix, es[i]);
    forall q ensures q in filled <==> q == prefix || exists e | e in es[..i + 1] :: Between(prefix, q, ForestPathOf(prefix, e)) {
      SynthesisKeys(prefix, es, i, before, filled, q);
    }
    forall q | q in filled ensures filled[q] == EntryFor(prefix, es[..i + 1], q) {
      SynthesisValue(prefix, es, i, before, put, q, filled[q]);
    }
    SynthesisFrom(prefix, es[..i + 1], filled);
  }

  lemma SynthesisFrom(prefix: string, es: seq<EnumeratedEntry>, m: EntryMap)
    requires forall q :: q in m <==> q == prefix || exists e | e in es :: Between(prefix, q, ForestPathOf(prefix, e))
    requires forall q | q in m :: m[q] == EntryFor(prefix, es, q)
    ensures IsSynthesis(prefix, es, m)
  {}

  lemma SynthesisValue(prefix: string, es: seq<EnumeratedEntry>, i: nat, before: EntryMap, put: EntryMap, q: string, v: RawEntry)
    requires i < |es| && IsSynthesis(prefix, es[..i], before) && prefix != "" && AllAbsolute(es)
    requires put == before[ForestPathOf(prefix, es[i]) := EntryAt(prefix, es[i])]
    requires v == if q in put then put[q] else FilledDir(q)
    ensures v == EntryFor(prefix, es[..i + 1], q)
  {
    hide AtOrBelow, Between;
    assert es[..i + 1][..i] == es[..i];
    assert forall e | e in es[..i] :: e in es;
    if q !in put {
      forall e | e in es[..i] ensures ForestPathOf(prefix, e) != q { EntryPathPresent(prefix, es[..i], before, e); }
      FilledWhenNone(prefix, es[..i], q);
    }
  }

  // ---- What synthesis gives the assembly ----

  /** Entries a tree can be folded from: rooted at a readable directory, closed under parents, nothing below
      a file or an unreadable directory. */
  ghost predicate TreeEntries(root: string, m: EntryMap) {
    && root != "" && root in m && m[root].kind == Dir && m[root].state != Unreadable
    && (forall p | p in m :: Proper(p) && '\0' !in LeafName(p) && m[p].path == p && AtOrBelow(root, p))
    && (forall p | p in m :: m[p].state == Present || m[p].state == Unreadable)
    && (forall p | p in m && p != root ::
          ParentForestPath(p) in m && m[ParentForestPath(p)].kind == Dir && m[ParentForestPath(p)].state != Unreadable)
  }

  ghost predicate PathsDistinct(prefix: string, es: seq<EnumeratedEntry>) {
    forall i, j | 0 <= i < j < |es| :: ForestPathOf(prefix, es[i]) != ForestPathOf(prefix, es[j])
  }

  /** No enumerated file or unreadable directory has another entry below it; the root is neither. */
  ghost predicate NothingBelowLeaves(prefix: string, es: seq<EnumeratedEntry>) {
    forall e | e in es && (e.kind == File || e.unreadable) ::
      && ForestPathOf(prefix, e) != prefix
      && forall f | f in es :: AtOrBelow(ForestPathOf(prefix, e), ForestPathOf(prefix, f)) ==> ForestPathOf(prefix, f) == ForestPathOf(prefix, e)
  }

  predicate NulFreePath(p: string) { '\0' !in p }

  lemma EntryForCases(prefix: string, es: seq<EnumeratedEntry>, q: string)
    ensures EntryFor(prefix, es, q) == FilledDir(q)
         || exists e :: e in es && ForestPathOf(prefix, e) == q && EntryFor(prefix, es, q) == EntryAt(prefix, e)
  {
    if es != [] {
      var n := |es| - 1;
      EntryForCases(prefix, es[..n], q);
      assert es[n] in es && forall e | e in es[..n] :: e in es;
    }
  }

  lemma BelowExtends(p: string, q: string)
    requires p != "" && AtOrBelow(p, q)
    ensures p <= q
    decreases |q|
  {
    if p != q { BelowExtends(p, ParentForestPath(q)); }
  }

  lemma ProperBelow(prefix: string, q: string)
    requires Proper(prefix) && AtOrBelow(prefix, q)
    ensures Proper(q)
  {
    BelowExtends(prefix, q);
    if LastSlash(q) == 0 {
      assert ParentForestPath(q) == "";
      if q != prefix { AtOrBelowLength(prefix, ParentForestPath(q)); }
    }
  }

  /** An enumeration with nothing below its files gives a tree of entries. */
  lemma SynthesisIsTree(prefix: string, es: seq<EnumeratedEntry>, m: EntryMap)
    requires Proper(prefix) && NulFreePath(prefix) && AllAbsolute(es) && IsSynthesis(prefix, es, m)
    requires forall e | e in es :: NulFreePath(e.nodePath)
    requires NothingBelowLeaves(prefix, es)
    ensures TreeEntries(prefix, m)
  {
    forall p | p in m ensures NodeFits(prefix, m, p) { SynthesizedNode(prefix, es, m, p); }
  }

  ghost predicate NodeFits(root: string, m: EntryMap, p: string)
    requires p in m
  {
    && Proper(p) && '\0' !in LeafName(p) && m[p].path == p && AtOrBelow(root, p)
    && (m[p].state == Present || m[p].state == Unreadable)
    && (p == root ==> m[p].kind == Dir && m[p].state != Unreadable)
    && (p != root ==> ParentForestPath(p) in m && m[ParentForestPath(p)].kind == Dir && m[ParentForestPath(p)].state != Unreadable)
  }

  /** An entry that is not a readable directory was enumerated as such. */
  lemma EntryShape(prefix: string, es: seq<EnumeratedEntry>, p: string)
    ensures var v := EntryFor(prefix, es, p);
            && v.path == p && (v.state == Present || v.state == Unreadable)
            && ((v.kind == Dir && v.state != Unreadable) ||
                exists e :: e in es && ForestPathOf(prefix, e) == p && (e.kind == File || e.unreadable))
  {
    EntryForCases(prefix, es, p);
  }

  lemma RootIsDir(prefix: string, es: seq<EnumeratedEntry>)
    requires NothingBelowLeaves(prefix, es)
    ensures EntryFor(prefix, es, prefix).kind == Dir && EntryFor(prefix, es, prefix).state != Unreadable
  {
    hide EntryFor, ForestPathOf, AtOrBelow;
    EntryShape(prefix, es, prefix);
  }

  lemma ParentIsDir(prefix: string, es: seq<EnumeratedEntry>, up: string, f: EnumeratedEntry)
    requires NothingBelowLeaves(prefix, es) && f in es
    requires AtOrBelow(up, ForestPathOf(prefix, f)) && up != ForestPathOf(prefix, f)
    ensures EntryFor(prefix, es, up).kind == Dir && EntryFor(prefix, es, up).state != Unreadable
  {
    hide EntryFor, ForestPathOf, AtOrBelow;
    EntryShape(prefix, es, up);
  }

  lemma SynthesizedNode(prefix: string, es: seq<EnumeratedEntry>, m: EntryMap, p: string)
    requires Proper(prefix) && NulFreePath(prefix) && AllAbsolute(es) && IsSynthesis(prefix, es, m)
    requires forall e | e in es :: NulFreePath(e.nodePath)
    requires NothingBelowLeaves(prefix, es) && p in m
    ensures NodeFits(prefix, m, p)
  {
    hide ForestPathOf, EntryFor, NothingBelowLeaves, LeafName, Proper, ParentForestPath, AllAbsolute;
    EntryShape(prefix, es, p);
    if p == prefix {
      RootIsDir(prefix, es);
      PrefixFits(prefix);
    } else {
      var f :| f in es && Between(prefix, p, ForestPathOf(prefix, f));
      ProperBelow(prefix, p);
      ProperNotRoot(prefix);
      SynthesisClosed(prefix, es, m);
      NulFreeBelow(prefix, f, p);
      AboveStep(prefix, p, ForestPathOf(prefix, f));
      AtOrBelowLength(p, ForestPathOf(prefix, f));
      ParentIsDir(prefix, es, ParentForestPath(p), f);
    }
  }

  lemma ProperNotRoot(p: string)
    requires Proper(p)
    ensures p != ""
  {}

  lemma PrefixFits(prefix: string)
    requires Proper(prefix) && NulFreePath(prefix)
    ensures AtOrBelow(prefix, prefix) && '\0' !in LeafName(prefix)
  {
    assert forall c | c in LeafName(prefix) :: c in prefix;
  }

  lemma NulFreeBelow(prefix: string, f: EnumeratedEntry, p: string)
    requires NulFreePath(prefix) && NulFreePath(f.nodePath) && p != "" && AtOrBelow(p, ForestPathOf(prefix, f))
    ensures '\0' !in LeafName(p)
  {
    BelowExtends(p, ForestPathOf(prefix, f));
    assert forall c | c in LeafName(p) :: c in p;
    assert forall c | c in p :: c in ForestPathOf(prefix, f);
    assert forall c | c in ForestPathOf(prefix, f) :: c in prefix || c in f.nodePath;
  }

  /** With distinct paths the order of the enumeration does not matter. */
  lemma SynthesisOrderFree(prefix: string, es: seq<EnumeratedEntry>, fs: seq<EnumeratedEntry>, m: EntryMap, n: EntryMap)
    requires IsSynthesis(prefix, es, m) && IsSynthesis(prefix, fs, n)
    requires PathsDistinct(prefix, es) && PathsDistinct(prefix, fs) && forall e :: e in es <==> e in fs
    ensures m == n
  {
    hide ForestPathOf, Between, EntryFor;
    forall q ensures q in m <==> q in n {}
    forall q | q in m ensures m[q] == n[q] {
      EntryForUnique(prefix, es, q);
      EntryForUnique(prefix, fs, q);
    }
  }

  lemma EntryForUnique(prefix: string, es: seq<EnumeratedEntry>, q: string)
    requires PathsDistinct(prefix, es)
    ensures forall e | e in es && ForestPathOf(prefix, e) == q :: EntryFor(prefix, es, q) == EntryAt(prefix, e)
    ensures (forall e | e in es :: ForestPathOf(prefix, e) != q) ==> EntryFor(prefix, es, q) == FilledDir(q)
  {
    if es != [] {
      var n := |es| - 1;
      EntryForUnique(prefix, es[..n], q);
      assert forall e | e in es :: e in es[..n] || e == es[n];
      assert forall e | e in es[..n] :: e in es;
      assert es[n] in es;
    }
  }
}
