/** Namespaced forest paths (src/integrity/tree.ts, src/integrity/diff.ts): the parent, the last segment
    and the join that takes them apart and puts them together again. */
module ForestPaths {

  const SUPER_ROOT := ""

  /** `path.lastIndexOf("/")`. */
  function LastSlash(p: string): (i: int)
    ensures -1 <= i < |p|
    ensures i >= 0 ==> p[i] == '/'
    ensures forall k | i < k < |p| :: p[k] != '/'
  {
    if p == "" then -1 else if p[|p| - 1] == '/' then |p| - 1 else LastSlash(p[..|p| - 1])
  }

  function ParentForestPath(p: string): (r: string)
    ensures |r| <= |p|
    ensures p != "" ==> |r| < |p|
  {
    var i := LastSlash(p);
    if i < 0 then SUPER_ROOT else p[..i]
  }

  function LeafName(p: string): (r: string)
    ensures '/' !in r
  {
    p[LastSlash(p) + 1..]
  }

  function JoinPath(parent: string, name: string): string {
    if parent == "" then name else parent + "/" + name
  }

  /** A path that names a node below the super-root: its parts join back to it. Only a leading slash with
      nothing before it is lost by the join. */
  predicate Proper(p: string) { p != "" && LastSlash(p) != 0 }

  lemma JoinOfParts(p: string)
    requires Proper(p)
    ensures JoinPath(ParentForestPath(p), LeafName(p)) == p
  {}

  lemma LastSlashUnique(p: string, i: int)
    requires -1 <= i < |p| && (i >= 0 ==> p[i] == '/')
    requires forall k | i < k < |p| :: p[k] != '/'
    ensures LastSlash(p) == i
  {
    var j := LastSlash(p);
    assert j >= 0 ==> p[j] == '/';
  }

  lemma PartsOfJoin(parent: string, name: string)
    requires '/' !in name
    ensures ParentForestPath(JoinPath(parent, name)) == parent && LeafName(JoinPath(parent, name)) == name
  {
    var p := JoinPath(parent, name);
    if parent == "" {
      forall k | 0 <= k < |p| ensures p[k] != '/' { assert p[k] in name; }
      LastSlashUnique(p, -1);
    } else {
      forall k | |parent| < k < |p| ensures p[k] != '/' { assert p[k] == name[k - |parent| - 1] && p[k] in name; }
      LastSlashUnique(p, |parent|);
    }
  }

  /** `q` is `p` or lies somewhere below it, following parents. */
  predicate AtOrBelow(p: string, q: string)
    decreases |q|
  {
    q == p || (q != "" && AtOrBelow(p, ParentForestPath(q)))
  }

  lemma AtOrBelowLength(p: string, q: string)
    requires AtOrBelow(p, q)
    ensures |p| <= |q| && (|p| == |q| ==> p == q)
    decreases |q|
  {
    if q != p { AtOrBelowLength(p, ParentForestPath(q)); }
  }

  lemma AtOrBelowTransitive(p: string, q: string, r: string)
    requires AtOrBelow(p, q) && AtOrBelow(q, r)
    ensures AtOrBelow(p, r)
    decreases |r|
  {
    if r != q { AtOrBelowTransitive(p, q, ParentForestPath(r)); }
  }

  /** Two ancestors of one path lie on one chain. */
  lemma AncestorsChain(p: string, q: string, r: string)
    requires AtOrBelow(p, r) && AtOrBelow(q, r) && |p| <= |q|
    ensures AtOrBelow(p, q)
    decreases |r|
  {
    if r == q {
    } else if r == p {
      AtOrBelowLength(q, r);
    } else {
      AncestorsChain(p, q, ParentForestPath(r));
    }
  }

  lemma SuperRootAboveAll(q: string)
    ensures AtOrBelow(SUPER_ROOT, q)
    decreases |q|
  {
    if q != "" { SuperRootAboveAll(ParentForestPath(q)); }
  }

  lemma AncestorsAreShorter(p: string)
    requires p != SUPER_ROOT
    ensures forall x :: AtOrBelow(x, p) <==> x == p || AtOrBelow(x, ParentForestPath(p))
    ensures !AtOrBelow(p, ParentForestPath(p))
  {
    if AtOrBelow(p, ParentForestPath(p)) { AtOrBelowLength(p, ParentForestPath(p)); }
  }

  // ---- Unbroken ways ----

  /** Every path from `x` down to `f` is there. */
  predicate Solid(keys: set<string>, x: string, f: string)
    decreases |f|
  {
    f in keys && (f == x || (f != SUPER_ROOT && Solid(keys, x, ParentForestPath(f))))
  }

  /** All directories above `x` are there. */
  predicate Hangs(keys: set<string>, x: string) { Solid(keys, SUPER_ROOT, x) }

  lemma {:induction false} SolidBelow(keys: set<string>, x: string, f: string)
    requires Solid(keys, x, f)
    ensures AtOrBelow(x, f) && x in keys && f in keys
    decreases |f|
  {
    if f != x { SolidBelow(keys, x, ParentForestPath(f)); }
  }

  lemma {:induction false} SolidPart(keys: set<string>, x: string, y: string, f: string)
    requires Solid(keys, x, f) && AtOrBelow(x, y) && AtOrBelow(y, f)
    ensures Solid(keys, x, y) && Solid(keys, y, f)
    decreases |f|
  {
    if f == y {
    } else if f == x {
      AtOrBelowLength(x, y);
      AtOrBelowLength(y, f);
    } else {
      SolidPart(keys, x, y, ParentForestPath(f));
    }
  }

  lemma {:induction false} SolidJoin(keys: set<string>, x: string, y: string, f: string)
    requires Solid(keys, x, y) && Solid(keys, y, f)
    ensures Solid(keys, x, f)
    decreases |f|
  {
    if f != y { SolidJoin(keys, x, y, ParentForestPath(f)); }
  }

  /** Paths added elsewhere make no way whole. */
  lemma {:induction false} SolidSame(keys: set<string>, more: set<string>, x: string, f: string)
    requires keys <= more && forall y | y in more && y !in keys :: !AtOrBelow(y, f)
    ensures Solid(keys, x, f) <==> Solid(more, x, f)
    decreases |f|
  {
    assert AtOrBelow(f, f);
    if f != x && f != SUPER_ROOT {
      assert forall y | AtOrBelow(y, ParentForestPath(f)) :: AtOrBelow(y, f);
      SolidSame(keys, more, x, ParentForestPath(f));
    }
  }
}
