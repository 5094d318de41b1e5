/** The order of JavaScript's argument-free `sort()`: by UTF-16 code units. */
module Utf16 {
  import opened Sorting
  import opened Utf8
  import opened ForestPaths

  function UnitsOf(c: char): (r: seq<int>)
    ensures r != []
  {
    var n := c as int;
    if n < 0x1_0000 then [n] else [0xD800 + (n - 0x1_0000) / 1024, 0xDC00 + (n - 0x1_0000) % 1024]
  }

  predicate IsHigh(u: int) { 0xD800 <= u <= 0xDBFF }

  predicate IsLow(u: int) { 0xDC00 <= u <= 0xDFFF }

  predicate IsPair(us: seq<int>) { |us| == 2 && IsHigh(us[0]) && IsLow(us[1]) }

  /** A character is one code unit, or a surrogate pair that stands for it. */
  lemma UnitsAre(c: char)
    ensures if c as int < 0x1_0000 then UnitsOf(c) == [c as int] && !IsHigh(c as int) && !IsLow(c as int) else
      IsPair(UnitsOf(c)) && c as int == 0x1_0000 + 0x400 * (UnitsOf(c)[0] - 0xD800) + (UnitsOf(c)[1] - 0xDC00)
  {}

  lemma LastUnits(a: seq<int>, c: char, b: seq<int>, d: char)
    requires a + UnitsOf(c) == b + UnitsOf(d)
    ensures a == b && c == d
  {
    UnitsAre(c);
    UnitsAre(d);
    var u, v := UnitsOf(c), UnitsOf(d);
    hide UnitsOf;
    var n := |a + u|;
    assert u[|u| - 1] == (a + u)[n - 1] == (b + v)[n - 1] == v[|v| - 1];
    assert a == (a + u)[..|a|] == (b + v)[..|b|] == b;
    assert u == (a + u)[|a|..] == (b + v)[|b|..] == v;
  }

  function CodeUnits(s: string): seq<int> {
    if s == "" then [] else CodeUnits(s[..|s| - 1]) + UnitsOf(s[|s| - 1])
  }

  predicate PathLe(p: string, q: string) { UnitsLe(CodeUnits(p), CodeUnits(q)) }

  lemma PathLePreorder()
    ensures TotalPreorder(PathLe)
  {
    hide CodeUnits;
    forall p, q ensures PathLe(p, q) || PathLe(q, p) { UnitsLeTotal(CodeUnits(p), CodeUnits(q)); }
    forall p, q, r | PathLe(p, q) && PathLe(q, r) ensures PathLe(p, r) {
      UnitsLeTransitive(CodeUnits(p), CodeUnits(q), CodeUnits(r));
    }
  }

  /** Texts with the same code units are the same. */
  lemma {:induction false} CodeUnitsInjective(s: string, t: string)
    requires CodeUnits(s) == CodeUnits(t)
    ensures s == t
  {
    if s != "" && t != "" {
      hide UnitsOf;
      LastUnits(CodeUnits(s[..|s| - 1]), s[|s| - 1], CodeUnits(t[..|t| - 1]), t[|t| - 1]);
      CodeUnitsInjective(s[..|s| - 1], t[..|t| - 1]);
    }
  }

  lemma {:induction false} LongerIsLater(a: seq<int>, b: seq<int>)
    requires a < b
    ensures !UnitsLe(b, a)
  {
    if a != [] { LongerIsLater(a[1..], b[1..]); }
  }

  /** What is added to a path at its end is added to its code units. */
  lemma {:induction false} PrefixUnits(p: string, q: string)
    requires p < q
    ensures CodeUnits(p) < CodeUnits(q)
  {
    if p != q[..|q| - 1] { PrefixUnits(p, q[..|q| - 1]); }
  }

  lemma {:induction false} AncestorIsPrefix(p: string, q: string)
    requires AtOrBelow(p, q) && p != q
    ensures p < q
    decreases |q|
  {
    if p != ParentForestPath(q) { AncestorIsPrefix(p, ParentForestPath(q)); }
  }

  /** In a sorted list without repeats no path comes before one of its ancestors. */
  lemma SortedAncestorsFirst(paths: seq<string>)
    requires SortedBy(PathLe, paths) && Distinct(paths)
    ensures forall i, j | 0 <= i < j < |paths| :: !AtOrBelow(paths[j], paths[i])
  {
    hide AtOrBelow, CodeUnits;
    forall i, j | 0 <= i < j < |paths| ensures !AtOrBelow(paths[j], paths[i]) {
      assert PathLe(paths[i], paths[j]);
      if AtOrBelow(paths[j], paths[i]) {
        AncestorIsPrefix(paths[j], paths[i]);
        PrefixUnits(paths[j], paths[i]);
        LongerIsLater(CodeUnits(paths[j]), CodeUnits(paths[i]));
      }
    }
  }
}
