/** The reverse line diff (src/backup/policy.ts, buildHunks and applyHunks). */
module LineDiff {
  import opened Options

  type Line = string

  datatype RawEdit = KeepLine | DeleteLine | InsertLine(line: Line)

  datatype Hunk = Keep(k: nat) | Delete(d: nat) | Insert(i: seq<Line>)

  // ---- Longest common subsequence ----

  /** Length of a longest common subsequence of the first `i` lines of `a` and the first `j` of `b`. */
  ghost function Lcs(a: seq<Line>, b: seq<Line>, i: nat, j: nat): nat
    requires i <= |a| && j <= |b|
  {
    if i == 0 || j == 0 then 0
    else if a[i - 1] == b[j - 1] then Lcs(a, b, i - 1, j - 1) + 1
    else if Lcs(a, b, i - 1, j) > Lcs(a, b, i, j - 1) then Lcs(a, b, i - 1, j) else Lcs(a, b, i, j - 1)
  }

  /** One more line on a side changes the length by at most one. */
  lemma {:induction false} LcsStep(a: seq<Line>, b: seq<Line>, i: nat, j: nat)
    requires i <= |a| && j <= |b|
    ensures i > 0 ==> Lcs(a, b, i - 1, j) <= Lcs(a, b, i, j) <= Lcs(a, b, i - 1, j) + 1
    ensures j > 0 ==> Lcs(a, b, i, j - 1) <= Lcs(a, b, i, j) <= Lcs(a, b, i, j - 1) + 1
    decreases i + j
  {
    if i > 0 && j > 0 {
      LcsStep(a, b, i - 1, j);
      LcsStep(a, b, i, j - 1);
      LcsStep(a, b, i - 1, j - 1);
    }
  }

  // ---- Scripts ----

  /** The script consumes the first `i` lines of `a`, all of them, and leaves the first `j` lines of `b`. */
  ghost predicate Turns(script: seq<RawEdit>, a: seq<Line>, i: nat, b: seq<Line>, j: nat)
    requires i <= |a| && j <= |b|
  {
    if script == [] then i == 0 && j == 0 else
      var last, rest := script[|script| - 1], script[..|script| - 1];
      match last
      case KeepLine => i > 0 && j > 0 && a[i - 1] == b[j - 1] && Turns(rest, a, i - 1, b, j - 1)
      case DeleteLine => i > 0 && Turns(rest, a, i - 1, b, j)
      case InsertLine(l) => j > 0 && b[j - 1] == l && Turns(rest, a, i, b, j - 1)
  }

  function Kept(script: seq<RawEdit>): nat {
    if script == [] then 0
    else Kept(script[..|script| - 1]) + if script[|script| - 1].KeepLine? then 1 else 0
  }

  /** Inserted and deleted lines. */
  function Cost(script: seq<RawEdit>): nat {
    if script == [] then 0
    else Cost(script[..|script| - 1]) + if script[|script| - 1].KeepLine? then 0 else 1
  }

  /** No script keeps more lines than the common subsequence has, and its cost follows from what it keeps. */
  lemma {:induction false} ScriptBound(script: seq<RawEdit>, a: seq<Line>, i: nat, b: seq<Line>, j: nat)
    requires i <= |a| && j <= |b| && Turns(script, a, i, b, j)
    ensures Kept(script) <= Lcs(a, b, i, j)
    ensures Cost(script) == i + j - 2 * Kept(script)
    decreases |script|
  {
    if script != [] {
      var last, rest := script[|script| - 1], script[..|script| - 1];
      match last
      case KeepLine => ScriptBound(rest, a, i - 1, b, j - 1);
      case DeleteLine => ScriptBound(rest, a, i - 1, b, j); LcsStep(a, b, i, j);
      case InsertLine(_) => ScriptBound(rest, a, i, b, j - 1); LcsStep(a, b, i, j);
    }
  }

  /** The script the backtrack reads off the table. */
  ghost function Backtrack(a: seq<Line>, b: seq<Line>, i: nat, j: nat): seq<RawEdit>
    requires i <= |a| && j <= |b|
    decreases i + j
  {
    if i == 0 && j == 0 then []
    else if i > 0 && j > 0 && a[i - 1] == b[j - 1] then Backtrack(a, b, i - 1, j - 1) + [KeepLine]
    else if j > 0 && (i == 0 || Lcs(a, b, i, j - 1) >= Lcs(a, b, i - 1, j)) then Backtrack(a, b, i, j - 1) + [InsertLine(b[j - 1])]
    else Backtrack(a, b, i - 1, j) + [DeleteLine]
  }

  lemma TurnsPush(rest: seq<RawEdit>, e: RawEdit, a: seq<Line>, i: nat, b: seq<Line>, j: nat)
    requires i <= |a| && j <= |b|
    ensures Kept(rest + [e]) == Kept(rest) + if e.KeepLine? then 1 else 0
    ensures e == KeepLine && i > 0 && j > 0 && a[i - 1] == b[j - 1] && Turns(rest, a, i - 1, b, j - 1) ==> Turns(rest + [e], a, i, b, j)
    ensures e == DeleteLine && i > 0 && Turns(rest, a, i - 1, b, j) ==> Turns(rest + [e], a, i, b, j)
    ensures j > 0 && e == InsertLine(b[j - 1]) && Turns(rest, a, i, b, j - 1) ==> Turns(rest + [e], a, i, b, j)
  {
    assert (rest + [e])[..|rest|] == rest;
  }

  lemma {:induction false} BacktrackTurns(a: seq<Line>, b: seq<Line>, i: nat, j: nat)
    requires i <= |a| && j <= |b|
    ensures Turns(Backtrack(a, b, i, j), a, i, b, j)
    ensures Kept(Backtrack(a, b, i, j)) == Lcs(a, b, i, j)
    decreases i + j
  {
    hide Turns, Kept;
    if i == 0 && j == 0 {
      EmptyTurns(a, b);
    } else if i > 0 && j > 0 && a[i - 1] == b[j - 1] {
      BacktrackTurns(a, b, i - 1, j - 1);
      TurnsPush(Backtrack(a, b, i - 1, j - 1), KeepLine, a, i, b, j);
    } else if j > 0 && (i == 0 || Lcs(a, b, i, j - 1) >= Lcs(a, b, i - 1, j)) {
      BacktrackTurns(a, b, i, j - 1);
      TurnsPush(Backtrack(a, b, i, j - 1), InsertLine(b[j - 1]), a, i, b, j);
    } else {
      BacktrackTurns(a, b, i - 1, j);
      TurnsPush(Backtrack(a, b, i - 1, j), DeleteLine, a, i, b, j);
    }
  }

  lemma EmptyTurns(a: seq<Line>, b: seq<Line>)
    ensures Turns([], a, 0, b, 0) && Kept([]) == 0
  {}

  /** No script that turns `a` into `b` inserts and deletes fewer lines. */
  lemma BacktrackIsMinimal(a: seq<Line>, b: seq<Line>, script: seq<RawEdit>)
    requires Turns(script, a, |a|, b, |b|)
    ensures Cost(Backtrack(a, b, |a|, |b|)) == |a| + |b| - 2 * Lcs(a, b, |a|, |b|)
    ensures Cost(Backtrack(a, b, |a|, |b|)) <= Cost(script)
  {
    BacktrackTurns(a, b, |a|, |b|);
    ScriptBound(Backtrack(a, b, |a|, |b|), a, |a|, b, |b|);
    ScriptBound(script, a, |a|, b, |b|);
  }

  // ---- Hunks ----

  function Repeat(e: RawEdit, n: nat): (r: seq<RawEdit>)
    ensures |r| == n && forall i | 0 <= i < n :: r[i] == e
  {
    seq(n, _ => e)
  }

  function Inserts(lines: seq<Line>): (r: seq<RawEdit>)
    ensures |r| == |lines| && forall i | 0 <= i < |lines| :: r[i] == InsertLine(lines[i])
  {
    seq(|lines|, i requires 0 <= i < |lines| => InsertLine(lines[i]))
  }

  function ExpandHunk(h: Hunk): seq<RawEdit> {
    match h
    case Keep(k) => Repeat(KeepLine, k)
    case Delete(d) => Repeat(DeleteLine, d)
    case Insert(lines) => Inserts(lines)
  }

  /** The line edits a hunk list stands for. */
  function Expand(hunks: seq<Hunk>): seq<RawEdit> {
    if hunks == [] then [] else Expand(hunks[..|hunks| - 1]) + ExpandHunk(hunks[|hunks| - 1])
  }

  predicate SameKind(x: Hunk, y: Hunk) {
    (x.Keep? && y.Keep?) || (x.Delete? && y.Delete?) || (x.Insert? && y.Insert?)
  }

  /** No two neighbouring hunks could be merged. */
  predicate Compressed(hunks: seq<Hunk>) { forall i | 0 < i < |hunks| :: !SameKind(hunks[i - 1], hunks[i]) }

  /** The next source line and the lines produced, or a keep that overran the source. */
  datatype Cursor = Overrun | At(ni: nat, out: seq<Line>)

  function RunEdit(c: Cursor, e: RawEdit, src: seq<Line>): Cursor {
    if c.Overrun? then Overrun else
      match e
      case KeepLine => if c.ni >= |src| then Overrun else At(c.ni + 1, c.out + [src[c.ni]])
      case DeleteLine => At(c.ni + 1, c.out)
      case InsertLine(l) => At(c.ni, c.out + [l])
  }

  /** Line by line. */
  function RunEdits(script: seq<RawEdit>, src: seq<Line>): Cursor {
    if script == [] then At(0, []) else RunEdit(RunEdits(script[..|script| - 1], src), script[|script| - 1], src)
  }

  /** A script that turns `a` into `b` never overruns and produces `b`. */
  lemma {:induction false} TurnsRuns(script: seq<RawEdit>, a: seq<Line>, i: nat, b: seq<Line>, j: nat)
    requires i <= |a| && j <= |b| && Turns(script, a, i, b, j)
    ensures RunEdits(script, a) == At(i, b[..j])
    decreases |script|
  {
    if script != [] {
      var last, rest := script[|script| - 1], script[..|script| - 1];
      match last
      case KeepLine => TurnsRuns(rest, a, i - 1, b, j - 1); assert b[..j] == b[..j - 1] + [b[j - 1]];
      case DeleteLine => TurnsRuns(rest, a, i - 1, b, j);
      case InsertLine(_) => TurnsRuns(rest, a, i, b, j - 1); assert b[..j] == b[..j - 1] + [b[j - 1]];
    }
  }

  // ---- The imperative diff ----

  lemma LcsAt(a: seq<Line>, b: seq<Line>, i: nat, j: nat)
    requires i <= |a| && j <= |b|
    ensures Lcs(a, b, i, j) ==
      if i == 0 || j == 0 then 0
      else if a[i - 1] == b[j - 1] then Lcs(a, b, i - 1, j - 1) + 1
      else if Lcs(a, b, i - 1, j) > Lcs(a, b, i, j - 1) then Lcs(a, b, i - 1, j) else Lcs(a, b, i, j - 1)
  {}

  method LcsTable(a: seq<Line>, b: seq<Line>) returns (dp: array2<nat>)
    ensures fresh(dp) && dp.Length0 == |a| + 1 && dp.Length1 == |b| + 1
    ensures forall i, j | 0 <= i <= |a| && 0 <= j <= |b| :: dp[i, j] == Lcs(a, b, i, j)
  {
    hide Lcs;
    dp := new nat[|a| + 1, |b| + 1]((x, y) => 0);
    forall x, y | 0 <= x <= |a| && 0 <= y <= |b| && (x == 0 || y == 0) ensures Lcs(a, b, x, y) == 0 { LcsAt(a, b, x, y); }
    for i := 1 to |a| + 1
      invariant forall x, y | 0 <= x < i && 0 <= y <= |b| :: dp[x, y] == Lcs(a, b, x, y)
      invariant forall x, y | i <= x <= |a| && 0 <= y <= |b| :: dp[x, y] == 0
    {
      for j := 1 to |b| + 1
        invariant forall x, y | 0 <= x < i && 0 <= y <= |b| :: dp[x, y] == Lcs(a, b, x, y)
        invariant forall y | 0 <= y < j :: dp[i, y] == Lcs(a, b, i, y)
        invariant forall x, y | i < x <= |a| && 0 <= y <= |b| :: dp[x, y] == 0
      {
        LcsAt(a, b, i, j);
        if a[i - 1] == b[j - 1] {
          dp[i, j] := dp[i - 1, j - 1] + 1;
        } else {
          dp[i, j] := if dp[i - 1, j] > dp[i, j - 1] then dp[i - 1, j] else dp[i, j - 1];
        }
      }
    }
  }

  function Reversed(s: seq<RawEdit>): (r: seq<RawEdit>)
    ensures |r| == |s| && forall i | 0 <= i < |s| :: r[i] == s[|s| - 1 - i]
  {
    seq(|s|, i requires 0 <= i < |s| => s[|s| - 1 - i])
  }

  lemma ReversedPush(s: seq<RawEdit>, e: RawEdit, front: seq<RawEdit>)
    ensures front + Reversed(s + [e]) == front + [e] + Reversed(s)
  {
    assert Reversed(s + [e]) == [e] + Reversed(s);
  }

  method BacktrackTable(a: seq<Line>, b: seq<Line>, dp: array2<nat>) returns (raw: seq<RawEdit>)
    requires dp.Length0 == |a| + 1 && dp.Length1 == |b| + 1
    requires forall i, j | 0 <= i <= |a| && 0 <= j <= |b| :: dp[i, j] == Lcs(a, b, i, j)
    ensures raw == Backtrack(a, b, |a|, |b|)
  {
    hide Lcs;
    var i, j := |a|, |b|;
    raw := [];
    assert Reversed([]) == [];
    while i > 0 || j > 0
      invariant 0 <= i <= |a| && 0 <= j <= |b|
      invariant Backtrack(a, b, |a|, |b|) == Backtrack(a, b, i, j) + Reversed(raw)
      decreases i + j
    {
      if i > 0 && j > 0 && a[i - 1] == b[j - 1] {
        ReversedPush(raw, KeepLine, Backtrack(a, b, i - 1, j - 1));
        raw := raw + [KeepLine];
        i, j := i - 1, j - 1;
      } else if j > 0 && (i == 0 || dp[i, j - 1] >= dp[i - 1, j]) {
        ReversedPush(raw, InsertLine(b[j - 1]), Backtrack(a, b, i, j - 1));
        raw := raw + [InsertLine(b[j - 1])];
        j := j - 1;
      } else {
        ReversedPush(raw, DeleteLine, Backtrack(a, b, i - 1, j));
        raw := raw + [DeleteLine];
        i := i - 1;
      }
    }
    raw := Reversed(raw);
  }

  /** One edit joins the last hunk of its kind or opens a new one. */
  function Absorb(hunks: seq<Hunk>, e: RawEdit): seq<Hunk> {
    var n := |hunks|;
    match e
    case KeepLine =>
      if n > 0 && hunks[n - 1].Keep? then hunks[n - 1 := Keep(hunks[n - 1].k + 1)] else hunks + [Keep(1)]
    case DeleteLine =>
      if n > 0 && hunks[n - 1].Delete? then hunks[n - 1 := Delete(hunks[n - 1].d + 1)] else hunks + [Delete(1)]
    case InsertLine(l) =>
      if n > 0 && hunks[n - 1].Insert? then hunks[n - 1 := Insert(hunks[n - 1].i + [l])] else hunks + [Insert([l])]
  }

  lemma ExpandPush(hunks: seq<Hunk>, h: Hunk)
    ensures Expand(hunks + [h]) == Expand(hunks) + ExpandHunk(h)
  {
    assert (hunks + [h])[..|hunks|] == hunks;
  }

  lemma AbsorbLast(h: Hunk, e: RawEdit)
    requires (h.Keep? && e.KeepLine?) || (h.Delete? && e.DeleteLine?) || (h.Insert? && e.InsertLine?)
    ensures Absorb([h], e) == [Absorb([h], e)[0]] && SameKind(h, Absorb([h], e)[0])
    ensures ExpandHunk(Absorb([h], e)[0]) == ExpandHunk(h) + [e]
  {}

  lemma AbsorbExpands(hunks: seq<Hunk>, e: RawEdit)
    requires Compressed(hunks)
    ensures Expand(Absorb(hunks, e)) == Expand(hunks) + [e]
    ensures Compressed(Absorb(hunks, e))
  {
    hide Expand;
    var n, r := |hunks|, Absorb(hunks, e);
    if |r| == n {
      var init, h := hunks[..n - 1], hunks[n - 1];
      assert hunks == init + [h] && r == init + [r[n - 1]];
      AbsorbLast(h, e);
      assert r[n - 1] == Absorb([h], e)[0];
      hide Absorb, ExpandHunk;
      ExpandPush(init, h);
      ExpandPush(init, r[n - 1]);
      Regroup(Expand(init), ExpandHunk(h), e);
    } else {
      assert r == hunks + [r[n]];
      ExpandPush(hunks, r[n]);
      assert ExpandHunk(r[n]) == [e];
    }
  }

  lemma Regroup(x: seq<RawEdit>, y: seq<RawEdit>, e: RawEdit)
    ensures x + (y + [e]) == x + y + [e]
  {}

  method Compress(raw: seq<RawEdit>) returns (hunks: seq<Hunk>)
    ensures Expand(hunks) == raw && Compressed(hunks)
  {
    hunks := [];
    for i := 0 to |raw|
      invariant Expand(hunks) == raw[..i] && Compressed(hunks)
    {
      AbsorbExpands(hunks, raw[i]);
      assert raw[..i + 1] == raw[..i] + [raw[i]];
      hunks := Absorb(hunks, raw[i]);
    }
    assert raw[..|raw|] == raw;
  }

  method BuildHunks(newLines: seq<Line>, prevLines: seq<Line>) returns (hunks: seq<Hunk>)
    ensures Expand(hunks) == Backtrack(newLines, prevLines, |newLines|, |prevLines|) && Compressed(hunks)
  {
    var dp := LcsTable(newLines, prevLines);
    var raw := BacktrackTable(newLines, prevLines, dp);
    hunks := Compress(raw);
  }

  // ---- Applying ----

  lemma RunAppend(x: seq<RawEdit>, e: RawEdit, src: seq<Line>)
    ensures RunEdits(x + [e], src) == RunEdit(RunEdits(x, src), e, src)
  {
    assert (x + [e])[..|x|] == x;
  }

  lemma OverrunStays(x: seq<RawEdit>, y: seq<RawEdit>, src: seq<Line>)
    requires RunEdits(x, src).Overrun?
    ensures RunEdits(x + y, src).Overrun?
    decreases |y|
  {
    if y == [] {
      assert x + y == x;
    } else {
      OverrunStays(x, y[..|y| - 1], src);
      assert (x + y)[..|x + y| - 1] == x + y[..|y| - 1];
    }
  }

  /** The lines a hunk list yields; None when a keep hunk overruns the source. */
  function Applied(hunks: seq<Hunk>, src: seq<Line>): Option<seq<Line>> {
    match RunEdits(Expand(hunks), src)
    case Overrun => None
    case At(_, out) => Some(out)
  }

  /** A run of deletions skips lines without looking at the source. */
  lemma {:induction false} RunDeletes(x: seq<RawEdit>, d: nat, src: seq<Line>)
    requires RunEdits(x, src).At?
    ensures RunEdits(x + Repeat(DeleteLine, d), src) == At(RunEdits(x, src).ni + d, RunEdits(x, src).out)
  {
    hide RunEdits;
    if d == 0 {
      assert x + Repeat(DeleteLine, 0) == x;
    } else {
      RunDeletes(x, d - 1, src);
      assert x + Repeat(DeleteLine, d) == (x + Repeat(DeleteLine, d - 1)) + [DeleteLine];
      RunAppend(x + Repeat(DeleteLine, d - 1), DeleteLine, src);
    }
  }

  lemma {:induction false} RunInserts(x: seq<RawEdit>, lines: seq<Line>, src: seq<Line>)
    requires RunEdits(x, src).At?
    ensures RunEdits(x + Inserts(lines), src) == At(RunEdits(x, src).ni, RunEdits(x, src).out + lines)
  {
    hide RunEdits;
    var n := |lines|;
    if n == 0 {
      assert x + Inserts(lines) == x;
    } else {
      RunInserts(x, lines[..n - 1], src);
      assert x + Inserts(lines) == (x + Inserts(lines[..n - 1])) + [InsertLine(lines[n - 1])];
      RunAppend(x + Inserts(lines[..n - 1]), InsertLine(lines[n - 1]), src);
      assert lines == lines[..n - 1] + [lines[n - 1]];
    }
  }

  lemma RunKeep(x: seq<RawEdit>, c: nat, src: seq<Line>)
    ensures RunEdits(x + Repeat(KeepLine, c + 1), src) == RunEdit(RunEdits(x + Repeat(KeepLine, c), src), KeepLine, src)
  {
    assert x + Repeat(KeepLine, c + 1) == (x + Repeat(KeepLine, c)) + [KeepLine];
    RunAppend(x + Repeat(KeepLine, c), KeepLine, src);
  }

  method KeepRun(ghost x: seq<RawEdit>, k: nat, newLines: seq<Line>, start: nat, before: seq<Line>)
    returns (overrun: bool, ni: nat, out: seq<Line>)
    requires RunEdits(x, newLines) == At(start, before)
    ensures RunEdits(x + Repeat(KeepLine, k), newLines) == if overrun then Overrun else At(ni, out)
  {
    hide RunEdits, RunEdit;
    overrun, ni, out := false, start, before;
    assert x + Repeat(KeepLine, 0) == x;
    for c := 0 to k
      invariant RunEdits(x + Repeat(KeepLine, c), newLines) == At(ni, out)
    {
      RunKeep(x, c, newLines);
      KeepEdit(ni, out, newLines);
      if ni >= |newLines| {
        OverrunStays(x + Repeat(KeepLine, c + 1), Repeat(KeepLine, k - c - 1), newLines);
        assert x + Repeat(KeepLine, k) == x + Repeat(KeepLine, c + 1) + Repeat(KeepLine, k - c - 1);
        return true, ni, out;
      }
      out := out + [newLines[ni]];
      ni := ni + 1;
    }
  }

  lemma KeepEdit(ni: nat, out: seq<Line>, src: seq<Line>)
    ensures RunEdit(At(ni, out), KeepLine, src) == if ni >= |src| then Overrun else At(ni + 1, out + [src[ni]])
  {}

  lemma ExpandPrefix(x: seq<Hunk>, y: seq<Hunk>)
    ensures Expand(x + y) == Expand(x) + Expand(y)
    decreases |y|
  {
    hide ExpandHunk, Expand;
    if y == [] {
      NothingRun([]);
      assert x + y == x && Expand(x) + [] == Expand(x);
    } else {
      var n := |y| - 1;
      ExpandPrefix(x, y[..n]);
      assert x + y == (x + y[..n]) + [y[n]];
      assert y == y[..n] + [y[n]];
      ExpandPush(x + y[..n], y[n]);
      ExpandPush(y[..n], y[n]);
      assert (Expand(x) + Expand(y[..n])) + ExpandHunk(y[n]) == Expand(x) + (Expand(y[..n]) + ExpandHunk(y[n]));
    }
  }

  lemma ExpandSplit(hunks: seq<Hunk>, i: nat)
    requires i < |hunks|
    ensures Expand(hunks[..i + 1]) == Expand(hunks[..i]) + ExpandHunk(hunks[i])
    ensures Expand(hunks) == Expand(hunks[..i + 1]) + Expand(hunks[i + 1..])
  {
    hide Expand, ExpandHunk;
    assert hunks[..i + 1] == hunks[..i] + [hunks[i]];
    ExpandPush(hunks[..i], hunks[i]);
    ExpandPrefix(hunks[..i + 1], hunks[i + 1..]);
    SplitAt(hunks, i + 1);
  }

  lemma SplitAt(hunks: seq<Hunk>, i: nat)
    requires i <= |hunks|
    ensures hunks[..i] + hunks[i..] == hunks
  {}

  method ApplyHunks(hunks: seq<Hunk>, newLines: seq<Line>) returns (r: Option<seq<Line>>)
    ensures r == Applied(hunks, newLines)
  {
    hide RunEdits, Expand;
    var out: seq<Line>, ni: nat := [], 0;
    NothingRun(newLines);
    assert hunks[..0] == [];
    for h := 0 to |hunks|
      invariant RunEdits(Expand(hunks[..h]), newLines) == At(ni, out)
    {
      ExpandSplit(hunks, h);
      ghost var x := Expand(hunks[..h]);
      match hunks[h]
      case Keep(k) =>
        var overrun;
        overrun, ni, out := KeepRun(x, k, newLines, ni, out);
        if overrun {
          OverrunStays(Expand(hunks[..h + 1]), Expand(hunks[h + 1..]), newLines);
          return None;
        }
      case Delete(d) =>
        RunDeletes(x, d, newLines);
        ni := ni + d;
      case Insert(lines) =>
        RunInserts(x, lines, newLines);
        out := out + lines;
    }
    assert hunks[..|hunks|] == hunks;
    r := Some(out);
  }

  lemma NothingRun(src: seq<Line>)
    ensures Expand([]) == [] && RunEdits([], src) == At(0, [])
  {}

  /** Round trip: the built script, applied to the new lines, gives back the previous ones. */
  lemma BuiltHunksRestore(newLines: seq<Line>, prevLines: seq<Line>, hunks: seq<Hunk>)
    requires Expand(hunks) == Backtrack(newLines, prevLines, |newLines|, |prevLines|)
    ensures Applied(hunks, newLines) == Some(prevLines)
  {
    BacktrackTurns(newLines, prevLines, |newLines|, |prevLines|);
    TurnsRuns(Expand(hunks), newLines, |newLines|, prevLines, |prevLines|);
    assert prevLines[..|prevLines|] == prevLines;
  }

  // ---- Text and lines ----

  /** `text.split("\n")`. */
  function SplitLines(text: string): (lines: seq<Line>)
    ensures |lines| >= 1
    ensures forall l | l in lines :: '\n' !in l
  {
    if text == "" then [""]
    else if text[0] == '\n' then [""] + SplitLines(text[1..])
    else var rest := SplitLines(text[1..]); [[text[0]] + rest[0]] + rest[1..]
  }

  /** `lines.join("\n")`. */
  function JoinLines(lines: seq<Line>): string {
    if lines == [] then "" else if |lines| == 1 then lines[0] else lines[0] + "\n" + JoinLines(lines[1..])
  }

  lemma {:induction false} SplitJoin(text: string)
    ensures JoinLines(SplitLines(text)) == text
  {
    if text != "" {
      SplitJoin(text[1..]);
      var rest := SplitLines(text[1..]);
      assert text == [text[0]] + text[1..];
      if text[0] == '\n' {
        assert SplitLines(text)[1..] == rest;
      } else {
        var lines := SplitLines(text);
        assert lines[1..] == rest[1..];
        if |rest| > 1 { assert lines[0] + "\n" + JoinLines(lines[1..]) == [text[0]] + (rest[0] + "\n" + JoinLines(rest[1..])); }
      }
    }
  }

  /** A line in front of a text. */
  lemma {:induction false} SplitFirst(line: Line, text: string)
    requires '\n' !in line
    ensures SplitLines(line) == [line] && SplitLines(line + "\n" + text) == [line] + SplitLines(text)
  {
    if line == "" {
      assert line + "\n" + text == "\n" + text && ("\n" + text)[1..] == text;
    } else {
      var all := line + "\n" + text;
      assert forall c | c in line[1..] :: c in line;
      assert line[0] in line && all[0] == line[0] && all[1..] == line[1..] + "\n" + text && line == [line[0]] + line[1..];
      SplitFirst(line[1..], text);
      assert ([line[1..]] + SplitLines(text))[1..] == SplitLines(text) && [line[1..]][1..] == [];
    }
  }

  /** Joining and splitting give the lines back; no lines at all join to nothing. */
  lemma {:induction false} JoinSplit(lines: seq<Line>)
    requires forall l | l in lines :: '\n' !in l
    ensures lines == [] ==> JoinLines(lines) == ""
    ensures lines != [] ==> SplitLines(JoinLines(lines)) == lines
  {
    if lines != [] {
      assert lines[0] in lines;
      SplitFirst(lines[0], JoinLines(lines[1..]));
      if |lines| == 1 {
        assert lines == [lines[0]];
      } else {
        JoinSplit(lines[1..]);
        assert lines == [lines[0]] + lines[1..];
      }
    }
  }
}
