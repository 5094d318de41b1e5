/** Edit distance between tool names (src/tiers/registry.ts). A Name is its UTF-16 code units, as in the program. */
module EditDistances {
  import opened Options

  function Min(a: nat, b: nat): nat { if a <= b then a else b }

  type CodeUnit = u: int | 0 <= u < 0x1_0000
  type Name = seq<CodeUnit>

  /** The table entry for the first `i` characters of `a` and the first `j` of `b`. */
  function Entry(a: Name, b: Name, i: nat, j: nat): nat
    requires i <= |a| && j <= |b|
    decreases i + j
  {
    if i == 0 then j
    else if j == 0 then i
    else Min(Min(Entry(a, b, i - 1, j) + 1, Entry(a, b, i, j - 1) + 1),
             Entry(a, b, i - 1, j - 1) + if a[i - 1] == b[j - 1] then 0 else 1)
  }

  function Distance(a: Name, b: Name): nat { Entry(a, b, |a|, |b|) }

  ghost predicate IsRow(row: seq<nat>, a: Name, b: Name, i: nat, n: nat)
    requires i <= |a|
  {
    |row| == n && n <= |b| + 1 && forall j | 0 <= j < n :: row[j] == Entry(a, b, i, j)
  }

  /** Two rows of the table at a time. */
  method EditDistance(a: Name, b: Name) returns (d: nat)
    ensures d == Distance(a, b)
  {
    var prev: seq<nat> := seq(|b| + 1, j requires 0 <= j => j);
    for i := 1 to |a| + 1
      invariant IsRow(prev, a, b, i - 1, |b| + 1)
    {
      var cur: seq<nat> := [i];
      for j := 1 to |b| + 1
        invariant IsRow(cur, a, b, i, j)
      {
        cur := cur + [Min(Min(prev[j] + 1, cur[j - 1] + 1), prev[j - 1] + if a[i - 1] == b[j - 1] then 0 else 1)];
      }
      prev := cur;
    }
    d := prev[|b|];
  }

  // ---- Alignments ----

  /** One column of an alignment of two strings. */
  datatype Column = Same(c: CodeUnit) | Change(c: CodeUnit, d: CodeUnit) | OnlyNew(d: CodeUnit) | OnlyOld(c: CodeUnit)

  function Old(k: Column): Name { if k.OnlyNew? then [] else [k.c] }
  function New(k: Column): Name { match k case Same(c) => [c] case Change(_, d) => [d] case OnlyNew(d) => [d] case OnlyOld(_) => [] }

  function Price(k: Column): nat { if k.Same? then 0 else 1 }

  function Source(s: seq<Column>): Name { if s == [] then [] else Old(s[0]) + Source(s[1..]) }
  function Target(s: seq<Column>): Name { if s == [] then [] else New(s[0]) + Target(s[1..]) }
  function Cost(s: seq<Column>): nat { if s == [] then 0 else Price(s[0]) + Cost(s[1..]) }

  ghost predicate Aligns(s: seq<Column>, a: Name, b: Name) { Source(s) == a && Target(s) == b }

  lemma {:induction false} Push(s: seq<Column>, k: Column)
    ensures Source(s + [k]) == Source(s) + Old(k)
    ensures Target(s + [k]) == Target(s) + New(k)
    ensures Cost(s + [k]) == Cost(s) + Price(k)
  {
    hide Source, Target, Cost;
    Unfold(s + [k]);
    NoColumns();
    if s == [] {
      assert s + [k] == [k] && [k][1..] == [];
      assert Old(k) + [] == Old(k) == [] + Old(k) && New(k) + [] == New(k) == [] + New(k);
    } else {
      assert (s + [k])[0] == s[0] && (s + [k])[1..] == s[1..] + [k];
      Unfold(s);
      Push(s[1..], k);
      assert Old(s[0]) + (Source(s[1..]) + Old(k)) == (Old(s[0]) + Source(s[1..])) + Old(k);
      assert New(s[0]) + (Target(s[1..]) + New(k)) == (New(s[0]) + Target(s[1..])) + New(k);
    }
  }

  /** The alignment the table stands for. */
  function Best(a: Name, b: Name, i: nat, j: nat): seq<Column>
    requires i <= |a| && j <= |b|
    decreases i + j
  {
    if i == 0 && j == 0 then []
    else if i == 0 then Best(a, b, i, j - 1) + [OnlyNew(b[j - 1])]
    else if j == 0 then Best(a, b, i - 1, j) + [OnlyOld(a[i - 1])]
    else
      var diagonal := Entry(a, b, i - 1, j - 1) + if a[i - 1] == b[j - 1] then 0 else 1;
      if Entry(a, b, i, j) == diagonal then
        Best(a, b, i - 1, j - 1) + [if a[i - 1] == b[j - 1] then Same(a[i - 1]) else Change(a[i - 1], b[j - 1])]
      else if Entry(a, b, i, j) == Entry(a, b, i - 1, j) + 1 then Best(a, b, i - 1, j) + [OnlyOld(a[i - 1])]
      else Best(a, b, i, j - 1) + [OnlyNew(b[j - 1])]
  }

  /** The column accounts for what lies between two entries. */
  predicate Spans(k: Column, a: Name, b: Name, x: nat, i: nat, y: nat, j: nat) {
    && x <= i <= |a| && y <= j <= |b|
    && (if k.OnlyNew? then x == i else x + 1 == i && a[x] == k.c)
    && (if k.OnlyOld? then y == j else y + 1 == j && b[y] == if k.Same? then k.c else k.d)
  }

  lemma BestStep(a: Name, b: Name, i: nat, j: nat) returns (x: nat, y: nat, k: Column)
    requires i <= |a| && j <= |b| && i + j > 0
    ensures Spans(k, a, b, x, i, y, j) && x + y < i + j
    ensures Best(a, b, i, j) == Best(a, b, x, y) + [k] && Entry(a, b, i, j) == Entry(a, b, x, y) + Price(k)
  {
    hide Entry;
    EntryUnfold(a, b, i, j);
    var s := Best(a, b, i, j);
    k := s[|s| - 1];
    x, y := if k.OnlyNew? then i else i - 1, if k.OnlyOld? then j else j - 1;
  }

  /** An entry is within one column's price of the entries before it. */
  lemma EntryStep(a: Name, b: Name, x: nat, i: nat, y: nat, j: nat, k: Column)
    requires Spans(k, a, b, x, i, y, j)
    ensures Entry(a, b, i, j) <= Entry(a, b, x, y) + Price(k)
  {
    hide Entry;
    EntryUnfold(a, b, i, j);
    if i == 0 || j == 0 { EntryUnfold(a, b, x, y); }
  }

  lemma EntryUnfold(a: Name, b: Name, i: nat, j: nat)
    requires i <= |a| && j <= |b|
    ensures i == 0 ==> Entry(a, b, i, j) == j && (j > 0 ==> Entry(a, b, i, j - 1) == j - 1)
    ensures j == 0 ==> Entry(a, b, i, j) == i && (i > 0 ==> Entry(a, b, i - 1, j) == i - 1)
    ensures i > 0 && j > 0 ==>
      var diagonal := Entry(a, b, i - 1, j - 1) + if a[i - 1] == b[j - 1] then 0 else 1;
      Entry(a, b, i, j) == Min(Min(Entry(a, b, i - 1, j) + 1, Entry(a, b, i, j - 1) + 1), diagonal)
  {}

  lemma SpansExtend(s: seq<Column>, k: Column, a: Name, b: Name, x: nat, i: nat, y: nat, j: nat)
    requires Spans(k, a, b, x, i, y, j) && Aligns(s, a[..x], b[..y])
    ensures Aligns(s + [k], a[..i], b[..j])
  {
    hide Source, Target, Cost;
    Push(s, k);
    assert a[..i] == a[..x] + Old(k);
    assert b[..j] == b[..y] + New(k);
  }

  lemma {:induction false} BestAligns(a: Name, b: Name, i: nat, j: nat)
    requires i <= |a| && j <= |b|
    ensures Aligns(Best(a, b, i, j), a[..i], b[..j]) && Cost(Best(a, b, i, j)) == Entry(a, b, i, j)
    decreases i + j
  {
    if i == 0 && j == 0 {
      NoColumns();
      assert a[..i] == [] && b[..j] == [];
    } else {
      hide *;
      var x, y, k := BestStep(a, b, i, j);
      assert x <= |a| && y <= |b| by { SpansBounds(k, a, b, x, i, y, j); }
      BestAligns(a, b, x, y);
      Push(Best(a, b, x, y), k);
      SpansExtend(Best(a, b, x, y), k, a, b, x, i, y, j);
    }
  }

  lemma SpansBounds(k: Column, a: Name, b: Name, x: nat, i: nat, y: nat, j: nat)
    requires Spans(k, a, b, x, i, y, j)
    ensures x <= |a| && y <= |b|
  {}

  lemma NoColumns()
    ensures Source([]) == [] && Target([]) == [] && Cost([]) == 0
  {}

  /** The last column of an alignment spans the end of both texts. */
  lemma LastSpans(s: seq<Column>, a: Name, b: Name, i: nat, j: nat) returns (x: nat, y: nat)
    requires i <= |a| && j <= |b| && s != [] && Aligns(s, a[..i], b[..j])
    ensures Spans(s[|s| - 1], a, b, x, i, y, j) && Aligns(s[..|s| - 1], a[..x], b[..y])
    ensures Cost(s) == Cost(s[..|s| - 1]) + Price(s[|s| - 1])
  {
    hide Source, Target, Cost;
    var rest, k := s[..|s| - 1], s[|s| - 1];
    assert s == rest + [k];
    Push(rest, k);
    assert |Source(s)| == i && |Target(s)| == j;
    x, y := i - |Old(k)|, j - |New(k)|;
    assert Source(rest) == a[..x] by { assert Source(rest) == Source(s)[..x]; }
    assert Target(rest) == b[..y] by { assert Target(rest) == Target(s)[..y]; }
    assert !k.OnlyNew? ==> a[x] == Source(s)[x] == k.c;
    assert !k.OnlyOld? ==> b[y] == Target(s)[y] == New(k)[0];
  }

  lemma {:induction false} EntryIsLeast(s: seq<Column>, a: Name, b: Name, i: nat, j: nat)
    requires i <= |a| && j <= |b| && Aligns(s, a[..i], b[..j])
    ensures Entry(a, b, i, j) <= Cost(s)
    decreases |s|
  {
    if s == [] {
      assert i == |a[..i]| && j == |b[..j]|;
    } else {
      hide *;
      var x, y := LastSpans(s, a, b, i, j);
      SpansBounds(s[|s| - 1], a, b, x, i, y, j);
      EntryIsLeast(s[..|s| - 1], a, b, x, y);
      EntryStep(a, b, x, i, y, j, s[|s| - 1]);
    }
  }

  /** The distance is the least cost of an alignment. */
  lemma DistanceIsLeastCost(a: Name, b: Name, s: seq<Column>)
    ensures Aligns(Best(a, b, |a|, |b|), a, b) && Cost(Best(a, b, |a|, |b|)) == Distance(a, b)
    ensures Aligns(s, a, b) ==> Distance(a, b) <= Cost(s)
  {
    hide Source, Target, Cost, Best, Entry;
    assert a[..|a|] == a && b[..|b|] == b;
    BestAligns(a, b, |a|, |b|);
    if Aligns(s, a, b) { EntryIsLeast(s, a, b, |a|, |b|); }
  }

  // ---- Turning round and composing ----

  function FlipColumn(k: Column): Column {
    match k case Same(c) => Same(c) case Change(c, d) => Change(d, c) case OnlyNew(d) => OnlyOld(d) case OnlyOld(c) => OnlyNew(c)
  }

  function Flip(s: seq<Column>): seq<Column> { if s == [] then [] else [FlipColumn(s[0])] + Flip(s[1..]) }

  lemma {:induction false} FlipAligns(s: seq<Column>)
    ensures Source(Flip(s)) == Target(s) && Target(Flip(s)) == Source(s) && Cost(Flip(s)) == Cost(s)
  {
    if s != [] { FlipAligns(s[1..]); }
  }

  /** Columns for a change followed by a change: of `x`, then of `y`, where `y` starts from what `x` ends with. */
  function Compose(x: seq<Column>, y: seq<Column>): seq<Column>
    decreases |x| + |y|
  {
    if x == [] then y
    else if x[0].OnlyOld? then [x[0]] + Compose(x[1..], y)
    else if y == [] then x
    else if y[0].OnlyNew? then [y[0]] + Compose(x, y[1..])
    else Joined(x[0], y[0]) + Compose(x[1..], y[1..])
  }

  /** `x` leaves a character, and `y` takes it. */
  function Joined(x: Column, y: Column): seq<Column> {
    var from, to := Old(x), New(y);
    if from == [] && to == [] then []
    else if from == [] then [OnlyNew(to[0])]
    else if to == [] then [OnlyOld(from[0])]
    else if x.Same? && y.Same? then [Same(from[0])]
    else [Change(from[0], to[0])]
  }

  lemma Prepend(k: Column, s: seq<Column>)
    ensures Source([k] + s) == Old(k) + Source(s) && Target([k] + s) == New(k) + Target(s)
    ensures Cost([k] + s) == Price(k) + Cost(s)
  {
    assert ([k] + s)[1..] == s;
  }

  lemma JoinedAligns(x: Column, y: Column, s: seq<Column>)
    requires !x.OnlyOld? && !y.OnlyNew? && New(x) == Old(y)
    ensures Source(Joined(x, y) + s) == Old(x) + Source(s) && Target(Joined(x, y) + s) == New(y) + Target(s)
    ensures Cost(Joined(x, y) + s) <= Price(x) + Price(y) + Cost(s)
  {
    hide Source, Target, Cost;
    var j := Joined(x, y);
    if j == [] {
      assert j + s == s && [] + Source(s) == Source(s) && [] + Target(s) == Target(s);
    } else {
      Prepend(j[0], s);
      assert j == [j[0]];
    }
  }

  lemma {:induction false} ComposeAligns(x: seq<Column>, y: seq<Column>)
    requires Target(x) == Source(y)
    ensures Source(Compose(x, y)) == Source(x) && Target(Compose(x, y)) == Target(y) && Cost(Compose(x, y)) <= Cost(x) + Cost(y)
    decreases |x| + |y|
  {
    hide Source, Target, Cost, Joined;
    if x == [] {
      NothingIn(y);
    } else {
      Unfold(x);
      if x[0].OnlyOld? {
        assert New(x[0]) + Target(x[1..]) == Target(x[1..]);
        ComposeAligns(x[1..], y);
        Prepend(x[0], Compose(x[1..], y));
      } else if y == [] {
        NoColumns();
        assert false;
      } else {
        Unfold(y);
        if y[0].OnlyNew? {
          assert Old(y[0]) + Source(y[1..]) == Source(y[1..]);
          ComposeAligns(x, y[1..]);
          Prepend(y[0], Compose(x, y[1..]));
          assert Old(y[0]) + Source(x) == Source(x);
        } else {
          assert New(x[0])[0] == Target(x)[0] == Source(y)[0] == Old(y[0])[0];
          assert New(x[0]) == Old(y[0]);
          assert Target(x)[1..] == Target(x[1..]) && Source(y)[1..] == Source(y[1..]);
          ComposeAligns(x[1..], y[1..]);
          JoinedAligns(x[0], y[0], Compose(x[1..], y[1..]));
        }
      }
    }
  }

  lemma Unfold(s: seq<Column>)
    requires s != []
    ensures Source(s) == Old(s[0]) + Source(s[1..]) && Target(s) == New(s[0]) + Target(s[1..])
    ensures Cost(s) == Price(s[0]) + Cost(s[1..])
  {}

  lemma NothingIn(y: seq<Column>)
    requires Target([]) == Source(y)
    ensures Source(y) == Source([]) && Cost([]) == 0
  {}

  lemma DistanceIsSymmetric(a: Name, b: Name)
    ensures Distance(a, b) == Distance(b, a)
  {
    hide Source, Target, Cost, Best, Entry, Flip;
    var s, t := Best(a, b, |a|, |b|), Best(b, a, |b|, |a|);
    FlipAligns(s);
    FlipAligns(t);
    DistanceIsLeastCost(a, b, Flip(t));
    DistanceIsLeastCost(b, a, Flip(s));
  }

  lemma TriangleInequality(a: Name, b: Name, c: Name)
    ensures Distance(a, c) <= Distance(a, b) + Distance(b, c)
  {
    hide Source, Target, Cost, Best, Entry, Compose;
    var x, y := Best(a, b, |a|, |b|), Best(b, c, |b|, |c|);
    DistanceIsLeastCost(a, b, []);
    DistanceIsLeastCost(b, c, []);
    ComposeAligns(x, y);
    DistanceIsLeastCost(a, c, Compose(x, y));
  }

  // ---- Single-character edits ----

  datatype Edit = Insert(at: nat, c: CodeUnit) | Delete(at: nat) | Replace(at: nat, c: CodeUnit)

  /** The text after one edit; None when the position is outside. */
  function Edited(s: Name, e: Edit): Option<Name> {
    match e
    case Insert(at, c) => if at > |s| then None else Some(s[..at] + [c] + s[at..])
    case Delete(at) => if at >= |s| then None else Some(s[..at] + s[at + 1..])
    case Replace(at, c) => if at >= |s| then None else Some(s[..at] + [c] + s[at + 1..])
  }

  /** The script, edit by edit, turns `a` into `b`. */
  ghost predicate Turns(script: seq<Edit>, a: Name, b: Name)
    decreases |script|
  {
    if script == [] then a == b
    else Edited(a, script[0]).Some? && Turns(script[1..], Edited(a, script[0]).value, b)
  }

  function EditsOf(s: seq<Column>, at: nat): seq<Edit> {
    if s == [] then [] else
      match s[0]
      case Same(_) => EditsOf(s[1..], at + 1)
      case Change(_, d) => [Replace(at, d)] + EditsOf(s[1..], at + 1)
      case OnlyNew(d) => [Insert(at, d)] + EditsOf(s[1..], at + 1)
      case OnlyOld(_) => [Delete(at)] + EditsOf(s[1..], at)
  }

  /** An alignment can be carried out left to right, one edit per column that is not Same. */
  lemma {:induction false} EditsTurn(s: seq<Column>, done: Name)
    ensures Turns(EditsOf(s, |done|), done + Source(s), done + Target(s)) && |EditsOf(s, |done|)| == Cost(s)
    decreases |s|
  {
    hide Turns, Source, Target, Cost;
    if s == [] {
      NoColumns();
      NoEdits(done + []);
    } else {
      Unfold(s);
      var next := done + New(s[0]);
      assert done + Target(s) == next + Target(s[1..]);
      EditsTurn(s[1..], next);
      if s[0].Same? {
        assert done + Source(s) == next + Source(s[1..]);
      } else {
        var e := EditsOf(s, |done|)[0];
        assert Edited(done + Source(s), e) == Some(next + Source(s[1..])) by { EditHere(done, s[0], Source(s[1..])); }
        TurnsFirst(EditsOf(s, |done|), done + Source(s), done + Target(s), next + Source(s[1..]));
      }
    }
  }

  lemma NoEdits(a: Name)
    ensures Turns([], a, a)
  {}

  lemma TurnsFirst(script: seq<Edit>, a: Name, b: Name, next: Name)
    requires script != [] && Edited(a, script[0]) == Some(next) && Turns(script[1..], next, b)
    ensures Turns(script, a, b)
  {}

  lemma EditHere(done: Name, k: Column, rest: Name)
    requires !k.Same?
    ensures
      var e := if k.Change? then Replace(|done|, k.d) else if k.OnlyNew? then Insert(|done|, k.d) else Delete(|done|);
      Edited(done + (Old(k) + rest), e) == Some(done + New(k) + rest)
  {
    var s := done + (Old(k) + rest);
    assert s[..|done|] == done;
    if k.OnlyNew? {
      assert [] + rest == rest && s[|done|..] == rest;
    } else {
      assert s[|done| + 1..] == rest;
      if k.OnlyOld? { assert done + [] == done; }
    }
  }

  /** Copies of a text as it is. */
  function Keep(s: Name): seq<Column> { if s == [] then [] else [Same(s[0])] + Keep(s[1..]) }

  lemma {:induction false} KeepAligns(s: Name)
    ensures Source(Keep(s)) == s && Target(Keep(s)) == s && Cost(Keep(s)) == 0
  {
    if s != [] {
      KeepAligns(s[1..]);
      Prepend(Same(s[0]), Keep(s[1..]));
    }
  }

  lemma {:induction false} Concat(x: seq<Column>, y: seq<Column>)
    ensures Source(x + y) == Source(x) + Source(y) && Target(x + y) == Target(x) + Target(y) && Cost(x + y) == Cost(x) + Cost(y)
  {
    hide Source, Target, Cost;
    if x == [] {
      NoColumns();
      assert x + y == y && [] + Source(y) == Source(y) && [] + Target(y) == Target(y);
    } else {
      assert (x + y)[0] == x[0] && (x + y)[1..] == x[1..] + y;
      Unfold(x);
      Unfold(x + y);
      Concat(x[1..], y);
      assert Old(x[0]) + (Source(x[1..]) + Source(y)) == (Old(x[0]) + Source(x[1..])) + Source(y);
      assert New(x[0]) + (Target(x[1..]) + Target(y)) == (New(x[0]) + Target(x[1..])) + Target(y);
    }
  }

  /** Two texts that differ in one column are at most one apart. */
  lemma OneColumnApart(front: Name, k: Column, back: Name)
    ensures Distance(front + (Old(k) + back), front + (New(k) + back)) <= 1
  {
    hide Source, Target, Cost, Keep, Distance;
    var whole := Keep(front) + ([k] + Keep(back));
    KeepAligns(front);
    KeepAligns(back);
    Prepend(k, Keep(back));
    Concat(Keep(front), [k] + Keep(back));
    CheapColumn(whole, front + (Old(k) + back), front + (New(k) + back));
  }

  lemma CheapColumn(s: seq<Column>, a: Name, b: Name)
    requires Source(s) == a && Target(s) == b && Cost(s) <= 1
    ensures Distance(a, b) <= 1
  {
    hide Source, Target, Cost, Best, Distance;
    DistanceIsLeastCost(a, b, s);
  }

  /** One edit moves the distance by at most one. */
  lemma EditCostsOne(s: Name, e: Edit)
    requires Edited(s, e).Some?
    ensures Distance(s, Edited(s, e).value) <= 1
  {
    hide Distance;
    var t, front := Edited(s, e).value, s[..e.at];
    match e
    case Insert(at, c) =>
      OneColumnApart(front, OnlyNew(c), s[at..]);
      assert s == front + ([] + s[at..]);
      assert t == front + ([c] + s[at..]);
    case Delete(at) =>
      OneColumnApart(front, OnlyOld(s[at]), s[at + 1..]);
      assert s == front + ([s[at]] + s[at + 1..]);
      assert t == front + ([] + s[at + 1..]);
    case Replace(at, c) =>
      OneColumnApart(front, Change(s[at], c), s[at + 1..]);
      assert s == front + ([s[at]] + s[at + 1..]);
      assert t == front + ([c] + s[at + 1..]);
  }

  lemma NoDistance(a: Name)
    ensures Distance(a, a) == 0
  {
    hide Source, Target, Cost, Best, Entry, Keep;
    KeepAligns(a);
    DistanceIsLeastCost(a, a, Keep(a));
  }

  lemma {:induction false} ScriptsAreNoShorter(script: seq<Edit>, a: Name, b: Name)
    requires Turns(script, a, b)
    ensures Distance(a, b) <= |script|
    decreases |script|
  {
    hide Distance;
    if script == [] {
      NoDistance(a);
    } else {
      var next := Edited(a, script[0]).value;
      EditCostsOne(a, script[0]);
      ScriptsAreNoShorter(script[1..], next, b);
      TriangleInequality(a, next, b);
    }
  }

  /** The distance is the length of a shortest script of single-character edits: one of that length exists, and none
      is shorter. */
  lemma DistanceIsShortestScript(a: Name, b: Name)
    ensures exists script :: Turns(script, a, b) && |script| == Distance(a, b)
    ensures forall script | Turns(script, a, b) :: Distance(a, b) <= |script|
  {
    hide Distance, Source, Target, Cost, Best, Turns, EditsOf;
    var s := Best(a, b, |a|, |b|);
    DistanceIsLeastCost(a, b, []);
    EditsTurn(s, []);
    assert [] + a == a && [] + b == b;
    assert Turns(EditsOf(s, 0), a, b);
    forall script | Turns(script, a, b) ensures Distance(a, b) <= |script| { ScriptsAreNoShorter(script, a, b); }
  }
}
