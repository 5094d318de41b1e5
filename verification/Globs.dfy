/** The glob compiler (src/history/sweepPlanner.ts): the regular expression it prints means what the glob
    means. Characters are UTF-16 code units of the basic plane. */
module Globs {
  import opened Options

  // ---- Globs, directly ----

  /** `**` any run of characters, `*` any run without a slash, `?` one character but a slash, anything else
      itself. Stars pair up from the left. */
  predicate GlobMatches(glob: string, path: string)
    decreases |glob|, |path|
  {
    if glob == "" then path == ""
    else if glob[0] == '*' && |glob| > 1 && glob[1] == '*' then
      GlobMatches(glob[2..], path) || (path != "" && GlobMatches(glob, path[1..]))
    else if glob[0] == '*' then
      GlobMatches(glob[1..], path) || (path != "" && path[0] != '/' && GlobMatches(glob, path[1..]))
    else
      path != "" && (if glob[0] == '?' then path[0] != '/' else path[0] == glob[0]) && GlobMatches(glob[1..], path[1..])
  }

  // ---- The regular expressions of ECMAScript that the compiler uses ----

  datatype CharClass = Dot | NotSlash | Literal(c: char)

  datatype Atom = Atom(cls: CharClass, star: bool)

  predicate LineTerminator(c: char) { c == '\n' || c == '\r' || c == '\U{2028}' || c == '\U{2029}' }

  predicate Accepts(cls: CharClass, c: char) {
    match cls
    case Dot => !LineTerminator(c)
    case NotSlash => c != '/'
    case Literal(l) => c == l
  }

  predicate SyntaxCharacter(c: char) { c in "^$\\.*+?()[]{}|" }

  /** The class at the front of an expression and the characters it takes. */
  function ReadClass(re: string): (r: (Option<CharClass>, nat))
    requires re != ""
    ensures 1 <= r.1 <= |re|
  {
    if re[0] == '.' then (Some(Dot), 1)
    else if |re| >= 4 && re[0] == '[' && re[1] == '^' && re[2] == '/' && re[3] == ']' then (Some(NotSlash), 4)
    else if re[0] == '\\' && |re| >= 2 && SyntaxCharacter(re[1]) then (Some(Literal(re[1])), 2)
    else if !SyntaxCharacter(re[0]) then (Some(Literal(re[0])), 1)
    else (None, 1)
  }

  /** Reads an expression made of `.`, `[^/]`, escaped syntax characters and plain characters, each with an
      optional `*`. Anything else is refused. */
  function ParseRegExp(re: string): Option<seq<Atom>>
    decreases |re|
  {
    if re == "" then Some([]) else
      var (cls, used) := ReadClass(re);
      var star := used < |re| && re[used] == '*';
      match (cls, ParseRegExp(re[if star then used + 1 else used..]))
      case (Some(c), Some(rest)) => Some([Atom(c, star)] + rest)
      case _ => None
  }

  /** The whole of `s` is matched, as `^...$` demands. */
  predicate RegExpMatches(atoms: seq<Atom>, s: string)
    decreases |atoms|
  {
    if atoms == [] then s == ""
    else if atoms[0].star then
      exists k | 0 <= k <= |s| ::
        (forall i | 0 <= i < k :: Accepts(atoms[0].cls, s[i])) && RegExpMatches(atoms[1..], s[k..])
    else s != "" && Accepts(atoms[0].cls, s[0]) && RegExpMatches(atoms[1..], s[1..])
  }

  // ---- The compiler ----

  predicate Escaped(c: char) { c in "\\^$.|+()[]{}" }

  /** What one step emits, and how much of the glob it takes. */
  function EmitStep(glob: string): (step: (string, nat))
    requires glob != ""
    ensures 1 <= step.1 <= |glob|
  {
    if glob[0] == '*' && |glob| > 1 && glob[1] == '*' then (".*", 2)
    else if glob[0] == '*' then ("[^/]*", 1)
    else if glob[0] == '?' then ("[^/]", 1)
    else if Escaped(glob[0]) then ("\\" + [glob[0]], 1)
    else ([glob[0]], 1)
  }

  function Emit(glob: string): string
    decreases |glob|
  {
    if glob == "" then "" else EmitStep(glob).0 + Emit(glob[EmitStep(glob).1..])
  }

  function EmittedAtom(glob: string): Atom
    requires glob != ""
  {
    if glob[0] == '*' then Atom(if |glob| > 1 && glob[1] == '*' then Dot else NotSlash, true)
    else Atom(if glob[0] == '?' then NotSlash else Literal(glob[0]), false)
  }

  function EmittedAtoms(glob: string): seq<Atom>
    decreases |glob|
  {
    if glob == "" then [] else [EmittedAtom(glob)] + EmittedAtoms(glob[EmitStep(glob).1..])
  }

  lemma EmitFrom(glob: string, i: nat)
    requires i < |glob|
    ensures var step := EmitStep(glob[i..]);
            && i + step.1 <= |glob|
            && Emit(glob[i..]) == step.0 + Emit(glob[i + step.1..])
            && step == if glob[i] == '*' && i + 1 < |glob| && glob[i + 1] == '*' then (".*", 2)
                       else if glob[i] == '*' then ("[^/]*", 1)
                       else if glob[i] == '?' then ("[^/]", 1)
                       else if Escaped(glob[i]) then ("\\" + [glob[i]], 1)
                       else ([glob[i]], 1)
  {
    var rest := glob[i..];
    assert rest[EmitStep(rest).1..] == glob[i + EmitStep(rest).1..];
  }

  lemma Regroup(a: string, b: string, c: string)
    ensures a + (b + c) == a + b + c
  {}

  /** `globToRegExp`, without the anchors. */
  method GlobToRegExp(glob: string) returns (re: string)
    ensures re == Emit(glob)
  {
    hide Emit, EmitStep, Escaped;
    re := "";
    var i := 0;
    assert glob[0..] == glob;
    while i < |glob|
      invariant 0 <= i <= |glob|
      invariant re + Emit(glob[i..]) == Emit(glob)
      decreases |glob| - i
    {
      var c := glob[i];
      EmitFrom(glob, i);
      ghost var step := EmitStep(glob[i..]);
      Regroup(re, step.0, Emit(glob[i + step.1..]));
      if c == '*' {
        if i + 1 < |glob| && glob[i + 1] == '*' {
          re := re + ".*";
          i := i + 1;
        } else {
          re := re + "[^/]*";
        }
      } else if c == '?' {
        re := re + "[^/]";
      } else if Escaped(c) {
        re := re + ("\\" + [c]);
      } else {
        re := re + [c];
      }
      i := i + 1;
    }
    EmitNothing();
    assert glob[i..] == "";
  }

  lemma EmitNothing()
    ensures Emit("") == ""
  {}

  lemma NoLeadingStar(glob: string)
    ensures Emit(glob) != "" ==> Emit(glob)[0] != '*'
  {}

  lemma ReadEmitted(glob: string, rest: string)
    requires glob != ""
    ensures var p, a := EmitStep(glob).0, EmittedAtom(glob);
            && ReadClass(p + rest) == (Some(a.cls), if a.star then |p| - 1 else |p|)
            && (a.star ==> p[|p| - 1] == '*')
  {
    var p := EmitStep(glob).0;
    var re := p + rest;
    assert forall k | 0 <= k < |p| :: re[k] == p[k];
  }

  lemma ParseStep(glob: string, rest: string)
    requires glob != "" && (rest != "" ==> rest[0] != '*') && ParseRegExp(rest).Some?
    ensures ParseRegExp(EmitStep(glob).0 + rest) == Some([EmittedAtom(glob)] + ParseRegExp(rest).value)
  {
    var p := EmitStep(glob).0;
    ReadEmitted(glob, rest);
    hide ReadClass, EmitStep, EmittedAtom;
    assert (p + rest)[|p|..] == rest;
  }

  /** The emitted text is a valid expression and reads back as one atom per glob element. */
  lemma {:induction false} EmittedParses(glob: string)
    ensures ParseRegExp(Emit(glob)) == Some(EmittedAtoms(glob))
    decreases |glob|
  {
    if glob != "" {
      var rest := glob[EmitStep(glob).1..];
      EmittedParses(rest);
      NoLeadingStar(rest);
      ParseStep(glob, Emit(rest));
    }
  }

  lemma StarUnrolls(atoms: seq<Atom>, s: string)
    requires atoms != [] && atoms[0].star
    ensures RegExpMatches(atoms, s) <==>
            RegExpMatches(atoms[1..], s) || (s != "" && Accepts(atoms[0].cls, s[0]) && RegExpMatches(atoms, s[1..]))
  {
    var cls, rest := atoms[0].cls, atoms[1..];
    if RegExpMatches(atoms, s) {
      var k :| 0 <= k <= |s| && (forall i | 0 <= i < k :: Accepts(cls, s[i])) && RegExpMatches(rest, s[k..]);
      if k == 0 {
        assert s[0..] == s;
      } else {
        assert s[1..][k - 1..] == s[k..];
        assert forall i | 0 <= i < k - 1 :: Accepts(cls, s[1..][i]);
      }
    }
    if RegExpMatches(rest, s) { assert s[0..] == s; }
    if s != "" && Accepts(cls, s[0]) && RegExpMatches(atoms, s[1..]) {
      var t := s[1..];
      var k :| 0 <= k <= |t| && (forall i | 0 <= i < k :: Accepts(cls, t[i])) && RegExpMatches(rest, t[k..]);
      assert s[k + 1..] == t[k..];
      assert forall i | 0 <= i < k + 1 :: i == 0 || s[i] == t[i - 1];
    }
  }

  /** Two stars in a row somewhere. */
  predicate HasDoubleStar(glob: string) { exists i | 0 <= i < |glob| - 1 :: glob[i] == '*' && glob[i + 1] == '*' }

  predicate StartsDouble(glob: string) { |glob| > 1 && glob[0] == '*' && glob[1] == '*' }

  lemma DoubleStarLater(glob: string)
    requires glob != "" && !StartsDouble(glob)
    ensures EmitStep(glob).1 == 1 && (HasDoubleStar(glob) <==> HasDoubleStar(glob[1..]))
  {
    var rest := glob[1..];
    if HasDoubleStar(glob) {
      var i :| 0 <= i < |glob| - 1 && glob[i] == '*' && glob[i + 1] == '*';
      assert rest[i - 1] == '*' && rest[i - 1 + 1] == '*';
    }
    if HasDoubleStar(rest) {
      var i :| 0 <= i < |rest| - 1 && rest[i] == '*' && rest[i + 1] == '*';
      assert glob[i + 1] == '*' && glob[i + 1 + 1] == '*';
    }
  }

  lemma DoubleStarFirst(glob: string)
    requires StartsDouble(glob)
    ensures HasDoubleStar(glob)
  {}

  predicate OneLine(path: string) { forall c | c in path :: !LineTerminator(c) }

  /** The expression accepts only paths the glob matches. It accepts all of them where no `.` meets a line
      terminator. */
  lemma {:induction false} EmittedMeans(glob: string, path: string)
    ensures RegExpMatches(EmittedAtoms(glob), path) ==> GlobMatches(glob, path)
    ensures (OneLine(path) || !HasDoubleStar(glob)) && GlobMatches(glob, path) ==> RegExpMatches(EmittedAtoms(glob), path)
    decreases |glob|, |path|
  {
    hide HasDoubleStar;
    if glob != "" {
      var rest := glob[EmitStep(glob).1..];
      var atoms := EmittedAtoms(glob);
      assert atoms[1..] == EmittedAtoms(rest);
      if StartsDouble(glob) { DoubleStarFirst(glob); } else { DoubleStarLater(glob); }
      if path != "" { assert path[0] in path && forall c | c in path[1..] :: c in path; }
      if glob[0] == '*' {
        StarUnrolls(atoms, path);
        EmittedMeans(rest, path);
        if path != "" { EmittedMeans(glob, path[1..]); }
      } else if path != "" {
        EmittedMeans(rest, path[1..]);
      }
    }
  }

  /** `globToRegExp(glob).test(path)`. */
  predicate Test(glob: string, path: string) {
    var parsed := ParseRegExp(Emit(glob));
    parsed.Some? && RegExpMatches(parsed.value, path)
  }

  /** The compiled expression never accepts more than the glob means, and exactly that where the path has no
      line terminator or the glob no `**`. */
  lemma GlobToRegExpPreservesMeaning(glob: string, path: string)
    ensures ParseRegExp(Emit(glob)).Some?
    ensures Test(glob, path) ==> GlobMatches(glob, path)
    ensures OneLine(path) || !HasDoubleStar(glob) ==> (Test(glob, path) <==> GlobMatches(glob, path))
  {
    hide HasDoubleStar, OneLine;
    EmittedParses(glob);
    EmittedMeans(glob, path);
  }

  /** `**` is documented to match any characters; a path with a line feed shows it does not. */
  lemma LineTerminatorIsNotMatched()
    ensures GlobMatches("**", "\n") && !Test("**", "\n")
  {
    TwoStars("\n");
    assert "\n"[0] in "\n";
  }

  lemma TwoStars(path: string)
    ensures GlobMatches("**", path) && (Test("**", path) <==> OneLine(path))
  {
    EmittedParses("**");
    var atoms := EmittedAtoms("**");
    assert atoms == [Atom(Dot, true)];
    DotsTakeOneLine(atoms, path);
    AnyRun("**", path, "");
    assert path + "" == path;
  }

  lemma {:induction false} DotsTakeOneLine(atoms: seq<Atom>, path: string)
    requires atoms == [Atom(Dot, true)]
    ensures RegExpMatches(atoms, path) <==> OneLine(path)
    decreases |path|
  {
    StarUnrolls(atoms, path);
    if path != "" {
      DotsTakeOneLine(atoms, path[1..]);
      assert forall c :: c in path <==> c == path[0] || c in path[1..];
    }
  }

  /** A path is matched by the expression of every glob as by the glob exactly when it has no line
      terminator. */
  lemma MeaningOnPath(path: string)
    ensures (forall glob :: Test(glob, path) <==> GlobMatches(glob, path)) <==> OneLine(path)
  {
    hide Test, GlobMatches, OneLine, HasDoubleStar;
    TwoStars(path);
    forall glob | OneLine(path) ensures Test(glob, path) <==> GlobMatches(glob, path) {
      GlobToRegExpPreservesMeaning(glob, path);
    }
  }

  // ---- Which globs keep their meaning on every path ----

  lemma {:induction false} AnyRun(glob: string, run: string, rest: string)
    requires |glob| > 1 && glob[0] == '*' && glob[1] == '*' && GlobMatches(glob[2..], rest)
    ensures GlobMatches(glob, run + rest)
    decreases |run|
  {
    if run == "" {
      assert run + rest == rest;
    } else {
      assert (run + rest)[1..] == run[1..] + rest;
      AnyRun(glob, run[1..], rest);
    }
  }

  /** A path the glob matches, with `run` for every `**`. */
  function Sample(glob: string, run: string): string
    decreases |glob|
  {
    if glob == "" then ""
    else
      (if StartsDouble(glob) then run
       else if glob[0] == '*' then "" else if glob[0] == '?' then "a" else [glob[0]]) + Sample(glob[EmitStep(glob).1..], run)
  }

  lemma {:induction false} SampleMatches(glob: string, run: string)
    ensures GlobMatches(glob, Sample(glob, run))
    decreases |glob|
  {
    if glob != "" {
      var rest := glob[EmitStep(glob).1..];
      SampleMatches(rest, run);
      if StartsDouble(glob) {
        AnyRun(glob, run, Sample(rest, run));
      } else if glob[0] == '*' {
        assert "" + Sample(rest, run) == Sample(rest, run);
      } else {
        assert Sample(glob, run)[1..] == Sample(rest, run);
      }
    }
  }

  /** How often a line feed is followed by a slash. */
  function Breaks(s: string): nat {
    if |s| < 2 then 0 else Breaks(s[1..]) + if s[0] == '\n' && s[1] == '/' then 1 else 0
  }

  lemma {:induction false} BreaksSplit(a: string, b: string)
    ensures Breaks(a) + Breaks(b) <= Breaks(a + b) <= Breaks(a) + Breaks(b) + 1
  {
    if a == "" {
      assert a + b == b;
    } else {
      assert (a + b)[1..] == a[1..] + b;
      BreaksSplit(a[1..], b);
      if |a| == 1 { assert a[1..] + b == b; }
    }
  }

  lemma {:induction false} NoBreaks(cls: CharClass, s: string)
    requires (cls.Dot? || cls.NotSlash?) && forall i | 0 <= i < |s| :: Accepts(cls, s[i])
    ensures Breaks(s) == 0
  {
    if |s| >= 2 { NoBreaks(cls, s[1..]); }
  }

  predicate Classes(atoms: seq<Atom>) { forall a | a in atoms :: a.star ==> a.cls.Dot? || a.cls.NotSlash? }

  /** No atom takes a line feed and the slash after it, so each break falls between two atoms. */
  lemma {:induction false} BreaksBound(atoms: seq<Atom>, s: string)
    requires Classes(atoms) && RegExpMatches(atoms, s)
    ensures Breaks(s) <= |atoms|
  {
    if atoms != [] {
      assert Classes(atoms[1..]) && atoms[0] in atoms;
      var k := 1;
      if atoms[0].star {
        k :| 0 <= k <= |s| && (forall i | 0 <= i < k :: Accepts(atoms[0].cls, s[i])) && RegExpMatches(atoms[1..], s[k..]);
        NoBreaks(atoms[0].cls, s[..k]);
      }
      BreaksBound(atoms[1..], s[k..]);
      BreaksSplit(s[..k], s[k..]);
      assert s[..k] + s[k..] == s;
    }
  }

  lemma {:induction false} EmittedClasses(glob: string)
    ensures Classes(EmittedAtoms(glob)) && |EmittedAtoms(glob)| <= |glob|
    decreases |glob|
  {
    if glob != "" { EmittedClasses(glob[EmitStep(glob).1..]); }
  }

  function Run(n: nat): string { if n == 0 then "" else "\n/" + Run(n - 1) }

  lemma {:induction false} RunBreaks(n: nat)
    ensures Breaks(Run(n)) >= n
  {
    if n > 0 {
      RunBreaks(n - 1);
      BreaksSplit("\n/", Run(n - 1));
      assert Breaks("\n/") == 1;
    }
  }

  lemma {:induction false} SampleBreaks(glob: string, run: string)
    requires HasDoubleStar(glob)
    ensures Breaks(Sample(glob, run)) >= Breaks(run)
    decreases |glob|
  {
    hide HasDoubleStar, Breaks;
    DoubleStarIsLong(glob);
    var rest := glob[EmitStep(glob).1..];
    var first := if StartsDouble(glob) then run else if glob[0] == '*' then "" else if glob[0] == '?' then "a" else [glob[0]];
    BreaksSplit(first, Sample(rest, run));
    if !StartsDouble(glob) {
      DoubleStarLater(glob);
      SampleBreaks(rest, run);
    }
  }

  lemma DoubleStarIsLong(glob: string)
    requires HasDoubleStar(glob)
    ensures glob != ""
  {}

  /** A glob means its expression on every path exactly when it has no `**`. */
  lemma MeaningOfGlob(glob: string)
    ensures (forall path :: Test(glob, path) <==> GlobMatches(glob, path)) <==> !HasDoubleStar(glob)
  {
    hide HasDoubleStar, GlobMatches, OneLine, Breaks, Sample, Run, RegExpMatches, EmittedAtoms, Emit, Classes;
    if HasDoubleStar(glob) {
      var path := Sample(glob, Run(|glob| + 1));
      SampleMatches(glob, Run(|glob| + 1));
      RunBreaks(|glob| + 1);
      SampleBreaks(glob, Run(|glob| + 1));
      EmittedParses(glob);
      EmittedClasses(glob);
      if Test(glob, path) { BreaksBound(EmittedAtoms(glob), path); }
      assert !Test(glob, path);
    }
    forall path | !HasDoubleStar(glob) ensures Test(glob, path) <==> GlobMatches(glob, path) {
      GlobToRegExpPreservesMeaning(glob, path);
    }
  }

  // ---- Prefixes of matched paths ----

  /** Whether a path that starts with `s` can be matched: `s` is eaten up by some atoms, and the rest can always be
      filled in. */
  predicate Leads(atoms: seq<Atom>, s: string)
    decreases |atoms|, |s|
  {
    if s == "" then true
    else if atoms == [] then false
    else if atoms[0].star then Leads(atoms[1..], s) || (Accepts(atoms[0].cls, s[0]) && Leads(atoms, s[1..]))
    else Accepts(atoms[0].cls, s[0]) && Leads(atoms[1..], s[1..])
  }

  lemma {:induction false} SomeMatch(atoms: seq<Atom>) returns (s: string)
    ensures RegExpMatches(atoms, s)
  {
    if atoms == [] {
      s := "";
    } else {
      var rest := SomeMatch(atoms[1..]);
      if atoms[0].star {
        s := rest;
        StarUnrolls(atoms, s);
      } else {
        var c := if atoms[0].cls.Literal? then atoms[0].cls.c else 'a';
        s := [c] + rest;
        assert s[1..] == rest;
      }
    }
  }

  lemma {:induction false} LeadsSomewhere(atoms: seq<Atom>, s: string) returns (y: string)
    requires Leads(atoms, s)
    ensures RegExpMatches(atoms, s + y)
    decreases |atoms|, |s|
  {
    hide RegExpMatches;
    if s == "" {
      y := SomeMatch(atoms);
      assert s + y == y;
    } else if atoms[0].star && Leads(atoms[1..], s) {
      y := LeadsSomewhere(atoms[1..], s);
      StarUnrolls(atoms, s + y);
    } else {
      y := LeadsSomewhere(if atoms[0].star then atoms else atoms[1..], s[1..]);
      assert (s + y)[1..] == s[1..] + y && (s + y)[0] == s[0];
      if atoms[0].star { StarUnrolls(atoms, s + y); } else { OneMore(atoms, s + y); }
    }
  }

  lemma OneMore(atoms: seq<Atom>, s: string)
    requires atoms != [] && !atoms[0].star && s != ""
    ensures RegExpMatches(atoms, s) <==> Accepts(atoms[0].cls, s[0]) && RegExpMatches(atoms[1..], s[1..])
  {}

  lemma {:induction false} MatchLeads(atoms: seq<Atom>, s: string, y: string)
    requires RegExpMatches(atoms, s + y)
    ensures Leads(atoms, s)
    decreases |atoms|, |s|
  {
    if s != "" && atoms != [] {
      hide RegExpMatches;
      assert (s + y)[1..] == s[1..] + y && (s + y)[0] == s[0];
      if atoms[0].star {
        StarUnrolls(atoms, s + y);
        if RegExpMatches(atoms[1..], s + y) { MatchLeads(atoms[1..], s, y); } else { MatchLeads(atoms, s[1..], y); }
      } else {
        OneMore(atoms, s + y);
        MatchLeads(atoms[1..], s[1..], y);
      }
    }
  }

  predicate Starts(glob: string, s: string) { Leads(EmittedAtoms(glob), s) }

  /** The expression of a glob accepts some path that starts with `s` exactly when its atoms can eat `s` up. */
  lemma StartsIff(glob: string, s: string)
    ensures (exists y :: Test(glob, s + y)) <==> Starts(glob, s)
  {
    hide RegExpMatches, Leads, EmittedAtoms, Emit, ParseRegExp;
    EmittedParses(glob);
    if y :| Test(glob, s + y) { MatchLeads(EmittedAtoms(glob), s, y); }
    if Starts(glob, s) {
      var y := LeadsSomewhere(EmittedAtoms(glob), s);
      assert Test(glob, s + y);
    }
  }

  predicate MatchesAnyGlob(path: string, patterns: seq<string>) {
    exists p | p in patterns :: Test(p, path)
  }
}
