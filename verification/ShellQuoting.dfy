/** Nested shell quoting (src/ssh/command.ts, src/tools/pctHelpers.ts, src/tools/dockerHelpers.ts) against a reader of
    shell words after the Shell Command Language of POSIX.1-2017: escape character (section 2.2.1), single quotes
    (2.2.2) and token recognition (2.3). Unquoted characters that start other kinds of quoting, expansion, comments or
    patterns are refused by the reader, so a successful reading contains none of them. */
module ShellQuoting {
  import opened Options
  import opened Numerals

  // ---- Reading ----

  datatype Token = Word(text: string, quoted: bool) | IoNumber(text: string) | Operator(op: string)

  /** The word being read. */
  datatype Pending = NoWord | InWord(text: string, quoted: bool)

  predicate IsBlank(c: char) { c == ' ' || c == '\t' }
  predicate IsOperatorChar(c: char) { c in "&|;<>()\n" }
  predicate IsRefused(c: char) { c in "\"$`*?[#~" }
  predicate IsOrdinary(c: char) { !IsBlank(c) && !IsOperatorChar(c) && !IsRefused(c) && c != '\'' && c != '\\' }
  predicate IsDigit(c: char) { '0' <= c <= '9' }

  function TwoCharOperators(): set<string> { {"&&", "||", ";;", "<<", ">>", "<&", ">&", "<>", ">|"} }

  /** The longest operator the text starts with. */
  function FirstOperator(s: string): (op: string)
    requires s != ""
    ensures 1 <= |op| <= |s| && op == s[..|op|]
  {
    if |s| >= 2 && s[..2] in TwoCharOperators() then s[..2] else s[..1]
  }

  function Extend(p: Pending, text: string, quoted: bool): Pending {
    match p case NoWord => InWord(text, quoted) case InWord(t, q) => InWord(t + text, q || quoted)
  }

  function Flush(p: Pending): seq<Token> {
    match p case NoWord => [] case InWord(t, q) => [Word(t, q)]
  }

  /** Digits right before a redirection are its file descriptor. */
  function FlushBefore(p: Pending, op: string): seq<Token> {
    if p.InWord? && !p.quoted && (forall c | c in p.text :: IsDigit(c)) && op != "" && (op[0] == '<' || op[0] == '>')
    then [IoNumber(p.text)]
    else Flush(p)
  }

  /** Where the first single quote is. */
  function FirstQuote(s: string): (r: Option<nat>)
    ensures r.Some? ==> r.value < |s| && s[r.value] == '\'' && '\'' !in s[..r.value]
  {
    if s == "" then None
    else if s[0] == '\'' then Some(0)
    else match FirstQuote(s[1..]) case None => None case Some(k) => Some(k + 1)
  }

  function After(first: seq<Token>, rest: Option<seq<Token>>): Option<seq<Token>> {
    match rest case None => None case Some(tokens) => Some(first + tokens)
  }

  /** The tokens of the rest of a line, given the word read so far. */
  function Lex(s: string, p: Pending): Option<seq<Token>>
    decreases |s|
  {
    if s == "" then Some(Flush(p))
    else if s[0] == '\'' then
      match FirstQuote(s[1..])
      case None => None
      case Some(k) => Lex(s[k + 2..], Extend(p, s[1..k + 1], true))
    else if s[0] == '\\' then
      if |s| == 1 then None
      else if s[1] == '\n' then Lex(s[2..], p)
      else Lex(s[2..], Extend(p, [s[1]], true))
    else if IsBlank(s[0]) then After(Flush(p), Lex(s[1..], NoWord))
    else if IsOperatorChar(s[0]) then
      var op := FirstOperator(s);
      After(FlushBefore(p, op) + [Operator(op)], Lex(s[|op|..], NoWord))
    else if IsRefused(s[0]) then None
    else Lex(s[1..], Extend(p, [s[0]], false))
  }

  function Tokens(line: string): Option<seq<Token>> { Lex(line, NoWord) }

  // ---- Quoting ----

  function EscapeQuotes(s: string): string {
    if s == "" then "" else (if s[0] == '\'' then "'\\''" else [s[0]]) + EscapeQuotes(s[1..])
  }

  function ShSingleQuote(s: string): string { "'" + EscapeQuotes(s) + "'" }

  lemma {:induction false} EscapePlain(x: string, y: string)
    requires '\'' !in x
    ensures EscapeQuotes(x + y) == x + EscapeQuotes(y)
  {
    if x == "" {
      assert x + y == y;
    } else {
      assert (x + y)[0] == x[0] && (x + y)[1..] == x[1..] + y;
      assert '\'' !in x[1..] && x[0] != '\'';
      EscapePlain(x[1..], y);
      assert [x[0]] + (x[1..] + EscapeQuotes(y)) == x + EscapeQuotes(y);
    }
  }

  lemma {:induction false} FirstQuoteAt(x: string, y: string)
    requires '\'' !in x
    ensures FirstQuote(x + "'" + y) == Some(|x|)
  {
    if x == "" {
      assert x + "'" + y == "'" + y;
    } else {
      assert (x + "'" + y)[1..] == x[1..] + "'" + y;
      assert '\'' !in x[1..] && x[0] != '\'';
      FirstQuoteAt(x[1..], y);
    }
  }

  /** Reading a run in quotes: what stands between them joins the word. */
  lemma LexQuotedRun(x: string, rest: string, p: Pending)
    requires '\'' !in x
    ensures Lex("'" + x + "'" + rest, p) == Lex(rest, Extend(p, x, true))
  {
    var s := "'" + x + "'" + rest;
    FirstQuoteAt(x, rest);
    assert s[1..] == x + "'" + rest;
    assert s[|x| + 2..] == rest && s[1..|x| + 1] == x;
  }

  lemma LexEscapedQuote(rest: string, p: Pending)
    ensures Lex("\\'" + rest, p) == Lex(rest, Extend(p, "'", true))
  {
    assert ("\\'" + rest)[2..] == rest;
  }

  lemma {:induction false} NoQuote(s: string)
    requires FirstQuote(s) == None
    ensures '\'' !in s
  {
    if s != "" {
      NoQuote(s[1..]);
      assert s == [s[0]] + s[1..];
    }
  }

  lemma QuoteSplits(x: string, y: string)
    requires '\'' !in x
    ensures ShSingleQuote(x + "'" + y) == "'" + x + "'" + ("\\'" + ShSingleQuote(y))
  {
    assert x + "'" + y == x + ("'" + y);
    EscapePlain(x, "'" + y);
    assert ("'" + y)[1..] == y;
    assert EscapeQuotes("'" + y) == "'\\''" + EscapeQuotes(y);
  }

  lemma QuotePlain(x: string)
    requires '\'' !in x
    ensures ShSingleQuote(x) == "'" + x + "'"
  {
    EscapePlain(x, "");
    assert x + "" == x;
  }

  lemma ExtendTwice(p: Pending, a: string, b: string, c: string)
    ensures Extend(Extend(Extend(p, a, true), b, true), c, true) == Extend(p, a + b + c, true)
  {
    if p.InWord? { assert ((p.text + a) + b) + c == p.text + (a + b + c); }
  }

  /** A quoted text, read anywhere in a line, joins the word with exactly that text. */
  lemma {:induction false} QuotedReadsBack(s: string, rest: string, p: Pending)
    ensures Lex(ShSingleQuote(s) + rest, p) == Lex(rest, Extend(p, s, true))
    decreases |s|
  {
    hide Lex, EscapeQuotes, Extend, ShSingleQuote;
    match FirstQuote(s)
    case None =>
      NoQuote(s);
      QuotePlain(s);
      LexQuotedRun(s, rest, p);
    case Some(k) =>
      var x, y := s[..k], s[k + 1..];
      assert s == x + "'" + y;
      QuoteSplits(x, y);
      var onward := ShSingleQuote(y) + rest;
      assert "'" + x + "'" + ("\\'" + ShSingleQuote(y)) + rest == "'" + x + "'" + ("\\'" + onward);
      LexQuotedRun(x, "\\'" + onward, p);
      LexEscapedQuote(onward, Extend(p, x, true));
      QuotedReadsBack(y, rest, Extend(Extend(p, x, true), "'", true));
      ExtendTwice(p, x, "'", y);
  }

  /** On its own, a quoted text is one word: that text. */
  lemma QuotedIsOneWord(s: string)
    ensures Tokens(ShSingleQuote(s)) == Some([Word(s, true)])
  {
    QuotedReadsBack(s, "", NoWord);
    assert ShSingleQuote(s) + "" == ShSingleQuote(s);
  }

  // ---- Lines in pieces ----

  datatype Piece = Plain(word: string) | Quoted(s: string) | Space | Op(op: string)

  function PieceText(x: Piece): string {
    match x case Plain(w) => w case Quoted(s) => ShSingleQuote(s) case Space => " " case Op(op) => op
  }

  function Text(pieces: seq<Piece>): string {
    if pieces == [] then "" else PieceText(pieces[0]) + Text(pieces[1..])
  }

  predicate IsOperator(op: string) { (|op| == 1 && IsOperatorChar(op[0])) || op in TwoCharOperators() }

  /** Plain words are ordinary characters and operators are operators. */
  predicate IsPiece(x: Piece) {
    match x
    case Plain(w) => w != "" && forall c | c in w :: IsOrdinary(c)
    case Op(op) => IsOperator(op)
    case _ => true
  }

  /** Such pieces, no two operators touching. */
  ghost predicate WellFormed(pieces: seq<Piece>) {
    && (forall x | x in pieces :: IsPiece(x))
    && forall i | 0 <= i < |pieces| - 1 :: !(pieces[i].Op? && pieces[i + 1].Op?)
  }

  function Read(pieces: seq<Piece>, p: Pending): seq<Token>
    decreases |pieces|
  {
    if pieces == [] then Flush(p) else
      match pieces[0]
      case Plain(w) => Read(pieces[1..], Extend(p, w, false))
      case Quoted(s) => Read(pieces[1..], Extend(p, s, true))
      case Space => Flush(p) + Read(pieces[1..], NoWord)
      case Op(op) => FlushBefore(p, op) + [Operator(op)] + Read(pieces[1..], NoWord)
  }

  lemma {:induction false} LexOrdinary(w: string, rest: string, p: Pending)
    requires w != "" && forall c | c in w :: IsOrdinary(c)
    ensures Lex(w + rest, p) == Lex(rest, Extend(p, w, false))
    decreases |w|
  {
    var s := w + rest;
    assert s[0] == w[0] && w[0] in w && IsOrdinary(w[0]);
    assert s[1..] == w[1..] + rest;
    if |w| == 1 {
      assert s[1..] == rest && [w[0]] == w;
    } else {
      LexOrdinary(w[1..], rest, Extend(p, [w[0]], false));
      assert w == [w[0]] + w[1..];
      if p.InWord? { assert (p.text + [w[0]]) + w[1..] == p.text + w; }
    }
  }

  lemma LexOperator(op: string, rest: string, p: Pending)
    requires IsOperator(op) && (rest == "" || !IsOperatorChar(rest[0]))
    ensures Lex(op + rest, p) == After(FlushBefore(p, op) + [Operator(op)], Lex(rest, NoWord))
  {
    hide IsOperator, IsOperatorChar;
    var s := op + rest;
    LongestOperator(op, rest);
    LexAtOperator(s, p);
    assert s[|op|..] == rest;
  }

  lemma LongestOperator(op: string, rest: string)
    requires IsOperator(op) && (rest == "" || !IsOperatorChar(rest[0]))
    ensures op != "" && IsOperatorChar((op + rest)[0]) && FirstOperator(op + rest) == op
  {
    var s := op + rest;
    if |op| == 1 {
      assert |s| >= 2 ==> s[1] == rest[0] && s[..2][1] == s[1];
      assert forall t | t in TwoCharOperators() :: |t| == 2 && IsOperatorChar(t[1]);
      assert s[..1] == op;
    } else {
      assert s[..2] == op;
    }
  }

  lemma LexAtOperator(s: string, p: Pending)
    requires s != "" && IsOperatorChar(s[0])
    ensures
      var op := FirstOperator(s);
      Lex(s, p) == After(FlushBefore(p, op) + [Operator(op)], Lex(s[|op|..], NoWord))
  {
    hide FirstOperator, FlushBefore;
  }

  lemma LexBlank(rest: string, p: Pending)
    ensures Lex(" " + rest, p) == After(Flush(p), Lex(rest, NoWord))
  {
    assert (" " + rest)[1..] == rest;
  }

  lemma TextStart(pieces: seq<Piece>)
    requires WellFormed(pieces) && pieces != [] && !pieces[0].Op?
    ensures Text(pieces) != "" && !IsOperatorChar(Text(pieces)[0])
  {
    assert IsPiece(pieces[0]);
    match pieces[0]
    case Plain(w) => assert w[0] in w && Text(pieces)[0] == w[0];
    case Quoted(s) => assert Text(pieces)[0] == '\'';
    case Space => assert Text(pieces)[0] == ' ';
  }

  /** Reading the text of a line gives the tokens its pieces stand for. */
  lemma {:induction false} PiecesReadBack(pieces: seq<Piece>, p: Pending)
    requires WellFormed(pieces)
    ensures Lex(Text(pieces), p) == Some(Read(pieces, p))
    decreases |pieces|
  {
    hide Lex, ShSingleQuote, FlushBefore, Flush, Extend, IsOrdinary, IsOperator, IsOperatorChar;
    if pieces == [] {
      LexNothing(p);
    } else {
      var rest := pieces[1..];
      WellFormedTail(pieces);
      match pieces[0]
      case Plain(w) =>
        LexOrdinary(w, Text(rest), p);
        PiecesReadBack(rest, Extend(p, w, false));
      case Quoted(s) =>
        QuotedReadsBack(s, Text(rest), p);
        PiecesReadBack(rest, Extend(p, s, true));
      case Space =>
        LexBlank(Text(rest), p);
        PiecesReadBack(rest, NoWord);
      case Op(op) =>
        if rest != [] { TextStart(rest); }
        LexOperator(op, Text(rest), p);
        PiecesReadBack(rest, NoWord);
    }
  }

  lemma WellFormedTail(pieces: seq<Piece>)
    requires WellFormed(pieces) && pieces != []
    ensures WellFormed(pieces[1..]) && IsPiece(pieces[0])
    ensures pieces[0].Op? && |pieces| > 1 ==> !pieces[1].Op?
  {
    hide IsPiece;
    var rest := pieces[1..];
    forall i | 0 <= i < |rest| - 1 ensures !(rest[i].Op? && rest[i + 1].Op?) {
      assert !(pieces[i + 1].Op? && pieces[i + 1 + 1].Op?);
    }
    assert |pieces| > 1 ==> !(pieces[0].Op? && pieces[0 + 1].Op?);
  }

  lemma LexNothing(p: Pending)
    ensures Lex("", p) == Some(Flush(p))
  {}

  // ---- Builders ----

  datatype Shell = Bash | Sh

  function ShellName(shell: Shell): string { if shell.Bash? then "bash" else "sh" }

  function ShellCommand(command: string, shell: Shell): string {
    ShellName(shell) + " " + ("-c" + " " + ShSingleQuote(command))
  }

  function BuildTimeoutWrapper(command: string, secs: nat, shell: Shell, killAfterSecs: nat): string {
    "timeout" + " " + ("--signal=TERM" + " " + (("--kill-after=" + Decimal(killAfterSecs)) + " "
    + (Decimal(secs) + " " + ShellCommand(command, shell))))
  }

  function RunLine(command: string, shell: Shell, timeoutSecs: Option<nat>): string {
    if timeoutSecs.Some? then BuildTimeoutWrapper(command, timeoutSecs.value, shell, 5) else ShellCommand(command, shell)
  }

  function BuildPctExecCommand(vmid: nat, cmd: string, shell: Shell, timeoutSecs: Option<nat>): string {
    "pct" + " " + ("exec" + " " + (Decimal(vmid) + " " + ("--" + " " + RunLine(cmd, shell, timeoutSecs))))
  }

  /** `<shell> -c <command>`. */
  function ShellWords(command: string, shell: Shell): seq<Piece> { [Plain(ShellName(shell)), Plain("-c"), Quoted(command)] }

  /** `exec timeout -s TERM -k 5 <secs> <shell> -c <command>`, options that BusyBox knows too. */
  function ThenWords(command: string, secs: nat, shell: Shell): seq<Piece> {
    [Plain("then")] + ([Plain("exec")] + ([Plain("timeout")] + ([Plain("-s")] + ([Plain("TERM")] + ([Plain("-k")] + ([Plain("5")]
    + ([Plain(Decimal(secs))] + ShellWords(command, shell))))))))
  }

  /** `exec <shell> -c <command>`. */
  function ElseWords(command: string, shell: Shell): seq<Piece> {
    [Plain("else")] + ([Plain("exec")] + ShellWords(command, shell))
  }

  /** `if command -v timeout >/dev/null 2>&1; `. */
  function Probe(rest: seq<Piece>): seq<Piece> {
    [Plain("if"), Space] + ([Plain("command"), Space] + ([Plain("-v"), Space] + ([Plain("timeout"), Space]
    + ([Op(">")] + ([Plain("/dev/null"), Space] + ([Plain("2"), Op(">&")] + ([Plain("1")] + ([Op(";"), Space] + rest))))))))
  }

  /** `if command -v timeout >/dev/null 2>&1; then ...; else ...; fi`, piece by piece. */
  function ContainerScript(command: string, secs: nat, shell: Shell): seq<Piece> {
    Probe(Spaced(ThenWords(command, secs, shell)) + ([Op(";"), Space]
      + (Spaced(ElseWords(command, shell)) + ([Op(";"), Space] + [Plain("fi")]))))
  }

  function BuildInContainerTimeout(command: string, secs: nat, shell: Shell): string { Text(ContainerScript(command, secs, shell)) }

  function BuildDockerExecCommand(container: string, command: string, shell: Shell, timeoutSecs: Option<nat>): string {
    "docker" + " " + ("exec" + " " + (ShSingleQuote(container) + " "
    + ShellCommand(if timeoutSecs.Some? then BuildInContainerTimeout(command, timeoutSecs.value, shell) else command, shell)))
  }

  // ---- What the layers do with what they are given ----

  /** The words of a simple command. */
  function Words(tokens: seq<Token>): Option<seq<string>> {
    if tokens == [] then Some([])
    else if !tokens[0].Word? then None
    else match Words(tokens[1..]) case None => None case Some(ws) => Some([tokens[0].text] + ws)
  }

  function Argv(line: string): Option<seq<string>> {
    match Tokens(line) case None => None case Some(tokens) => Words(tokens)
  }

  /** After how many seconds a run is ended, and how many more it has before it is killed. */
  datatype Limit = Limit(secs: nat, killAfter: nat)

  /** A shell on a script. */
  datatype Run = Run(shell: Shell, script: string, limit: Option<Limit>)

  function ReadLimit(secs: string, killAfter: string): Option<Limit> {
    match NumberOf(secs) case None => None case Some(n) =>
      match NumberOf(killAfter) case None => None case Some(k) => Some(Limit(n, k))
  }

  /** `timeout`, by its long or its short options: the limit, and what it runs. */
  function RunByTimeout(argv: seq<string>): Option<(Limit, seq<string>)> {
    if |argv| >= 4 && argv[0] == "timeout" && argv[1] == "--signal=TERM" && "--kill-after=" <= argv[2] then
      match ReadLimit(argv[3], argv[2][|"--kill-after="|..]) case None => None case Some(limit) => Some((limit, argv[4..]))
    else if |argv| >= 6 && argv[..4] == ["timeout", "-s", "TERM", "-k"] then
      match ReadLimit(argv[5], argv[4]) case None => None case Some(limit) => Some((limit, argv[6..]))
    else None
  }

  /** `<shell> -c <script>` reads the script. */
  function ScriptOf(argv: seq<string>, limit: Option<Limit>): Option<Run> {
    if |argv| == 3 && argv[0] == "bash" && argv[1] == "-c" then Some(Run(Bash, argv[2], limit))
    else if |argv| == 3 && argv[0] == "sh" && argv[1] == "-c" then Some(Run(Sh, argv[2], limit))
    else None
  }

  /** The shell and the script it is handed, through a `timeout` when there is one. */
  function Handed(argv: seq<string>): Option<Run> {
    match RunByTimeout(argv) case Some((limit, inner)) => ScriptOf(inner, Some(limit)) case None => ScriptOf(argv, None)
  }

  /** What the node's shell runs for a line sent over the transport. */
  function SentByTransport(line: string): Option<Run> {
    match Argv(line) case None => None case Some(argv) => Handed(argv)
  }

  /** `pct exec <vmid> -- argv...`: the guest, and what runs in it. */
  function SentByPct(line: string): Option<(nat, Run)> {
    match Argv(line) case None => None case Some(argv) =>
      if |argv| >= 4 && argv[0] == "pct" && argv[1] == "exec" && argv[3] == "--" && NumberOf(argv[2]).Some? then
        match Handed(argv[4..]) case None => None case Some(run) => Some((NumberOf(argv[2]).value, run))
      else None
  }

  /** `docker exec <container> argv...`: the container, and what runs in it. */
  function SentByDocker(line: string): Option<(string, Run)> {
    match Argv(line) case None => None case Some(argv) =>
      if |argv| >= 3 && argv[0] == "docker" && argv[1] == "exec" then
        match Handed(argv[3..]) case None => None case Some(run) => Some((argv[2], run))
      else None
  }

  // ---- Lines of words ----

  /** Words with a blank between them. */
  function Spaced(words: seq<Piece>): seq<Piece> {
    if |words| <= 1 then words else [words[0], Space] + Spaced(words[1..])
  }

  predicate IsWordPiece(x: Piece) { (x.Plain? || x.Quoted?) && IsPiece(x) }

  function WordOf(x: Piece): string { match x case Plain(w) => w case Quoted(s) => s case _ => "" }

  function WordsOf(words: seq<Piece>): seq<string> {
    if words == [] then [] else [WordOf(words[0])] + WordsOf(words[1..])
  }

  function Line(words: seq<Piece>): string { Text(Spaced(words)) }

  lemma LineOf(x: Piece, rest: seq<Piece>)
    ensures Line([x] + rest) == if rest == [] then PieceText(x) else PieceText(x) + " " + Line(rest)
  {
    var words := [x] + rest;
    if rest == [] {
      assert words == [x] && [x][1..] == [];
      assert Text([x]) == PieceText(x) + Text([]) by { assert [x][0] == x && [x][1..] == []; }
      assert PieceText(x) + "" == PieceText(x);
    } else {
      assert words[1..] == rest;
      var s := Spaced(words);
      assert s == [x, Space] + Spaced(rest);
      assert s[1..] == [Space] + Spaced(rest) && s[1..][1..] == Spaced(rest);
      assert Text(s) == PieceText(x) + (PieceText(Space) + Text(Spaced(rest)));
      assert PieceText(Space) == " ";
    }
  }

  lemma {:induction false} SpacedIsWellFormed(words: seq<Piece>)
    requires forall x | x in words :: IsWordPiece(x)
    ensures WellFormed(Spaced(words)) && forall x | x in Spaced(words) :: !x.Op?
  {
    hide IsPiece;
    if |words| > 1 {
      assert forall x | x in words[1..] :: x in words;
      SpacedIsWellFormed(words[1..]);
      assert words[0] in words;
      assert IsPiece(Space) by { SpaceIsPiece(); }
      var s := Spaced(words);
      assert forall x | x in s :: x == words[0] || x == Space || x in Spaced(words[1..]);
    } else if |words| == 1 {
      assert words[0] in words;
    }
  }

  lemma SpaceIsPiece()
    ensures IsPiece(Space)
  {}

  lemma ReadWord(x: Piece, rest: seq<Piece>)
    requires x.Plain? || x.Quoted?
    ensures Read([x] + rest, NoWord) == Read(rest, InWord(WordOf(x), x.Quoted?))
  {
    assert ([x] + rest)[1..] == rest;
  }

  lemma {:induction false} SpacedReads(words: seq<Piece>)
    requires forall x | x in words :: IsWordPiece(x)
    ensures Words(Read(Spaced(words), NoWord)) == Some(WordsOf(words))
  {
    hide Words, WordOf, Read;
    if words == [] {
      ReadNothing(NoWord);
    } else {
      var x, rest := words[0], words[1..];
      assert x in words && IsWordPiece(x);
      assert words == [x] + rest;
      if rest == [] {
        ReadWord(x, []);
        assert words == [x] + [] && Spaced(words) == [x] + [];
        ReadNothing(InWord(WordOf(x), x.Quoted?));
        WordsFirst(WordOf(x), x.Quoted?, []);
        assert [Word(WordOf(x), x.Quoted?)] + [] == [Word(WordOf(x), x.Quoted?)];
        assert WordsOf([]) == [];
        assert WordsOf(words) == [WordOf(x)] + WordsOf([]);
      } else {
        assert forall y | y in rest :: y in words;
        SpacedReads(rest);
        ReadWord(x, [Space] + Spaced(rest));
        assert Spaced(words) == [x] + ([Space] + Spaced(rest));
        ReadSpace(Spaced(rest), InWord(WordOf(x), x.Quoted?));
        WordsFirst(WordOf(x), x.Quoted?, Read(Spaced(rest), NoWord));
      }
    }
  }

  lemma ReadNothing(p: Pending)
    ensures Read([], p) == Flush(p) && Words([]) == Some([]) && Read([], NoWord) == []
  {}

  lemma ReadSpace(rest: seq<Piece>, p: Pending)
    ensures Read([Space] + rest, p) == Flush(p) + Read(rest, NoWord)
  {
    assert ([Space] + rest)[1..] == rest;
  }

  lemma WordsFirst(text: string, quoted: bool, rest: seq<Token>)
    ensures Words([Word(text, quoted)] + rest) == match Words(rest) case None => None case Some(ws) => Some([text] + ws)
  {
    assert ([Word(text, quoted)] + rest)[1..] == rest;
  }

  /** A line of words is read as those words. */
  lemma LineReadsBack(words: seq<Piece>)
    requires forall x | x in words :: IsWordPiece(x)
    ensures Argv(Line(words)) == Some(WordsOf(words))
  {
    hide *;
    SpacedIsWellFormed(words);
    PiecesReadBack(Spaced(words), NoWord);
    SpacedReads(words);
    LineText(words);
    ArgvOf(Line(words), Read(Spaced(words), NoWord));
  }

  lemma LineText(words: seq<Piece>)
    ensures Line(words) == Text(Spaced(words))
  {}

  lemma ArgvOf(line: string, tokens: seq<Token>)
    requires Lex(line, NoWord) == Some(tokens)
    ensures Argv(line) == Words(tokens)
  {}

  // ---- Every layer hands on what it was given ----

  /** A word in front of a line. */
  lemma WordOnLine(x: Piece, rest: seq<Piece>, line: string)
    requires IsWordPiece(x) && rest != [] && line == Line(rest) && forall y | y in rest :: IsWordPiece(y)
    ensures PieceText(x) + " " + line == Line([x] + rest)
    ensures forall y | y in [x] + rest :: IsWordPiece(y)
    ensures WordsOf([x] + rest) == [WordOf(x)] + WordsOf(rest)
  {
    hide IsWordPiece, Line, PieceText, WordOf;
    LineOf(x, rest);
    assert ([x] + rest)[1..] == rest;
  }

  lemma ShellLine(command: string, shell: Shell)
    ensures ShellCommand(command, shell) == Line(ShellWords(command, shell))
    ensures forall x | x in ShellWords(command, shell) :: IsWordPiece(x)
    ensures WordsOf(ShellWords(command, shell)) == [ShellName(shell), "-c", command]
  {
    hide Line, ShSingleQuote, WordsOf, IsWordPiece, IsPiece, PieceText, WordOf;
    QuotedLine(command);
    NameIsPiece("-c");
    WordOnLine(Plain("-c"), [Quoted(command)], ShSingleQuote(command));
    NameIsPiece(ShellName(shell));
    WordOnLine(Plain(ShellName(shell)), [Plain("-c")] + [Quoted(command)], "-c" + " " + ShSingleQuote(command));
    assert ShellWords(command, shell) == [Plain(ShellName(shell))] + ([Plain("-c")] + [Quoted(command)]);
  }

  /** Characters of the literal words below. */
  predicate IsNameChar(c: char) {
    'a' <= c <= 'z' || 'A' <= c <= 'Z' || '0' <= c <= '9' || c == '-' || c == '/' || c == '='
  }

  predicate IsName(w: string) { w != "" && forall i | 0 <= i < |w| :: IsNameChar(w[i]) }

  lemma NameIsPiece(w: string)
    requires IsName(w)
    ensures IsPiece(Plain(w)) && IsWordPiece(Plain(w)) && PieceText(Plain(w)) == w && WordOf(Plain(w)) == w
  {
    hide IsOrdinary;
    forall c | c in w ensures IsOrdinary(c) {
      assert IsNameChar(c);
      NameCharIsOrdinary(c);
    }
  }

  lemma NameCharIsOrdinary(c: char)
    requires IsNameChar(c)
    ensures IsOrdinary(c)
  {}

  lemma DecimalIsName(n: nat)
    ensures IsName(Decimal(n))
  {
    forall i | 0 <= i < |Decimal(n)| ensures IsNameChar(Decimal(n)[i]) { assert Decimal(n)[i] in Decimal(n); }
  }

  lemma QuotedLine(s: string)
    ensures ShSingleQuote(s) == Line([Quoted(s)]) && WordsOf([Quoted(s)]) == [s]
    ensures forall x | x in [Quoted(s)] :: IsWordPiece(x)
  {
    hide ShSingleQuote;
    LineOf(Quoted(s), []);
    assert [Quoted(s)] + [] == [Quoted(s)];
    assert [Quoted(s)][1..] == [];
  }

  function TimeoutWords(command: string, secs: nat, shell: Shell, killAfterSecs: nat): seq<Piece> {
    [Plain("timeout")] + ([Plain("--signal=TERM")] + ([Plain("--kill-after=" + Decimal(killAfterSecs))] + ([Plain(Decimal(secs))]
    + ShellWords(command, shell))))
  }

  lemma ShellWordsSome(command: string, shell: Shell)
    ensures ShellWords(command, shell) != []
  {}

  lemma TimeoutLine(command: string, secs: nat, shell: Shell, killAfterSecs: nat)
    ensures BuildTimeoutWrapper(command, secs, shell, killAfterSecs) == Line(TimeoutWords(command, secs, shell, killAfterSecs))
    ensures forall x | x in TimeoutWords(command, secs, shell, killAfterSecs) :: IsWordPiece(x)
    ensures WordsOf(TimeoutWords(command, secs, shell, killAfterSecs))
      == ["timeout", "--signal=TERM", "--kill-after=" + Decimal(killAfterSecs), Decimal(secs), ShellName(shell), "-c", command]
  {
    hide Line, ShSingleQuote, ShellCommand, ShellWords, Decimal, WordsOf, IsWordPiece, IsPiece, PieceText, WordOf;
    var d, k := Decimal(secs), "--kill-after=" + Decimal(killAfterSecs);
    var tail := ShellWords(command, shell);
    var line := ShellCommand(command, shell);
    ShellLine(command, shell);
    ShellWordsSome(command, shell);
    DecimalIsName(secs);
    NameIsPiece(d);
    WordOnLine(Plain(d), tail, line);
    DecimalIsName(killAfterSecs);
    NameIsPiece(k);
    WordOnLine(Plain(k), [Plain(d)] + tail, d + " " + line);
    NameIsPiece("--signal=TERM");
    WordOnLine(Plain("--signal=TERM"), [Plain(k)] + ([Plain(d)] + tail), k + " " + (d + " " + line));
    NameIsPiece("timeout");
    WordOnLine(Plain("timeout"), [Plain("--signal=TERM")] + ([Plain(k)] + ([Plain(d)] + tail)), "--signal=TERM" + " " + (k + " " + (d + " " + line)));
  }

  function RunWords(command: string, shell: Shell, timeoutSecs: Option<nat>): seq<Piece> {
    if timeoutSecs.Some? then TimeoutWords(command, timeoutSecs.value, shell, 5) else ShellWords(command, shell)
  }

  /** Five seconds from the end to the kill. */
  function LimitOf(timeoutSecs: Option<nat>): Option<Limit> {
    if timeoutSecs.Some? then Some(Limit(timeoutSecs.value, 5)) else None
  }

  /** With or without a timeout, the shell is handed the command. */
  lemma RunHandsOn(command: string, shell: Shell, timeoutSecs: Option<nat>)
    ensures RunLine(command, shell, timeoutSecs) == Line(RunWords(command, shell, timeoutSecs))
    ensures RunWords(command, shell, timeoutSecs) != []
    ensures forall x | x in RunWords(command, shell, timeoutSecs) :: IsWordPiece(x)
    ensures Handed(WordsOf(RunWords(command, shell, timeoutSecs))) == Some(Run(shell, command, LimitOf(timeoutSecs)))
  {
    hide Line, ShSingleQuote, WordsOf, IsWordPiece, TimeoutWords, ShellWords, BuildTimeoutWrapper, ShellCommand, Decimal;
    ShellLine(command, shell);
    ShellWordsSome(command, shell);
    ShellHandsOn(command, shell);
    if timeoutSecs.Some? {
      TimeoutLine(command, timeoutSecs.value, shell, 5);
      TimeoutHandsOn(command, timeoutSecs.value, shell, 5);
    }
  }

  lemma ShellHandsOn(command: string, shell: Shell)
    ensures Handed([ShellName(shell), "-c", command]) == Some(Run(shell, command, None))
    ensures forall limit :: ScriptOf([ShellName(shell), "-c", command], limit) == Some(Run(shell, command, limit))
  {}

  lemma TimeoutHandsOn(command: string, secs: nat, shell: Shell, killAfterSecs: nat)
    ensures Handed(["timeout", "--signal=TERM", "--kill-after=" + Decimal(killAfterSecs), Decimal(secs), ShellName(shell), "-c", command])
         == Some(Run(shell, command, Some(Limit(secs, killAfterSecs))))
    ensures TimeoutWords(command, secs, shell, killAfterSecs) != []
  {
    hide Decimal;
    var argv := ["timeout", "--signal=TERM", "--kill-after=" + Decimal(killAfterSecs), Decimal(secs), ShellName(shell), "-c", command];
    assert argv[4..] == [ShellName(shell), "-c", command];
    assert argv[2][|"--kill-after="|..] == Decimal(killAfterSecs);
    NumberReadsBack(secs);
    NumberReadsBack(killAfterSecs);
    ShellHandsOn(command, shell);
  }

  /** The transport: the node's shell is handed the command verbatim, within the limit asked for. */
  lemma TransportHandsOn(command: string, secs: nat, shell: Shell, killAfterSecs: nat)
    ensures SentByTransport(BuildTimeoutWrapper(command, secs, shell, killAfterSecs))
         == Some(Run(shell, command, Some(Limit(secs, killAfterSecs))))
  {
    hide Line, Argv, WordsOf, IsWordPiece, TimeoutWords, BuildTimeoutWrapper, Decimal, Handed;
    TimeoutLine(command, secs, shell, killAfterSecs);
    TimeoutHandsOn(command, secs, shell, killAfterSecs);
    LineReadsBack(TimeoutWords(command, secs, shell, killAfterSecs));
  }

  /** `pct exec`: the shell of that guest is handed the command verbatim, with or without a limit. */
  lemma PctHandsOn(vmid: nat, cmd: string, shell: Shell, timeoutSecs: Option<nat>)
    ensures SentByPct(BuildPctExecCommand(vmid, cmd, shell, timeoutSecs)) == Some((vmid, Run(shell, cmd, LimitOf(timeoutSecs))))
  {
    hide Line, Argv, WordsOf, IsWordPiece, IsPiece, PieceText, WordOf, RunWords, RunLine, Decimal, Handed, ShSingleQuote;
    var run, line := RunWords(cmd, shell, timeoutSecs), RunLine(cmd, shell, timeoutSecs);
    RunHandsOn(cmd, shell, timeoutSecs);
    var id := Decimal(vmid);
    NameIsPiece("--");
    WordOnLine(Plain("--"), run, line);
    DecimalIsName(vmid);
    NameIsPiece(id);
    WordOnLine(Plain(id), [Plain("--")] + run, "--" + " " + line);
    NameIsPiece("exec");
    WordOnLine(Plain("exec"), [Plain(id)] + ([Plain("--")] + run), id + " " + ("--" + " " + line));
    NameIsPiece("pct");
    var words := [Plain("pct")] + ([Plain("exec")] + ([Plain(id)] + ([Plain("--")] + run)));
    WordOnLine(Plain("pct"), [Plain("exec")] + ([Plain(id)] + ([Plain("--")] + run)), "exec" + " " + (id + " " + ("--" + " " + line)));
    LineReadsBack(words);
    var argv := ["pct"] + (["exec"] + ([id] + (["--"] + WordsOf(run))));
    assert argv[4..] == WordsOf(run);
    NumberReadsBack(vmid);
  }

  // ---- Inside the container ----

  datatype Conditional = Conditional(test: seq<Token>, onTrue: seq<Token>, onFalse: seq<Token>)

  /** The tokens between semicolons. */
  function Segments(tokens: seq<Token>): (r: seq<seq<Token>>)
    ensures r != []
  {
    if tokens == [] then [[]]
    else
      var rest := Segments(tokens[1..]);
      if tokens[0] == Operator(";") then [[]] + rest else [[tokens[0]] + rest[0]] + rest[1..]
  }

  /** `if test; then onTrue; else onFalse; fi`, the reserved words unquoted. */
  function ParseIf(tokens: seq<Token>): Option<Conditional> {
    var s := Segments(tokens);
    if |s| == 4 && s[0] != [] && s[0][0] == Word("if", false) && s[1] != [] && s[1][0] == Word("then", false)
      && s[2] != [] && s[2][0] == Word("else", false) && s[3] == [Word("fi", false)]
    then Some(Conditional(s[0][1..], s[1][1..], s[2][1..]))
    else None
  }

  /** `exec argv...` replaces the shell by the command. */
  function ExecutedBy(tokens: seq<Token>): Option<Run> {
    match Words(tokens)
    case None => None
    case Some(argv) => if argv != [] && argv[0] == "exec" then Handed(argv[1..]) else None
  }

  /** What the script runs, depending on whether its test finds `timeout`. */
  function RunInContainer(script: string, found: bool): Option<Run> {
    match Tokens(script) case None => None case Some(tokens) =>
      match ParseIf(tokens) case None => None case Some(c) => ExecutedBy(if found then c.onTrue else c.onFalse)
  }

  function TokensOf(words: seq<Piece>): seq<Token> {
    if words == [] then [] else [Word(WordOf(words[0]), words[0].Quoted?)] + TokensOf(words[1..])
  }

  /** Words, then the end of a simple command. */
  lemma {:induction false} SpacedThenSemicolon(words: seq<Piece>, rest: seq<Piece>)
    requires words != [] && forall x | x in words :: x.Plain? || x.Quoted?
    ensures Read(Spaced(words) + ([Op(";"), Space] + rest), NoWord) == TokensOf(words) + ([Operator(";")] + Read(rest, NoWord))
  {
    hide Read, WordOf, TokensOf, Spaced;
    var x, tail := words[0], words[1..];
    var end := [Op(";"), Space] + rest;
    assert words == [x] + tail;
    TokensOfFirst(x, tail);
    SpacedOnto(words, end);
    if tail == [] {
      ReadWord(x, end);
      ReadSemicolon(rest, InWord(WordOf(x), x.Quoted?));
      NoTokens();
    } else {
      assert forall y | y in tail :: y in words;
      SpacedThenSemicolon(tail, rest);
      ReadWord(x, [Space] + (Spaced(tail) + end));
      ReadSpace(Spaced(tail) + end, InWord(WordOf(x), x.Quoted?));
    }
  }

  lemma TokensOfFirst(x: Piece, tail: seq<Piece>)
    ensures TokensOf([x] + tail) == [Word(WordOf(x), x.Quoted?)] + TokensOf(tail)
  {
    assert ([x] + tail)[1..] == tail;
  }

  lemma NoTokens()
    ensures TokensOf([]) == []
  {}

  lemma ReadSemicolon(rest: seq<Piece>, p: Pending)
    ensures Read([Op(";"), Space] + rest, p) == Flush(p) + ([Operator(";")] + Read(rest, NoWord))
  {
    var s := [Op(";"), Space] + rest;
    assert s[1..] == [Space] + rest && s[1..][1..] == rest;
    assert Flush(NoWord) + Read(rest, NoWord) == Read(rest, NoWord);
  }

  lemma {:induction false} SegmentsSplit(a: seq<Token>, rest: seq<Token>)
    requires Operator(";") !in a
    ensures Segments(a + ([Operator(";")] + rest)) == [a] + Segments(rest)
  {
    var s := a + ([Operator(";")] + rest);
    if a == [] {
      assert s[0] == Operator(";") && s[1..] == rest;
    } else {
      assert s[0] == a[0] && s[1..] == a[1..] + ([Operator(";")] + rest);
      SegmentsSplit(a[1..], rest);
      assert [a[0]] + a[1..] == a;
    }
  }

  lemma {:induction false} TokensAreWords(words: seq<Piece>)
    ensures Operator(";") !in TokensOf(words) && Words(TokensOf(words)) == Some(WordsOf(words))
  {
    if words != [] {
      TokensAreWords(words[1..]);
      WordsFirst(WordOf(words[0]), words[0].Quoted?, TokensOf(words[1..]));
    }
  }

  function ProbeTokens(): seq<Token> {
    [Word("if", false), Word("command", false), Word("-v", false), Word("timeout", false), Operator(">"), Word("/dev/null", false),
     IoNumber("2"), Operator(">&"), Word("1", false)]
  }

  lemma ReadBlankWord(w: string, rest: seq<Piece>)
    ensures Read([Plain(w), Space] + rest, NoWord) == [Word(w, false)] + Read(rest, NoWord)
  {
    var s := [Plain(w), Space] + rest;
    assert s[1..] == [Space] + rest && s[1..][1..] == rest;
  }

  lemma ReadOperator(op: string, rest: seq<Piece>, p: Pending)
    ensures Read([Op(op)] + rest, p) == FlushBefore(p, op) + [Operator(op)] + Read(rest, NoWord)
  {
    assert ([Op(op)] + rest)[1..] == rest;
  }

  /** The test probes for `timeout` and discards both of its outputs. */
  lemma ProbeReads(rest: seq<Piece>)
    ensures Read(Probe(rest), NoWord) == ProbeTokens() + ([Operator(";")] + Read(rest, NoWord))
  {
    hide Read;
    var end := [Op(";"), Space] + rest;
    var fd := [Plain("2"), Op(">&")] + ([Plain("1")] + end);
    var to := [Op(">")] + ([Plain("/dev/null"), Space] + fd);
    ReadBlankWord("if", [Plain("command"), Space] + ([Plain("-v"), Space] + ([Plain("timeout"), Space] + to)));
    ReadBlankWord("command", [Plain("-v"), Space] + ([Plain("timeout"), Space] + to));
    ReadBlankWord("-v", [Plain("timeout"), Space] + to);
    ReadBlankWord("timeout", to);
    ReadOperator(">", [Plain("/dev/null"), Space] + fd, NoWord);
    ReadBlankWord("/dev/null", fd);
    assert fd == [Plain("2")] + ([Op(">&")] + ([Plain("1")] + end));
    ReadWord(Plain("2"), [Op(">&")] + ([Plain("1")] + end));
    ReadOperator(">&", [Plain("1")] + end, InWord("2", false));
    ReadWord(Plain("1"), end);
    ReadSemicolon(rest, InWord("1", false));
  }

  lemma WellFormedFront(x: Piece, rest: seq<Piece>)
    requires IsPiece(x) && WellFormed(rest) && !(x.Op? && rest != [] && rest[0].Op?)
    ensures WellFormed([x] + rest)
  {
    hide IsPiece;
    var s := [x] + rest;
    forall i | 0 <= i < |s| - 1 ensures !(s[i].Op? && s[i + 1].Op?) {
      if i > 0 { assert !(rest[i - 1].Op? && rest[i - 1 + 1].Op?); }
    }
  }

  lemma SpacedUnfold(words: seq<Piece>)
    ensures |words| > 1 ==> Spaced(words) == [words[0], Space] + Spaced(words[1..])
    ensures |words| == 1 ==> Spaced(words) == [words[0]]
  {}

  lemma Regroup(x: Piece, y: Piece, tail: seq<Piece>, end: seq<Piece>)
    ensures ([x, y] + tail) + end == [x] + ([y] + (tail + end))
  {}

  lemma SpacedOnto(words: seq<Piece>, end: seq<Piece>)
    requires words != []
    ensures Spaced(words) + end ==
      if |words| == 1 then [words[0]] + end else [words[0]] + ([Space] + (Spaced(words[1..]) + end))
  {
    hide Spaced;
    SpacedUnfold(words);
    if |words| > 1 { Regroup(words[0], Space, Spaced(words[1..]), end); }
  }

  lemma {:induction false} WellFormedOnto(words: seq<Piece>, rest: seq<Piece>)
    requires (forall x | x in words :: IsWordPiece(x)) && WellFormed(rest)
    ensures WellFormed(Spaced(words) + rest)
  {
    if words == [] {
      assert Spaced(words) + rest == rest;
    } else {
      hide WellFormed, IsPiece, Spaced;
      assert words[0] in words && IsWordPiece(words[0]);
      SpacedOnto(words, rest);
      if |words| == 1 {
        WellFormedFront(words[0], rest);
      } else {
        assert forall x | x in words[1..] :: x in words;
        WellFormedOnto(words[1..], rest);
        SpaceIsPiece();
        WellFormedFront(Space, Spaced(words[1..]) + rest);
        WellFormedFront(words[0], [Space] + (Spaced(words[1..]) + rest));
      }
    }
  }

  lemma WellFormedSemicolon(rest: seq<Piece>)
    requires WellFormed(rest)
    ensures WellFormed([Op(";"), Space] + rest)
  {
    hide WellFormed;
    WellFormedFront(Space, rest);
    WellFormedFront(Op(";"), [Space] + rest);
    assert [Op(";"), Space] + rest == [Op(";")] + ([Space] + rest);
  }

  /** A plain name in front of words. */
  lemma NameFirst(w: string, tail: seq<Piece>)
    requires IsName(w) && forall x | x in tail :: IsWordPiece(x)
    ensures forall x | x in [Plain(w)] + tail :: IsWordPiece(x)
    ensures WordsOf([Plain(w)] + tail) == [w] + WordsOf(tail)
    ensures TokensOf([Plain(w)] + tail) == [Word(w, false)] + TokensOf(tail)
  {
    hide IsName, IsWordPiece, TokensOf;
    NameIsPiece(w);
    TokensOfFirst(Plain(w), tail);
    assert ([Plain(w)] + tail)[1..] == tail;
  }

  /** The words of the branch with `timeout`, after `then`. */
  lemma ThenOf(command: string, secs: nat, shell: Shell) returns (after: seq<Piece>)
    ensures forall x | x in ThenWords(command, secs, shell) :: IsWordPiece(x)
    ensures TokensOf(ThenWords(command, secs, shell)) == [Word("then", false)] + TokensOf(after)
    ensures WordsOf(after)
      == ["exec"] + (["timeout"] + (["-s"] + (["TERM"] + (["-k"] + (["5"] + ([Decimal(secs)] + [ShellName(shell), "-c", command]))))))
  {
    hide IsName, IsWordPiece, TokensOf, WordsOf, ShellWords, Decimal;
    ShellLine(command, shell);
    DecimalIsName(secs);
    LiteralNames();
    var s := [Plain(Decimal(secs))] + ShellWords(command, shell);
    NameFirst(Decimal(secs), ShellWords(command, shell));
    NameFirst("5", s);
    NameFirst("-k", [Plain("5")] + s);
    NameFirst("TERM", [Plain("-k")] + ([Plain("5")] + s));
    var t := [Plain("TERM")] + ([Plain("-k")] + ([Plain("5")] + s));
    NameFirst("-s", t);
    NameFirst("timeout", [Plain("-s")] + t);
    NameFirst("exec", [Plain("timeout")] + ([Plain("-s")] + t));
    after := [Plain("exec")] + ([Plain("timeout")] + ([Plain("-s")] + t));
    NameFirst("then", after);
  }

  lemma ElseOf(command: string, shell: Shell) returns (after: seq<Piece>)
    ensures forall x | x in ElseWords(command, shell) :: IsWordPiece(x)
    ensures TokensOf(ElseWords(command, shell)) == [Word("else", false)] + TokensOf(after)
    ensures WordsOf(after) == ["exec"] + [ShellName(shell), "-c", command]
  {
    hide IsName, IsWordPiece, TokensOf, WordsOf, ShellWords;
    ShellLine(command, shell);
    LiteralNames();
    NameFirst("exec", ShellWords(command, shell));
    after := [Plain("exec")] + ShellWords(command, shell);
    NameFirst("else", after);
  }

  lemma LiteralNames()
    ensures IsName("5") && IsName("-k") && IsName("TERM") && IsName("-s") && IsName("timeout") && IsName("exec")
    ensures IsName("then") && IsName("else")
  {}

  lemma ProbeIsWellFormed(rest: seq<Piece>)
    requires WellFormed(rest)
    ensures WellFormed(Probe(rest))
  {
    hide WellFormed, IsPiece;
    var end := [Op(";"), Space] + rest;
    var fd := [Plain("2"), Op(">&")] + ([Plain("1")] + end);
    var to := [Op(">")] + ([Plain("/dev/null"), Space] + fd);
    WellFormedSemicolon(rest);
    NameIsPiece("1");
    WellFormedFront(Plain("1"), end);
    OperatorsArePieces();
    WellFormedFront(Op(">&"), [Plain("1")] + end);
    NameIsPiece("2");
    WellFormedFront(Plain("2"), [Op(">&")] + ([Plain("1")] + end));
    assert fd == [Plain("2")] + ([Op(">&")] + ([Plain("1")] + end));
    BlankFront("/dev/null", fd);
    WellFormedFront(Op(">"), [Plain("/dev/null"), Space] + fd);
    BlankFront("timeout", to);
    BlankFront("-v", [Plain("timeout"), Space] + to);
    BlankFront("command", [Plain("-v"), Space] + ([Plain("timeout"), Space] + to));
    BlankFront("if", [Plain("command"), Space] + ([Plain("-v"), Space] + ([Plain("timeout"), Space] + to)));
  }

  lemma OperatorsArePieces()
    ensures IsPiece(Op(">")) && IsPiece(Op(">&"))
  {}

  lemma BlankFront(w: string, rest: seq<Piece>)
    requires IsName(w) && WellFormed(rest)
    ensures WellFormed([Plain(w), Space] + rest)
  {
    hide WellFormed, IsName, IsPiece;
    NameIsPiece(w);
    SpaceIsPiece();
    WellFormedFront(Space, rest);
    WellFormedFront(Plain(w), [Space] + rest);
    assert [Plain(w), Space] + rest == [Plain(w)] + ([Space] + rest);
  }

  function ScriptTokens(command: string, secs: nat, shell: Shell): seq<Token> {
    ProbeTokens() + ([Operator(";")] + (TokensOf(ThenWords(command, secs, shell)) + ([Operator(";")]
    + (TokensOf(ElseWords(command, shell)) + ([Operator(";")] + [Word("fi", false)])))))
  }

  /** What a shell reads in the in-container script. */
  lemma ScriptReads(command: string, secs: nat, shell: Shell)
    ensures Tokens(BuildInContainerTimeout(command, secs, shell)) == Some(ScriptTokens(command, secs, shell))
  {
    hide Lex, Read, WellFormed, Spaced, IsWordPiece, TokensOf, ThenWords, ElseWords, Probe, ProbeTokens, Text, IsPiece;
    var yes, no := ThenWords(command, secs, shell), ElseWords(command, shell);
    var fi := [Plain("fi")];
    var afterNo := Spaced(no) + ([Op(";"), Space] + fi);
    var afterYes := Spaced(yes) + ([Op(";"), Space] + afterNo);
    var yesTail := ThenOf(command, secs, shell);
    var noTail := ElseOf(command, shell);
    FiEnds();
    WellFormedSemicolon(fi);
    WellFormedOnto(no, [Op(";"), Space] + fi);
    WellFormedSemicolon(afterNo);
    WellFormedOnto(yes, [Op(";"), Space] + afterNo);
    ProbeIsWellFormed(afterYes);
    PiecesReadBack(Probe(afterYes), NoWord);
    ProbeReads(afterYes);
    AreWords(yes);
    AreWords(no);
    BranchesSome(command, secs, shell);
    SpacedThenSemicolon(yes, afterNo);
    SpacedThenSemicolon(no, fi);
  }

  lemma AreWords(words: seq<Piece>)
    requires forall x | x in words :: IsWordPiece(x)
    ensures forall x | x in words :: x.Plain? || x.Quoted?
  {
    hide IsPiece;
  }

  lemma BranchesSome(command: string, secs: nat, shell: Shell)
    ensures ThenWords(command, secs, shell) != [] && ElseWords(command, shell) != []
  {}

  lemma FiEnds()
    ensures WellFormed([Plain("fi")]) && Read([Plain("fi")], NoWord) == [Word("fi", false)]
  {
    hide IsPiece;
    NameIsPiece("fi");
    assert [Plain("fi")] == [Plain("fi")] + [];
    ReadWord(Plain("fi"), []);
    ReadNothing(InWord("fi", false));
  }

  /** `exec`, then a shell on the command, with or without `timeout`. */
  lemma BranchesHandOn(command: string, secs: nat, shell: Shell, yes: seq<Piece>, no: seq<Piece>)
    requires WordsOf(yes)
      == ["exec"] + (["timeout"] + (["-s"] + (["TERM"] + (["-k"] + (["5"] + ([Decimal(secs)] + [ShellName(shell), "-c", command]))))))
    requires WordsOf(no) == ["exec"] + [ShellName(shell), "-c", command]
    ensures ExecutedBy(TokensOf(yes)) == Some(Run(shell, command, Some(Limit(secs, 5))))
    ensures ExecutedBy(TokensOf(no)) == Some(Run(shell, command, None))
  {
    hide Decimal, TokensOf, WordsOf, Words;
    TokensAreWords(yes);
    TokensAreWords(no);
    var run := [ShellName(shell), "-c", command];
    ShellHandsOn(command, shell);
    assert WordsOf(no)[1..] == run;
    var argv := WordsOf(yes)[1..];
    assert argv[..4] == ["timeout", "-s", "TERM", "-k"] && argv[4] == "5" && argv[6..] == run;
    NumberReadsBack(secs);
    NumberReadsBack(5);
  }

  lemma ScriptSegments(command: string, secs: nat, shell: Shell)
    ensures ParseIf(ScriptTokens(command, secs, shell)) ==
      Some(Conditional(ProbeTokens()[1..], TokensOf(ThenWords(command, secs, shell))[1..], TokensOf(ElseWords(command, shell))[1..]))
  {
    hide TokensOf, ThenWords, ElseWords, Segments;
    var yes, no := TokensOf(ThenWords(command, secs, shell)), TokensOf(ElseWords(command, shell));
    var fi := [Word("fi", false)];
    TokensAreWords(ThenWords(command, secs, shell));
    TokensAreWords(ElseWords(command, shell));
    var yesTail := ThenOf(command, secs, shell);
    var noTail := ElseOf(command, shell);
    SegmentsSplit(ProbeTokens(), yes + ([Operator(";")] + (no + ([Operator(";")] + fi))));
    SegmentsSplit(yes, no + ([Operator(";")] + fi));
    SegmentsSplit(no, fi);
    FiSegment();
    var s := Segments(ScriptTokens(command, secs, shell));
    assert s == [ProbeTokens()] + ([yes] + ([no] + [fi]));
  }

  lemma FiSegment()
    ensures Segments([Word("fi", false)]) == [[Word("fi", false)]]
  {
    var fi := Word("fi", false);
    assert [fi][1..] == [] && Segments([]) == [[]];
    assert [fi] + [] == [fi];
  }

  /** Both branches of the in-container script hand the command to the shell verbatim, the one with `timeout` limits it. */
  lemma ContainerHandsOn(command: string, secs: nat, shell: Shell, found: bool)
    ensures RunInContainer(BuildInContainerTimeout(command, secs, shell), found)
         == Some(Run(shell, command, if found then Some(Limit(secs, 5)) else None))
  {
    hide Lex, Tokens, Spaced, TokensOf, ThenWords, ElseWords, ParseIf, ExecutedBy, BuildInContainerTimeout, ScriptTokens, WordsOf, ShellWords;
    ScriptReads(command, secs, shell);
    ScriptSegments(command, secs, shell);
    var yes := ThenOf(command, secs, shell);
    var no := ElseOf(command, shell);
    BranchesHandOn(command, secs, shell, yes, no);
    assert ([Word("then", false)] + TokensOf(yes))[1..] == TokensOf(yes);
    assert ([Word("else", false)] + TokensOf(no))[1..] == TokensOf(no);
  }

  /** `docker exec`: the shell of that container is handed the command, or the script around it, verbatim. */
  lemma DockerHandsOn(container: string, command: string, shell: Shell, timeoutSecs: Option<nat>)
    ensures SentByDocker(BuildDockerExecCommand(container, command, shell, timeoutSecs))
      == Some((container, Run(shell, if timeoutSecs.Some? then BuildInContainerTimeout(command, timeoutSecs.value, shell) else command, None)))
  {
    hide Line, Argv, WordsOf, IsWordPiece, IsPiece, PieceText, WordOf, ShellWords, Handed, ShSingleQuote, ShellCommand, BuildInContainerTimeout;
    var script := if timeoutSecs.Some? then BuildInContainerTimeout(command, timeoutSecs.value, shell) else command;
    var run, line := ShellWords(script, shell), ShellCommand(script, shell);
    ShellLine(script, shell);
    ShellWordsSome(script, shell);
    ShellHandsOn(script, shell);
    QuotedLine(container);
    QuotedWord(container);
    WordOnLine(Quoted(container), run, line);
    NameIsPiece("exec");
    WordOnLine(Plain("exec"), [Quoted(container)] + run, ShSingleQuote(container) + " " + line);
    NameIsPiece("docker");
    var words := [Plain("docker")] + ([Plain("exec")] + ([Quoted(container)] + run));
    WordOnLine(Plain("docker"), [Plain("exec")] + ([Quoted(container)] + run), "exec" + " " + (ShSingleQuote(container) + " " + line));
    LineReadsBack(words);
    var argv := ["docker"] + (["exec"] + ([container] + WordsOf(run)));
    assert argv[3..] == WordsOf(run);
  }

  lemma QuotedWord(s: string)
    ensures IsWordPiece(Quoted(s)) && PieceText(Quoted(s)) == ShSingleQuote(s) && WordOf(Quoted(s)) == s
  {}

  // ---- All layers ----

  /** Where a command ends up, and under which limits. */
  datatype Delivery = Delivery(
    nodeShell: Shell, nodeLimit: Option<Limit>, vmid: nat, guestShell: Shell, guestLimit: Option<Limit>, container: string, run: Run)

  /** A command sent into a container of a guest over the transport, whether the container has a `timeout` or not. */
  function DeliveredToContainer(wire: string, inContainerTimeout: bool, found: bool): Option<Delivery> {
    match SentByTransport(wire) case None => None case Some(onNode) =>
      match SentByPct(onNode.script) case None => None case Some((vmid, inGuest)) =>
        match SentByDocker(inGuest.script) case None => None case Some((container, outer)) =>
          match if inContainerTimeout then RunInContainer(outer.script, found) else Some(outer) case None => None case Some(run) =>
            Some(Delivery(onNode.shell, onNode.limit, vmid, inGuest.shell, inGuest.limit, container, run))
  }

  /** Peeling the transport, `pct exec` and `docker exec` gives the caller's command back, character by character, in the
      guest and the container it is for, under the limits asked for. */
  lemma CommandArrivesVerbatim(command: string, container: string, vmid: nat, secs: nat, killAfterSecs: nat,
                               nodeShell: Shell, guestShell: Shell, containerShell: Shell,
                               guestTimeout: Option<nat>, containerTimeout: Option<nat>, found: bool)
    ensures
      var inGuest := BuildDockerExecCommand(container, command, containerShell, containerTimeout);
      var onNode := BuildPctExecCommand(vmid, inGuest, guestShell, guestTimeout);
      var wire := BuildTimeoutWrapper(onNode, secs, nodeShell, killAfterSecs);
      DeliveredToContainer(wire, containerTimeout.Some?, found) ==
        Some(Delivery(nodeShell, Some(Limit(secs, killAfterSecs)), vmid, guestShell, LimitOf(guestTimeout), container,
          Run(containerShell, command, if found then LimitOf(containerTimeout) else None)))
  {
    hide SentByTransport, SentByPct, SentByDocker, RunInContainer, BuildTimeoutWrapper, BuildPctExecCommand, BuildDockerExecCommand;
    hide BuildInContainerTimeout;
    var inGuest := BuildDockerExecCommand(container, command, containerShell, containerTimeout);
    var onNode := BuildPctExecCommand(vmid, inGuest, guestShell, guestTimeout);
    TransportHandsOn(onNode, secs, nodeShell, killAfterSecs);
    PctHandsOn(vmid, inGuest, guestShell, guestTimeout);
    DockerHandsOn(container, command, containerShell, containerTimeout);
    if containerTimeout.Some? { ContainerHandsOn(command, containerTimeout.value, containerShell, found); }
  }
}
