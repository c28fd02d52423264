/** Every command has a text that the parser of user/sh.c maps back to it. */
module ShellRound {
  import opened ShellGrammar

  /** A command with its words spelled out. */
  datatype Tree =
    | TExec(argv: seq<string>)
    | TRedir(cmd: Tree, file: string, mode: Mode)
    | TPipe(left: Tree, right: Tree)
    | TList(left: Tree, right: Tree)
    | TBack(cmd: Tree)

  function Spell(s: string, t: Tok): string {
    if t.lo <= t.hi <= |s| then s[t.lo..t.hi] else ""
  }

  function Spells(s: string, ts: seq<Tok>): (ws: seq<string>)
    ensures |ws| == |ts|
  {
    if ts == [] then [] else [Spell(s, ts[0])] + Spells(s, ts[1..])
  }

  /** The command that a parsed command stands for. */
  function Meaning(s: string, c: Cmd): Tree {
    match c
    case Exec(argv) => TExec(Spells(s, argv))
    case Redir(cmd, to) => TRedir(Meaning(s, cmd), Spell(s, to.file), to.mode)
    case Pipe(l, r) => TPipe(Meaning(s, l), Meaning(s, r))
    case List(l, r) => TList(Meaning(s, l), Meaning(s, r))
    case Back(cmd) => TBack(Meaning(s, cmd))
  }

  predicate LegalWord(w: string) {
    w != "" && forall k :: 0 <= k < |w| ==> Word(w[k])
  }

  /** Words of word characters, and few enough arguments. */
  predicate Legal(t: Tree) {
    match t
    case TExec(argv) => |argv| < MAXARGS && forall k :: 0 <= k < |argv| ==> LegalWord(argv[k])
    case TRedir(cmd, file, _) => Legal(cmd) && LegalWord(file)
    case TPipe(l, r) => Legal(l) && Legal(r)
    case TList(l, r) => Legal(l) && Legal(r)
    case TBack(cmd) => Legal(cmd)
  }

  function Join(ws: seq<string>): string {
    if ws == [] then "" else if |ws| == 1 then ws[0] else ws[0] + " " + Join(ws[1..])
  }

  function OpText(m: Mode): string {
    match m case In => "<" case Out => ">" case Append => ">>"
  }

  function Paren(t: Tree): string
    decreases t, 1
  {
    "(" + Text(t) + ")"
  }

  /** A text for a command: every part in parentheses. */
  function Text(t: Tree): string
    decreases t, 0
  {
    match t
    case TExec(argv) => Join(argv)
    case TRedir(cmd, file, mode) => Paren(cmd) + OpText(mode) + file
    case TPipe(l, r) => Paren(l) + "|" + Paren(r)
    case TList(l, r) => Paren(l) + ";" + Paren(r)
    case TBack(cmd) => Paren(cmd) + "&"
  }

  /** `w` stands at position `i`. */
  predicate At(s: string, i: nat, w: string) {
    i + |w| <= |s| && s[i..i + |w|] == w
  }

  /** The text ends here, or a block does. */
  predicate Stop(s: string, i: nat) {
    i == |s| || (i < |s| && s[i] == ')')
  }

  lemma AtPart(s: string, i: nat, a: string, b: string)
    requires At(s, i, a + b)
    ensures At(s, i, a) && At(s, i + |a|, b)
  {
    assert s[i..i + |a|] == (a + b)[..|a|] && s[i + |a|..i + |a| + |b|] == (a + b)[|a|..];
  }

  lemma AtChar(s: string, i: nat, w: string, k: nat)
    requires At(s, i, w) && k < |w|
    ensures i + k < |s| && s[i + k] == w[k]
  {
    assert s[i..i + |w|][k] == w[k];
  }

  lemma {:induction false} WordEndIs(s: string, i: nat, n: nat)
    requires i + n <= |s| && (forall k :: i <= k < i + n ==> Word(s[k])) && (i + n < |s| ==> !Word(s[i + n]))
    ensures WordEnd(s, i) == i + n
    decreases n
  {
    if n > 0 {
      WordEndIs(s, i + 1, n - 1);
    }
  }

  /** A word is read as one token. */
  lemma TokenIs(s: string, i: nat, w: string)
    requires At(s, i, w) && LegalWord(w) && (i + |w| < |s| ==> !Word(s[i + |w|]))
    ensures Skip(s, i) == i && GetToken(s, i) == Token(Arg, Tok(i, i + |w|), Skip(s, i + |w|)) && i < |s| && Word(s[i])
    ensures Spell(s, Tok(i, i + |w|)) == w
  {
    AtChar(s, i, w, 0);
    forall k | i <= k < i + |w| ensures Word(s[k]) {
      AtChar(s, i, w, k - i);
    }
    WordEndIs(s, i, |w|);
  }

  lemma NoRedirs(s: string, i: nat)
    requires i <= |s| && (i < |s| ==> !Ws(s[i]) && s[i] != '<' && s[i] != '>')
    ensures Redirs(s, i) == Ok(Parsed([], i))
  {}

  lemma {:induction false} SpellsMore(s: string, ts: seq<Tok>, t: Tok)
    ensures Spells(s, ts + [t]) == Spells(s, ts) + [Spell(s, t)]
    decreases |ts|
  {
    if ts == [] {
      assert ts + [t] == [t] && [t][1..] == [];
    } else {
      SpellsMore(s, ts[1..], t);
      assert (ts + [t])[1..] == ts[1..] + [t];
    }
  }

  /** One argument of parseexec. */
  lemma ArgsStep(s: string, i: nat, w: string, toks: seq<Tok>)
    requires At(s, i, w) && LegalWord(w) && (i + |w| < |s| ==> !Word(s[i + |w|])) && |toks| + 1 < MAXARGS
    requires Redirs(s, Skip(s, i + |w|)) == Ok(Parsed([], Skip(s, i + |w|)))
    ensures Args(s, i, toks, []) == Args(s, Skip(s, i + |w|), toks + [Tok(i, i + |w|)], [])
  {
    hide Redirs, GetToken, Skip, WordEnd;
    TokenIs(s, i, w);
    assert !Peek(s, i, "|)&;");
  }

  lemma ArgsDone(s: string, i: nat, toks: seq<Tok>)
    requires i <= |s| && Stop(s, i)
    ensures Args(s, i, toks, []) == Ok(Parsed(Exec(toks), i))
  {}

  /** Where the next argument starts. */
  lemma AfterWord(s: string, i: nat, ws: seq<string>)
    requires ws != [] && At(s, i, Join(ws)) && Stop(s, i + |Join(ws)|) && forall k :: 0 <= k < |ws| ==> LegalWord(ws[k])
    ensures At(s, i, ws[0]) && (i + |ws[0]| < |s| ==> !Word(s[i + |ws[0]|]))
    ensures var j := Skip(s, i + |ws[0]|);
            && At(s, j, Join(ws[1..])) && j + |Join(ws[1..])| == i + |Join(ws)|
            && Redirs(s, j) == Ok(Parsed([], j))
  {
    hide Redirs;
    var w, rest := ws[0], Join(ws[1..]);
    var j := i + |w|;
    if |ws| > 1 {
      assert Join(ws) == w + (" " + rest);
      AtPart(s, i, w, " " + rest);
      AtPart(s, j, " ", rest);
      AtChar(s, j, " ", 0);
      FirstOfJoin(ws[1..]);
      AtChar(s, j + 1, rest, 0);
      NoRedirs(s, j + 1);
    } else {
      assert ws[1..] == [] && ws == [w];
      NoRedirs(s, j);
    }
  }

  /** Arguments separated by blanks come back in order. */
  lemma {:induction false} ArgsRound(s: string, i: nat, ws: seq<string>, toks: seq<Tok>)
    requires At(s, i, Join(ws)) && Stop(s, i + |Join(ws)|) && |toks| + |ws| < MAXARGS
    requires forall k :: 0 <= k < |ws| ==> LegalWord(ws[k])
    ensures var r := Args(s, i, toks, []);
            && r.Ok? && r.value.next == i + |Join(ws)| && r.value.value.Exec?
            && Spells(s, r.value.value.argv) == Spells(s, toks) + ws
    decreases |ws|
  {
    hide Redirs, Args, Spells, Skip, LegalWord;
    if ws == [] {
      ArgsDone(s, i, toks);
      assert Spells(s, toks) + ws == Spells(s, toks);
    } else {
      var w := ws[0];
      AfterWord(s, i, ws);
      var j := Skip(s, i + |w|);
      ArgsStep(s, i, w, toks);
      ArgsRound(s, j, ws[1..], toks + [Tok(i, i + |w|)]);
      SpellsMore(s, toks, Tok(i, i + |w|));
      TokenIs(s, i, w);
      assert Spells(s, toks) + [w] + ws[1..] == Spells(s, toks) + ws;
    }
  }

  lemma FirstOfJoin(ws: seq<string>)
    requires ws != [] && LegalWord(ws[0])
    ensures Join(ws) != "" && Word(Join(ws)[0])
  {}

  /** A symbol other than `>` is a token of its own. */
  lemma Symbol(s: string, i: nat)
    requires i < |s| && s[i] in "<|&;()"
    ensures Skip(s, i) == i && GetToken(s, i) == Token(Op(s[i]), Tok(i, i + 1), Skip(s, i + 1))
    ensures forall toks :: Peek(s, i, toks) <==> s[i] in toks
  {}

  /** A text in parentheses comes back with the cursor behind it, provided its inside does. */
  lemma BlockRound(s: string, i: nat, t: Tree)
    requires At(s, i, Paren(t))
    requires ParseLine(s, i + 1).Ok? && ParseLine(s, i + 1).value.next == i + 1 + |Text(t)| && Skip(s, i + 1) == i + 1
    requires Meaning(s, ParseLine(s, i + 1).value.value) == t
    ensures i < |s| && s[i] == '('
    ensures var rs := Redirs(s, Skip(s, i + |Paren(t)|));
            if rs.Err? then ParseBlock(s, i) == Err(rs.error)
            else ParseBlock(s, i) == Ok(Parsed(Wrap(ParseLine(s, i + 1).value.value, rs.value.value), rs.value.next))
  {
    hide ParseLine, Redirs, Wrap, Meaning, Text, GetToken, Skip, Peek;
    AtChar(s, i, Paren(t), 0);
    AtChar(s, i, Paren(t), |Paren(t)| - 1);
    Symbol(s, i);
    Symbol(s, i + |Paren(t)| - 1);
  }

  /** A text starts with a word, a parenthesis, or what follows it. */
  lemma NotBlank(s: string, i: nat, t: Tree)
    requires Legal(t) && At(s, i, Text(t)) && Stop(s, i + |Text(t)|)
    ensures Skip(s, i) == i
  {
    if t.TExec? && t.argv != [] {
      FirstOfJoin(t.argv);
      AtChar(s, i, Text(t), 0);
    } else if !t.TExec? {
      assert Text(t)[0] == '(';
      AtChar(s, i, Text(t), 0);
    }
  }

  /** Parsing a text in its place gives the command back and stops right behind it. */
  ghost predicate Comes(s: string, i: nat, t: Tree) {
    && i + |Text(t)| <= |s| && ParseLine(s, i).Ok?
    && ParseLine(s, i).value.next == i + |Text(t)| && Meaning(s, ParseLine(s, i).value.value) == t
  }

  lemma BlockComes(s: string, i: nat, t: Tree)
    requires At(s, i, Paren(t)) && Legal(t) && Comes(s, i + 1, t)
    ensures i < |s| && s[i] == '(' && i + |Paren(t)| <= |s|
    ensures var rs := Redirs(s, Skip(s, i + |Paren(t)|));
            if rs.Err? then ParseExec(s, i) == Err(rs.error)
            else ParseExec(s, i) == Ok(Parsed(Wrap(ParseLine(s, i + 1).value.value, rs.value.value), rs.value.next))
  {
    hide ParseLine, ParseBlock, Redirs, Wrap, Meaning, Text, Args;
    assert Paren(t) == "(" + (Text(t) + ")");
    AtPart(s, i, "(", Text(t) + ")");
    AtPart(s, i + 1, Text(t), ")");
    AtChar(s, i + 1 + |Text(t)|, ")", 0);
    NotBlank(s, i + 1, t);
    BlockRound(s, i, t);
  }

  /** A block that nothing but `)`, `|`, `;`, `&` or the end follows. */
  lemma PlainBlock(s: string, i: nat, t: Tree)
    requires At(s, i, Paren(t)) && Legal(t) && Comes(s, i + 1, t)
    requires var j := i + |Paren(t)|; Stop(s, j) || s[j] in "|;&"
    ensures ParseExec(s, i) == Ok(Parsed(ParseLine(s, i + 1).value.value, i + |Paren(t)|))
  {
    hide ParseLine, ParseExec, Redirs, Meaning, Text, Paren;
    BlockComes(s, i, t);
    NoRedirs(s, i + |Paren(t)|);
  }

  lemma ExecComes(s: string, i: nat, argv: seq<string>)
    requires At(s, i, Join(argv)) && Stop(s, i + |Join(argv)|) && Legal(TExec(argv))
    ensures Comes(s, i, TExec(argv))
  {
    hide Redirs, Args, ParseBlock, ParsePipe, ParseLine, Spells;
    var end := i + |Join(argv)|;
    NotBlank(s, i, TExec(argv));
    if argv != [] {
      FirstOfJoin(argv);
      AtChar(s, i, Join(argv), 0);
    }
    NoRedirs(s, i);
    ArgsRound(s, i, argv, []);
    assert Spells(s, []) == [] by { NoSpells(s); }
    assert [] + argv == argv;
    Ends(s, i, end);
  }

  lemma NoSpells(s: string)
    ensures Spells(s, []) == []
  {}

  /** At the end of the text or of a block the parser goes no further. */
  lemma Ends(s: string, i: nat, end: nat)
    requires i <= end <= |s| && Stop(s, end) && ParseExec(s, i).Ok? && ParseExec(s, i).value.next == end
    ensures ParsePipe(s, i) == ParseExec(s, i) && ParseLine(s, i) == ParseExec(s, i)
  {
    hide ParseExec;
  }

  lemma PipeParse(s: string, i: nat, left: Parsed<Cmd>, right: Parsed<Cmd>)
    requires i <= |s| && ParseExec(s, i) == Ok(left) && left.next < |s| && s[left.next] == '|'
    requires Skip(s, left.next + 1) == left.next + 1 && ParsePipe(s, left.next + 1) == Ok(right)
    ensures ParsePipe(s, i) == Ok(Parsed(Pipe(left.value, right.value), right.next))
  {
    hide ParseExec, GetToken, Peek, Skip;
    Symbol(s, left.next);
  }

  lemma PipeComes(s: string, i: nat, l: Tree, r: Tree)
    requires At(s, i, Text(TPipe(l, r))) && Stop(s, i + |Text(TPipe(l, r))|) && Legal(l) && Legal(r)
    requires Comes(s, i + 1, l) && Comes(s, i + |Paren(l)| + 2, r)
    ensures Comes(s, i, TPipe(l, r))
  {
    hide ParseExec, ParseLine, ParsePipe, Skip, Text, Paren, Stop, Legal, At;
    var j := i + |Paren(l)|;
    var end := j + 1 + |Paren(r)|;
    TextIs(l, r);
    PartsAt(s, i, Paren(l), '|', Paren(r));
    PlainBlock(s, i, l);
    PlainBlock(s, j + 1, r);
    Ends(s, j + 1, end);
    AtParen(s, j + 1, r);
    PipeParse(s, i, ParseExec(s, i).value, ParsePipe(s, j + 1).value);
    LineOfPipe(s, i, end);
  }

  lemma ListParse(s: string, i: nat, left: Parsed<Cmd>, right: Parsed<Cmd>)
    requires i <= |s| && ParseExec(s, i) == Ok(left) && left.next < |s| && s[left.next] == ';'
    requires Skip(s, left.next + 1) == left.next + 1 && ParseLine(s, left.next + 1) == Ok(right)
    ensures ParseLine(s, i) == Ok(Parsed(List(left.value, right.value), right.next))
  {
    hide ParseExec, GetToken, Peek, Skip;
    Symbol(s, left.next);
    assert ParsePipe(s, i) == Ok(left);
    assert Backs(s, left.next, left.value) == left;
  }

  lemma ListComes(s: string, i: nat, l: Tree, r: Tree)
    requires At(s, i, Text(TList(l, r))) && Stop(s, i + |Text(TList(l, r))|) && Legal(l) && Legal(r)
    requires Comes(s, i + 1, l) && Comes(s, i + |Paren(l)| + 2, r)
    ensures Comes(s, i, TList(l, r))
  {
    hide ParseExec, ParseLine, ParsePipe, Skip, Text, Paren, Stop, Legal, At;
    var j := i + |Paren(l)|;
    var end := j + 1 + |Paren(r)|;
    TextIs(l, r);
    PartsAt(s, i, Paren(l), ';', Paren(r));
    PlainBlock(s, i, l);
    PlainBlock(s, j + 1, r);
    Ends(s, j + 1, end);
    AtParen(s, j + 1, r);
    ListParse(s, i, ParseExec(s, i).value, ParseLine(s, j + 1).value);
  }

  lemma BackParse(s: string, i: nat, left: Parsed<Cmd>)
    requires i <= |s| && ParseExec(s, i) == Ok(left) && left.next < |s| && s[left.next] == '&' && Stop(s, left.next + 1)
    ensures ParseLine(s, i) == Ok(Parsed(Back(left.value), left.next + 1))
  {
    hide ParseExec, GetToken;
    Symbol(s, left.next);
    assert ParsePipe(s, i) == Ok(left);
    assert Backs(s, left.next + 1, Back(left.value)) == Parsed(Back(left.value), left.next + 1);
  }

  lemma BackComes(s: string, i: nat, t: Tree)
    requires At(s, i, Text(TBack(t))) && Stop(s, i + |Text(TBack(t))|) && Legal(t) && Comes(s, i + 1, t)
    ensures Comes(s, i, TBack(t))
  {
    hide ParseExec, ParseLine, ParsePipe, Paren, Stop;
    var j := i + |Paren(t)|;
    AtPart(s, i, Paren(t), "&");
    AtChar(s, j, "&", 0);
    PlainBlock(s, i, t);
    BackParse(s, i, ParseExec(s, i).value);
  }

  /** A redirection at the end. */
  lemma RedirIs(s: string, i: nat, mode: Mode, file: string)
    requires At(s, i, OpText(mode) + file) && LegalWord(file) && Stop(s, i + |OpText(mode)| + |file|)
    ensures var end := i + |OpText(mode)| + |file|;
            && Skip(s, i) == i && end <= |s|
            && Redirs(s, i) == Ok(Parsed([Redirection(Tok(i + |OpText(mode)|, end), mode)], end))
            && Spell(s, Tok(i + |OpText(mode)|, end)) == file
  {
    hide Redirs, GetToken, OpText, Skip, Peek;
    var op := OpText(mode);
    var k, end := i + |op|, i + |op| + |file|;
    AtPart(s, i, op, file);
    SkipStop(s, end);
    TokenIs(s, k, file);
    RedirOp(s, i, mode);
    RedirStep(s, i, GetToken(s, i), GetToken(s, k));
  }

  lemma SkipStop(s: string, i: nat)
    requires i <= |s| && Stop(s, i)
    ensures Skip(s, i) == i && (i < |s| ==> !Word(s[i]))
  {}

  lemma RedirOp(s: string, i: nat, mode: Mode)
    requires At(s, i, OpText(mode)) && i + |OpText(mode)| < |s| && Word(s[i + |OpText(mode)|])
    ensures i < |s| && Skip(s, i) == i && Peek(s, i, "<>")
    ensures var t := GetToken(s, i); t.next == i + |OpText(mode)| && t.kind.Op? && ModeOf(t.kind.c) == mode
  {
    AtChar(s, i, OpText(mode), 0);
    if mode.Append? {
      AtChar(s, i, OpText(mode), 1);
    }
  }

  lemma RedirStep(s: string, i: nat, op: Token, file: Token)
    requires i <= |s| && Peek(s, i, "<>") && Skip(s, i) == i && op == GetToken(s, i) && file == GetToken(s, op.next)
    requires op.kind.Op? && file.kind.Arg? && Stop(s, file.next)
    ensures Redirs(s, i) == Ok(Parsed([Redirection(file.tok, ModeOf(op.kind.c))], file.next))
  {
    hide GetToken;
    NoRedirs(s, file.next);
    assert [Redirection(file.tok, ModeOf(op.kind.c))] + [] == [Redirection(file.tok, ModeOf(op.kind.c))];
  }

  lemma RedirComes(s: string, i: nat, t: Tree, file: string, mode: Mode)
    requires At(s, i, Text(TRedir(t, file, mode))) && Stop(s, i + |Text(TRedir(t, file, mode))|)
    requires Legal(t) && LegalWord(file) && Comes(s, i + 1, t)
    ensures Comes(s, i, TRedir(t, file, mode))
  {
    hide ParseExec, ParseLine, ParsePipe, Paren, Stop, Redirs, OpText;
    var j := i + |Paren(t)|;
    assert Text(TRedir(t, file, mode)) == Paren(t) + (OpText(mode) + file);
    AtPart(s, i, Paren(t), OpText(mode) + file);
    RedirIs(s, j, mode, file);
    BlockComes(s, i, t);
    OneRedir(ParseLine(s, i + 1).value.value, Redirection(Tok(j + |OpText(mode)|, j + |OpText(mode)| + |file|), mode));
    Ends(s, i, j + |OpText(mode)| + |file|);
  }

  lemma OneRedir(c: Cmd, r: Redirection)
    ensures Wrap(c, [r]) == Redir(c, r)
  {
    assert [r][..0] == [];
  }

  /** The parser undoes Text, at the top and inside any block. */
  lemma {:induction false} TreeComes(s: string, i: nat, t: Tree)
    requires At(s, i, Text(t)) && Stop(s, i + |Text(t)|) && Legal(t)
    ensures Comes(s, i, t)
    decreases t, 0
  {
    hide ParseExec, ParseLine, ParsePipe, Comes, Stop;
    match t
    case TExec(argv) => ExecComes(s, i, argv);
    case TRedir(cmd, file, mode) =>
      assert Text(t) == Paren(cmd) + (OpText(mode) + file);
      AtPart(s, i, Paren(cmd), OpText(mode) + file);
      InsideComes(s, i, cmd);
      RedirComes(s, i, cmd, file, mode);
    case TPipe(l, r) =>
      PartsAt(s, i, Paren(l), '|', Paren(r));
      InsideComes(s, i, l);
      InsideComes(s, i + |Paren(l)| + 1, r);
      PipeComes(s, i, l, r);
    case TList(l, r) =>
      PartsAt(s, i, Paren(l), ';', Paren(r));
      InsideComes(s, i, l);
      InsideComes(s, i + |Paren(l)| + 1, r);
      ListComes(s, i, l, r);
    case TBack(cmd) =>
      AtPart(s, i, Paren(cmd), "&");
      InsideComes(s, i, cmd);
      BackComes(s, i, cmd);
  }

  lemma InsideComes(s: string, i: nat, t: Tree)
    requires At(s, i, Paren(t)) && Legal(t)
    ensures Comes(s, i + 1, t)
    decreases t, 1
  {
    hide ParseExec, ParseLine, ParsePipe, Comes;
    assert Paren(t) == "(" + (Text(t) + ")");
    AtPart(s, i, "(", Text(t) + ")");
    AtPart(s, i + 1, Text(t), ")");
    AtChar(s, i + 1 + |Text(t)|, ")", 0);
    TreeComes(s, i + 1, t);
  }

  /** Round trip: every legal command is what the parser makes of its text. */
  lemma RoundTrip(t: Tree)
    requires Legal(t)
    ensures ParseCmd(Text(t)).Ok? && Meaning(Text(t), ParseCmd(Text(t)).value) == t
  {
    hide ParseLine, Text, Meaning;
    var s := Text(t);
    assert s[0..0 + |s|] == s;
    TreeComes(s, 0, t);
  }

  lemma TextIs(l: Tree, r: Tree)
    ensures Text(TPipe(l, r)) == Paren(l) + "|" + Paren(r) && Text(TList(l, r)) == Paren(l) + ";" + Paren(r)
  {}

  lemma AtParen(s: string, i: nat, t: Tree)
    requires At(s, i, Paren(t))
    ensures i < |s| && s[i] == '(' && Skip(s, i) == i
  {
    AtChar(s, i, Paren(t), 0);
  }

  lemma PartsAt(s: string, i: nat, a: string, c: char, b: string)
    requires At(s, i, a + [c] + b)
    ensures At(s, i, a) && i + |a| < |s| && s[i + |a|] == c && At(s, i + |a| + 1, b)
  {
    assert a + [c] + b == a + ([c] + b);
    AtPart(s, i, a, [c] + b);
    AtPart(s, i + |a|, [c], b);
    AtChar(s, i + |a|, [c], 0);
  }

  lemma LineOfPipe(s: string, i: nat, end: nat)
    requires i <= end <= |s| && Stop(s, end) && ParsePipe(s, i).Ok? && ParsePipe(s, i).value.next == end
    ensures ParseLine(s, i) == ParsePipe(s, i)
  {
    hide ParsePipe;
  }
}
