/** What the parser of user/sh.c computes, as functions of the text and a position in it. */
module ShellGrammar {

  const MAXARGS := 10

  /** A token as the parser keeps it: where it starts and where it ends in the text. */
  datatype Tok = Tok(lo: nat, hi: nat)

  datatype Mode = In | Out | Append

  datatype Redirection = Redirection(file: Tok, mode: Mode)

  datatype Cmd =
    | Exec(argv: seq<Tok>)
    | Redir(cmd: Cmd, to: Redirection)
    | Pipe(left: Cmd, right: Cmd)
    | List(left: Cmd, right: Cmd)
    | Back(cmd: Cmd)

  /** What gettoken returns: 0, 'a', or the symbol, where '+' stands for >>. */
  datatype Kind = Eof | Arg | Op(c: char)

  /** The panics of the parser. */
  datatype Error = MissingFile | MissingParen | BadSyntax | TooManyArgs | Leftovers

  datatype Result<T> = Ok(value: T) | Err(error: Error)

  /** A parsed value and the position behind it. */
  datatype Parsed<T> = Parsed(value: T, next: nat)

  predicate Ws(c: char) { c in [' ', '\t', '\r', '\n', '\U{B}'] }

  predicate Sym(c: char) { c in "<|>&;()" }

  predicate Word(c: char) { !Ws(c) && !Sym(c) }

  function Skip(s: string, i: nat): (r: nat)
    requires i <= |s|
    ensures i <= r <= |s| && (r < |s| ==> !Ws(s[r]))
    ensures i < |s| && !Ws(s[i]) ==> r == i
    decreases |s| - i
  {
    if i < |s| && Ws(s[i]) then Skip(s, i + 1) else i
  }

  function WordEnd(s: string, i: nat): (r: nat)
    requires i <= |s|
    ensures i <= r <= |s| && (r < |s| ==> !Word(s[r])) && forall k :: i <= k < r ==> Word(s[k])
    ensures i < |s| && Word(s[i]) ==> r > i
    decreases |s| - i
  {
    if i < |s| && Word(s[i]) then WordEnd(s, i + 1) else i
  }

  datatype Token = Token(kind: Kind, tok: Tok, next: nat)

  /** gettoken */
  function GetToken(s: string, i: nat): (t: Token)
    requires i <= |s|
    ensures i <= t.next <= |s| && (t.kind.Eof? <==> Skip(s, i) == |s|) && (!t.kind.Eof? ==> i < t.next)
    ensures t.kind.Arg? ==> IsWord(s, t.tok)
  {
    var lo := Skip(s, i);
    if lo == |s| then Token(Eof, Tok(lo, lo), lo)
    else if s[lo] == '>' then
      if lo + 1 < |s| && s[lo + 1] == '>' then Token(Op('+'), Tok(lo, lo + 2), Skip(s, lo + 2))
      else Token(Op('>'), Tok(lo, lo + 1), Skip(s, lo + 1))
    else if Sym(s[lo]) then Token(Op(s[lo]), Tok(lo, lo + 1), Skip(s, lo + 1))
    else var hi := WordEnd(s, lo); Token(Arg, Tok(lo, hi), Skip(s, hi))
  }

  /** A maximal run of word characters. */
  predicate IsWord(s: string, t: Tok) {
    t.lo < t.hi <= |s| && (t.hi < |s| ==> !Word(s[t.hi])) && forall k :: t.lo <= k < t.hi ==> Word(s[k])
  }

  /** peek, with the cursor behind the white space. */
  predicate Peek(s: string, i: nat, toks: string)
    requires i <= |s|
  {
    Skip(s, i) < |s| && s[Skip(s, i)] in toks
  }

  /** The redirections are wrapped round a command in the order they come. */
  function Wrap(cmd: Cmd, rs: seq<Redirection>): Cmd
    decreases |rs|
  {
    if rs == [] then cmd else Redir(Wrap(cmd, rs[..|rs| - 1]), rs[|rs| - 1])
  }

  function ModeOf(c: char): Mode {
    if c == '<' then In else if c == '>' then Out else Append
  }

  /** parseredirs */
  function Redirs(s: string, i: nat): (r: Result<Parsed<seq<Redirection>>>)
    requires i <= |s|
    ensures r.Ok? ==> i <= r.value.next <= |s|
    decreases |s| - i
  {
    if !Peek(s, i, "<>") then Ok(Parsed([], Skip(s, i)))
    else
      var op := GetToken(s, Skip(s, i));
      var file := GetToken(s, op.next);
      if !file.kind.Arg? then Err(MissingFile)
      else
        var rest := Redirs(s, file.next);
        if rest.Err? then rest
        else Ok(Parsed([Redirection(file.tok, ModeOf(op.kind.c))] + rest.value.value, rest.value.next))
  }

  /** The loop of parseexec, with the arguments and redirections so far. */
  function Args(s: string, i: nat, argv: seq<Tok>, rs: seq<Redirection>): (r: Result<Parsed<Cmd>>)
    requires i <= |s|
    ensures r.Ok? ==> i <= r.value.next <= |s|
    decreases |s| - i
  {
    if Peek(s, i, "|)&;") then Ok(Parsed(Wrap(Exec(argv), rs), Skip(s, i)))
    else
      var t := GetToken(s, Skip(s, i));
      if t.kind.Eof? then Ok(Parsed(Wrap(Exec(argv), rs), t.next))
      else if !t.kind.Arg? then Err(BadSyntax)
      else if |argv| + 1 >= MAXARGS then Err(TooManyArgs)
      else
        var more := Redirs(s, t.next);
        if more.Err? then Err(more.error)
        else Args(s, more.value.next, argv + [t.tok], rs + more.value.value)
  }

  /** parseexec */
  function ParseExec(s: string, i: nat): (r: Result<Parsed<Cmd>>)
    requires i <= |s|
    ensures r.Ok? ==> i <= r.value.next <= |s|
    decreases |s| - i, 1
  {
    if Peek(s, i, "(") then ParseBlock(s, Skip(s, i))
    else
      var rs := Redirs(s, i);
      if rs.Err? then Err(rs.error) else Args(s, rs.value.next, [], rs.value.value)
  }

  /** parseblock, at an opening parenthesis. */
  function ParseBlock(s: string, i: nat): (r: Result<Parsed<Cmd>>)
    requires i < |s| && s[i] == '('
    ensures r.Ok? ==> i < r.value.next <= |s|
    decreases |s| - i, 0
  {
    var inner := ParseLine(s, GetToken(s, i).next);
    if inner.Err? then inner
    else if !Peek(s, inner.value.next, ")") then Err(MissingParen)
    else
      var rs := Redirs(s, GetToken(s, inner.value.next).next);
      if rs.Err? then Err(rs.error) else Ok(Parsed(Wrap(inner.value.value, rs.value.value), rs.value.next))
  }

  /** parsepipe */
  function ParsePipe(s: string, i: nat): (r: Result<Parsed<Cmd>>)
    requires i <= |s|
    ensures r.Ok? ==> i <= r.value.next <= |s|
    decreases |s| - i, 2
  {
    var left := ParseExec(s, i);
    if left.Err? then left
    else if !Peek(s, left.value.next, "|") then Ok(Parsed(left.value.value, Skip(s, left.value.next)))
    else
      var right := ParsePipe(s, GetToken(s, left.value.next).next);
      if right.Err? then right else Ok(Parsed(Pipe(left.value.value, right.value.value), right.value.next))
  }

  /** The loop of parseline over `&`. */
  function Backs(s: string, i: nat, cmd: Cmd): (r: Parsed<Cmd>)
    requires i <= |s|
    ensures i <= r.next <= |s|
    decreases |s| - i
  {
    if Peek(s, i, "&") then Backs(s, GetToken(s, i).next, Back(cmd)) else Parsed(cmd, Skip(s, i))
  }

  /** parseline */
  function ParseLine(s: string, i: nat): (r: Result<Parsed<Cmd>>)
    requires i <= |s|
    ensures r.Ok? ==> i <= r.value.next <= |s|
    decreases |s| - i, 3
  {
    var first := ParsePipe(s, i);
    if first.Err? then first
    else
      var left := Backs(s, first.value.next, first.value.value);
      if !Peek(s, left.next, ";") then Ok(Parsed(left.value, Skip(s, left.next)))
      else
        var right := ParseLine(s, GetToken(s, left.next).next);
        if right.Err? then right else Ok(Parsed(List(left.value, right.value.value), right.value.next))
  }

  /** parsecmd */
  function ParseCmd(s: string): (r: Result<Cmd>) {
    var line := ParseLine(s, 0);
    if line.Err? then Err(line.error)
    else if Skip(s, line.value.next) != |s| then Err(Leftovers)
    else Ok(line.value.value)
  }
}
