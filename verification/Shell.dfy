/** The parser of user/sh.c as it runs: a cursor that moves through the text. */
module Shell {
  import opened ShellGrammar

  class Parser {
    const s: string
    var pos: nat                          // *ps

    constructor (s: string)
      ensures this.s == s && pos == 0
    {
      this.s, pos := s, 0;
    }

    method SkipSpace()
      requires pos <= |s|
      modifies this
      ensures pos == Skip(s, old(pos))
    {
      while pos < |s| && Ws(s[pos])
        invariant pos <= |s| && Skip(s, pos) == Skip(s, old(pos))
      {
        pos := pos + 1;
      }
    }

    /** peek */
    method PeekAt(toks: string) returns (b: bool)
      requires pos <= |s|
      modifies this
      ensures pos == Skip(s, old(pos)) && b == Peek(s, old(pos), toks)
    {
      SkipSpace();
      b := pos < |s| && s[pos] in toks;
    }

    /** gettoken */
    method NextToken() returns (k: Kind, t: Tok)
      requires pos <= |s|
      modifies this
      ensures Token(k, t, pos) == GetToken(s, old(pos))
    {
      SkipSpace();
      var lo := pos;
      if pos == |s| {
        k := Eof;
      } else if s[pos] == '>' {
        k := Op('>');
        pos := pos + 1;
        if pos < |s| && s[pos] == '>' {
          k := Op('+');
          pos := pos + 1;
        }
      } else if Sym(s[pos]) {
        k := Op(s[pos]);
        pos := pos + 1;
      } else {
        k := Arg;
        while pos < |s| && Word(s[pos])
          invariant lo <= pos <= |s| && WordEnd(s, pos) == WordEnd(s, lo)
        {
          pos := pos + 1;
        }
      }
      t := Tok(lo, pos);
      SkipSpace();
    }

    /** parseredirs */
    method ParseRedirs(cmd: Cmd) returns (r: Result<Cmd>)
      requires pos <= |s|
      modifies this
      ensures var spec := Redirs(s, old(pos));
              if spec.Err? then r == Err(spec.error) else r == Ok(Wrap(cmd, spec.value.value)) && pos == spec.value.next
    {
      hide Redirs, GetToken, Skip, Peek, After;
      ghost var rs: seq<Redirection> := [];
      var ret := cmd;
      RedirsSkip(s, pos);
      AfterNone(Redirs(s, pos));
      var more := PeekAt("<>");
      while more
        invariant pos <= |s| && Skip(s, pos) == pos && ret == Wrap(cmd, rs) && more == Peek(s, pos, "<>")
        invariant Redirs(s, old(pos)) == After(rs, Redirs(s, pos))
        decreases |s| - pos, more
      {
        RedirsOnce(s, pos);
        var op, _ := NextToken();
        var k, file := NextToken();
        if k != Arg {
          AfterErr(rs, MissingFile);
          return Err(MissingFile);
        }
        var to := Redirection(file, if op == Op('<') then In else if op == Op('>') then Out else Append);
        WrapMore(cmd, rs, to);
        ret := Redir(ret, to);
        AfterMore(rs, to, Redirs(s, pos));
        rs := rs + [to];
        RedirsSkip(s, pos);
        more := PeekAt("<>");
      }
      RedirsOnce(s, pos);
      AfterDone(rs, pos);
      r := Ok(ret);
    }

    /** The outcome of a parse function: its result and where it leaves the cursor. */
    ghost predicate Agrees(r: Result<Cmd>, spec: Result<Parsed<Cmd>>)
      reads this
    {
      if spec.Err? then r == Err(spec.error) else r == Ok(spec.value.value) && pos == spec.value.next
    }

    /** parseexec */
    method ParseExecAt() returns (r: Result<Cmd>)
      requires pos <= |s|
      modifies this
      ensures Agrees(r, ParseExec(s, old(pos)))
      decreases |s| - pos, 1
    {
      hide Redirs, GetToken, Skip, Peek, Args, ParseBlock;
      var b := PeekAt("(");
      RedirsSkip(s, old(pos));
      if b {
        OpensAt(s, old(pos));
        r := ParseBlockAt();
        return;
      }
      r := ParseRedirs(Exec([]));
      if r.Err? {
        return;
      }
      r := ParseArgs(r.value, Redirs(s, old(pos)).value.value);
    }

    /** The argument loop of parseexec. The command being built is the arguments so far inside the redirections so
        far. */
    method ParseArgs(start: Cmd, ghost rs0: seq<Redirection>) returns (r: Result<Cmd>)
      requires pos <= |s| && start == Wrap(Exec([]), rs0)
      modifies this
      ensures Agrees(r, Args(s, old(pos), [], rs0))
    {
      hide Redirs, GetToken, Skip, Peek, Args;
      var argv: seq<Tok> := [];
      var ret := start;
      ghost var rs := rs0;
      ArgsSkip(s, pos, argv, rs);
      var stop := PeekAt("|)&;");
      while !stop
        invariant pos <= |s| && Skip(s, pos) == pos && ret == Wrap(Exec(argv), rs) && stop == Peek(s, pos, "|)&;")
        invariant Args(s, old(pos), [], rs0) == Args(s, pos, argv, rs)
        decreases |s| - pos, !stop
      {
        ArgsOnce(s, pos, argv, rs);
        var k, t := NextToken();
        if k == Eof {
          break;
        }
        if k != Arg {
          return Err(BadSyntax);
        }
        if |argv| + 1 >= MAXARGS {
          return Err(TooManyArgs);
        }
        ret := AddArg(ret, t);
        WrapArg(argv, rs, t);
        argv := argv + [t];
        ghost var p := pos;
        var more := ParseRedirs(ret);
        if more.Err? {
          return more;
        }
        WrapBoth(Exec(argv), rs, Redirs(s, p).value.value);
        ret, rs := more.value, rs + Redirs(s, p).value.value;
        ArgsSkip(s, pos, argv, rs);
        stop := PeekAt("|)&;");
      }
      ArgsOnce(s, pos, argv, rs);
      r := Ok(ret);
    }

    /** parseblock */
    method ParseBlockAt() returns (r: Result<Cmd>)
      requires pos < |s| && s[pos] == '('
      modifies this
      ensures Agrees(r, ParseBlock(s, old(pos)))
      decreases |s| - pos, 0
    {
      hide Redirs, GetToken, Skip, Peek, ParseLine;
      var _, _ := NextToken();
      OpensAt(s, old(pos));
      r := ParseLineAt();
      if r.Err? {
        return;
      }
      ghost var p := pos;
      var b := PeekAt(")");
      if !b {
        return Err(MissingParen);
      }
      RedirsSkip(s, p);
      var _, _ := NextToken();
      r := ParseRedirs(r.value);
    }

    /** parsepipe */
    method ParsePipeAt() returns (r: Result<Cmd>)
      requires pos <= |s|
      modifies this
      ensures Agrees(r, ParsePipe(s, old(pos)))
      decreases |s| - pos, 2
    {
      hide GetToken, Skip, Peek, ParseExec;
      r := ParseExecAt();
      if r.Err? {
        return;
      }
      ghost var p := pos;
      var b := PeekAt("|");
      RedirsSkip(s, p);
      if b {
        MovesOn(s, p, "|");
        var _, _ := NextToken();
        var right := ParsePipeAt();
        r := if right.Err? then right else Ok(Pipe(r.value, right.value));
      }
    }

    /** parseline */
    method ParseLineAt() returns (r: Result<Cmd>)
      requires pos <= |s|
      modifies this
      ensures Agrees(r, ParseLine(s, old(pos)))
      decreases |s| - pos, 3
    {
      hide GetToken, Skip, Peek, ParsePipe, Backs;
      r := ParsePipeAt();
      if r.Err? {
        return;
      }
      var cmd := ParseBacks(r.value);
      r := Ok(cmd);
      ghost var p := pos;
      var b := PeekAt(";");
      RedirsSkip(s, p);
      if b {
        MovesOn(s, p, ";");
        var _, _ := NextToken();
        var right := ParseLineAt();
        r := if right.Err? then right else Ok(List(cmd, right.value));
      }
    }

    method ParseBacks(cmd: Cmd) returns (ret: Cmd)
      requires pos <= |s|
      modifies this
      ensures Parsed(ret, pos) == Backs(s, old(pos), cmd)
    {
      hide GetToken, Skip, Peek;
      ret := cmd;
      BacksSkip(s, pos, cmd);
      var b := PeekAt("&");
      while b
        invariant pos <= |s| && Skip(s, pos) == pos && b == Peek(s, pos, "&")
                  && Backs(s, pos, ret) == Backs(s, old(pos), cmd)
        decreases |s| - pos, b
      {
        MovesOn(s, pos, "&");
        var _, _ := NextToken();
        ret := Back(ret);
        BacksSkip(s, pos, ret);
        b := PeekAt("&");
      }
    }

    /** parsecmd up to nulterminate. */
    method ParseCommand() returns (r: Result<Cmd>)
      requires pos == 0
      modifies this
      ensures r == ParseCmd(s)
    {
      hide ParseLine;
      r := ParseLineAt();
      if r.Ok? {
        var _ := PeekAt("");
        if pos != |s| {
          r := Err(Leftovers);
        }
      }
    }
  }

  /** cmd->argv[argc] = q, through whatever redirections have been wrapped round the command. */
  function AddArg(c: Cmd, t: Tok): Cmd {
    match c
    case Exec(argv) => Exec(argv + [t])
    case Redir(cmd, to) => Redir(AddArg(cmd, t), to)
    case _ => c
  }

  lemma {:induction false} WrapArg(argv: seq<Tok>, rs: seq<Redirection>, t: Tok)
    ensures AddArg(Wrap(Exec(argv), rs), t) == Wrap(Exec(argv + [t]), rs)
    decreases |rs|
  {
    if rs != [] {
      WrapArg(argv, rs[..|rs| - 1], t);
    }
  }

  lemma {:induction false} WrapBoth(c: Cmd, a: seq<Redirection>, b: seq<Redirection>)
    ensures Wrap(Wrap(c, a), b) == Wrap(c, a + b)
    decreases |b|
  {
    if b == [] {
      assert a + b == a;
    } else {
      var k := |b| - 1;
      WrapBoth(c, a, b[..k]);
      assert (a + b)[..|a + b| - 1] == a + b[..k];
    }
  }

  lemma OpensAt(s: string, i: nat)
    requires i <= |s| && Peek(s, i, "(")
    ensures Skip(s, i) < |s| && s[Skip(s, i)] == '(' && Skip(s, Skip(s, i)) == Skip(s, i)
    ensures i < |s| && s[i] == '(' ==> GetToken(s, i).next > i
  {}

  lemma MovesOn(s: string, i: nat, toks: string)
    requires i <= |s| && Peek(s, i, toks)
    ensures GetToken(s, i).next > i && GetToken(s, Skip(s, i)) == GetToken(s, i)
  {}

  lemma BacksSkip(s: string, i: nat, cmd: Cmd)
    requires i <= |s|
    ensures Backs(s, Skip(s, i), cmd) == Backs(s, i, cmd) && Skip(s, Skip(s, i)) == Skip(s, i)
    ensures Peek(s, Skip(s, i), "&") == Peek(s, i, "&")
  {}

  lemma ArgsSkip(s: string, i: nat, argv: seq<Tok>, rs: seq<Redirection>)
    requires i <= |s|
    ensures Args(s, Skip(s, i), argv, rs) == Args(s, i, argv, rs) && Skip(s, Skip(s, i)) == Skip(s, i)
    ensures Peek(s, Skip(s, i), "|)&;") == Peek(s, i, "|)&;")
  {
    hide Redirs;
  }

  /** One turn of the loop of parseexec. */
  lemma ArgsOnce(s: string, i: nat, argv: seq<Tok>, rs: seq<Redirection>)
    requires i <= |s| && Skip(s, i) == i
    ensures var t := GetToken(s, i);
            if Peek(s, i, "|)&;") then Args(s, i, argv, rs) == Ok(Parsed(Wrap(Exec(argv), rs), i))
            else if t.kind.Eof? then Args(s, i, argv, rs) == Ok(Parsed(Wrap(Exec(argv), rs), i)) && t.next == i
                                     && !Peek(s, t.next, "|)&;")
            else i < t.next && Args(s, i, argv, rs) ==
                   if !t.kind.Arg? then Err(BadSyntax) else if |argv| + 1 >= MAXARGS then Err(TooManyArgs)
                   else var more := Redirs(s, t.next);
                        if more.Err? then Err(more.error)
                          else Args(s, more.value.next, argv + [t.tok], rs + more.value.value)
  {
    hide Redirs;
  }

  /** Redirections found before those of `rest`. */
  function After(rs: seq<Redirection>, rest: Result<Parsed<seq<Redirection>>>): Result<Parsed<seq<Redirection>>> {
    if rest.Err? then rest else Ok(Parsed(rs + rest.value.value, rest.value.next))
  }

  lemma AfterMore(rs: seq<Redirection>, x: Redirection, rest: Result<Parsed<seq<Redirection>>>)
    ensures After(rs, After([x], rest)) == After(rs + [x], rest)
  {
    if rest.Ok? {
      assert rs + ([x] + rest.value.value) == rs + [x] + rest.value.value;
    }
  }

  lemma AfterNone(rest: Result<Parsed<seq<Redirection>>>)
    ensures After([], rest) == rest
  {
    if rest.Ok? {
      assert [] + rest.value.value == rest.value.value;
    }
  }

  lemma AfterErr(rs: seq<Redirection>, e: Error)
    ensures After(rs, Err(e)) == Err(e)
  {}

  lemma AfterDone(rs: seq<Redirection>, i: nat)
    ensures After(rs, Ok(Parsed([], i))) == Ok(Parsed(rs, i))
  {
    assert rs + [] == rs;
  }

  /** One turn of parseredirs. */
  lemma RedirsOnce(s: string, i: nat)
    requires i <= |s|
    ensures Skip(s, i) == i && !Peek(s, i, "<>") ==> Redirs(s, i) == Ok(Parsed([], i))
    ensures Peek(s, i, "<>") ==>
              var op := GetToken(s, i);
              var file := GetToken(s, op.next);
              && op.kind.Op? && i < op.next && op.next <= file.next
              && Redirs(s, i) == if file.kind.Arg?
                   then After([Redirection(file.tok, ModeOf(op.kind.c))], Redirs(s, file.next)) else Err(MissingFile)
  {
    RedirsSkip(s, i);
  }

  lemma WrapMore(cmd: Cmd, rs: seq<Redirection>, x: Redirection)
    ensures Wrap(cmd, rs + [x]) == Redir(Wrap(cmd, rs), x)
  {
    assert (rs + [x])[..|rs|] == rs;
  }

  /** White space before redirections makes no difference. */
  lemma RedirsSkip(s: string, i: nat)
    requires i <= |s|
    ensures Skip(s, Skip(s, i)) == Skip(s, i) && Redirs(s, Skip(s, i)) == Redirs(s, i)
    ensures forall toks :: Peek(s, Skip(s, i), toks) == Peek(s, i, toks)
    ensures GetToken(s, Skip(s, i)) == GetToken(s, i)
  {}
}
