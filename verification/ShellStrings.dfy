/** nulterminate of user/sh.c: delimiters in the shared buffer become NULs, and every token becomes a C string. */
module ShellStrings {
  import opened ShellGrammar
  import opened Shell

  const NUL := '\0'

  /** All tokens of a command. */
  function Toks(c: Cmd): seq<Tok> {
    match c
    case Exec(argv) => argv
    case Redir(cmd, to) => Toks(cmd) + [to.file]
    case Pipe(l, r) => Toks(l) + Toks(r)
    case List(l, r) => Toks(l) + Toks(r)
    case Back(cmd) => Toks(cmd)
  }

  ghost predicate AllWords(s: string, ts: seq<Tok>) {
    forall k :: 0 <= k < |ts| ==> IsWord(s, ts[k])
  }

  ghost predicate AllFiles(s: string, rs: seq<Redirection>) {
    forall k :: 0 <= k < |rs| ==> IsWord(s, rs[k].file)
  }

  lemma {:induction false} WrapToks(s: string, c: Cmd, rs: seq<Redirection>)
    requires AllWords(s, Toks(c)) && AllFiles(s, rs)
    ensures AllWords(s, Toks(Wrap(c, rs)))
    decreases |rs|
  {
    if rs != [] {
      WrapToks(s, c, rs[..|rs| - 1]);
    }
  }

  lemma {:induction false} RedirsWords(s: string, i: nat)
    requires i <= |s| && Redirs(s, i).Ok?
    ensures AllFiles(s, Redirs(s, i).value.value)
    decreases |s| - i
  {
    if Peek(s, i, "<>") {
      RedirsWords(s, GetToken(s, GetToken(s, Skip(s, i)).next).next);
    }
  }

  lemma {:induction false} ArgsWords(s: string, i: nat, argv: seq<Tok>, rs: seq<Redirection>)
    requires i <= |s| && Args(s, i, argv, rs).Ok? && AllWords(s, argv) && AllFiles(s, rs)
    ensures AllWords(s, Toks(Args(s, i, argv, rs).value.value))
    decreases |s| - i
  {
    hide Redirs;
    WrapToks(s, Exec(argv), rs);
    ArgsSkip(s, i, argv, rs);
    ArgsOnce(s, Skip(s, i), argv, rs);
    var t := GetToken(s, Skip(s, i));
    if !Peek(s, i, "|)&;") && !t.kind.Eof? {
      RedirsWords(s, t.next);
      var more := Redirs(s, t.next).value;
      ArgsWords(s, more.next, argv + [t.tok], rs + more.value);
    }
  }

  /** Every token of a parsed command is a maximal run of word characters. */
  lemma {:induction false} ExecWords(s: string, i: nat)
    requires i <= |s| && ParseExec(s, i).Ok?
    ensures AllWords(s, Toks(ParseExec(s, i).value.value))
    decreases |s| - i, 1
  {
    hide Redirs, Args, ParseBlock;
    if Peek(s, i, "(") {
      BlockWords(s, Skip(s, i));
    } else {
      RedirsWords(s, i);
      ArgsWords(s, Redirs(s, i).value.next, [], Redirs(s, i).value.value);
    }
  }

  lemma {:induction false} BlockWords(s: string, i: nat)
    requires i < |s| && s[i] == '(' && ParseBlock(s, i).Ok?
    ensures AllWords(s, Toks(ParseBlock(s, i).value.value))
    decreases |s| - i, 0
  {
    hide Redirs, ParseLine;
    var j := GetToken(s, i).next;
    LineWords(s, j);
    var inner := ParseLine(s, j).value;
    RedirsWords(s, GetToken(s, inner.next).next);
    WrapToks(s, inner.value, Redirs(s, GetToken(s, inner.next).next).value.value);
  }

  lemma {:induction false} PipeWords(s: string, i: nat)
    requires i <= |s| && ParsePipe(s, i).Ok?
    ensures AllWords(s, Toks(ParsePipe(s, i).value.value))
    decreases |s| - i, 2
  {
    hide ParseExec;
    ExecWords(s, i);
    var left := ParseExec(s, i).value;
    if Peek(s, left.next, "|") {
      MovesOn(s, left.next, "|");
      PipeWords(s, GetToken(s, left.next).next);
    }
  }

  lemma {:induction false} BacksWords(s: string, i: nat, cmd: Cmd)
    requires i <= |s|
    ensures Toks(Backs(s, i, cmd).value) == Toks(cmd)
    decreases |s| - i
  {
    if Peek(s, i, "&") {
      MovesOn(s, i, "&");
      BacksWords(s, GetToken(s, i).next, Back(cmd));
    }
  }

  lemma {:induction false} LineWords(s: string, i: nat)
    requires i <= |s| && ParseLine(s, i).Ok?
    ensures AllWords(s, Toks(ParseLine(s, i).value.value))
    decreases |s| - i, 3
  {
    hide ParsePipe, Backs;
    PipeWords(s, i);
    var first := ParsePipe(s, i).value;
    BacksWords(s, first.next, first.value);
    var left := Backs(s, first.next, first.value);
    if Peek(s, left.next, ";") {
      MovesOn(s, left.next, ";");
      LineWords(s, GetToken(s, left.next).next);
    }
  }

  /** The buffer with NULs at the ends of `ts`. */
  function Cut(b: seq<char>, ts: seq<Tok>): (r: seq<char>)
    ensures |r| == |b|
  {
    seq(|b|, k requires 0 <= k < |b| => if Ends(ts, k) then NUL else b[k])
  }

  predicate Ends(ts: seq<Tok>, k: int) {
    exists j :: 0 <= j < |ts| && ts[j].hi == k
  }

  lemma CutMore(b: seq<char>, a: seq<Tok>, c: seq<Tok>)
    ensures Cut(Cut(b, a), c) == Cut(b, a + c)
  {
    forall k | 0 <= k < |b| ensures Ends(a + c, k) <==> Ends(a, k) || Ends(c, k) {
      if j :| 0 <= j < |a| && a[j].hi == k {
        assert (a + c)[j].hi == k;
      }
      if j :| 0 <= j < |c| && c[j].hi == k {
        assert (a + c)[|a| + j].hi == k;
      }
    }
  }

  lemma CutOne(b: seq<char>, t: Tok)
    requires t.hi < |b|
    ensures Cut(b, [t]) == b[t.hi := NUL]
  {
    assert [t][0].hi == t.hi;
  }

  lemma CutNone(b: seq<char>)
    ensures Cut(b, []) == b
  {}

  /** nulterminate */
  method NulTerminate(buf: array<char>, c: Cmd)
    requires Fits(Toks(c), buf.Length)
    modifies buf
    ensures buf[..] == Cut(old(buf[..]), Toks(c))
    decreases c
  {
    hide Cut;
    match c
    case Exec(argv) =>
      CutNone(buf[..]);
      for i := 0 to |argv|
        invariant buf[..] == Cut(old(buf[..]), argv[..i])
      {
        assert Toks(c)[i].hi < buf.Length;
        CutOne(buf[..], argv[i]);
        CutMore(old(buf[..]), argv[..i], [argv[i]]);
        assert argv[..i + 1] == argv[..i] + [argv[i]];
        buf[argv[i].hi] := NUL;
      }
      assert argv[..|argv|] == argv;
    case Redir(cmd, to) =>
      SplitToks(Toks(cmd), [to.file], buf.Length);
      assert [to.file][0].hi < buf.Length;
      NulTerminate(buf, cmd);
      CutOne(buf[..], to.file);
      CutMore(old(buf[..]), Toks(cmd), [to.file]);
      buf[to.file.hi] := NUL;
    case Pipe(l, r) =>
      SplitToks(Toks(l), Toks(r), buf.Length);
      NulTerminate(buf, l);
      NulTerminate(buf, r);
      CutMore(old(buf[..]), Toks(l), Toks(r));
    case List(l, r) =>
      SplitToks(Toks(l), Toks(r), buf.Length);
      NulTerminate(buf, l);
      NulTerminate(buf, r);
      CutMore(old(buf[..]), Toks(l), Toks(r));
    case Back(cmd) => NulTerminate(buf, cmd);
  }

  ghost predicate Fits(ts: seq<Tok>, n: int) {
    forall k :: 0 <= k < |ts| ==> ts[k].hi < n
  }

  lemma SplitToks(a: seq<Tok>, b: seq<Tok>, n: nat)
    requires Fits(a + b, n)
    ensures Fits(a, n) && Fits(b, n)
  {
    forall k | 0 <= k < |a| ensures a[k].hi < n {
      assert (a + b)[k] == a[k];
    }
    forall k | 0 <= k < |b| ensures b[k].hi < n {
      assert (a + b)[|a| + k] == b[k];
    }
  }

  /** The C string that starts at `lo`. */
  function CString(b: seq<char>, lo: nat): string
    decreases |b| - lo
  {
    if lo >= |b| || b[lo] == NUL then "" else [b[lo]] + CString(b, lo + 1)
  }

  lemma {:induction false} CStringIs(b: seq<char>, lo: nat, hi: nat)
    requires lo <= hi < |b| && b[hi] == NUL && forall k :: lo <= k < hi ==> b[k] != NUL
    ensures CString(b, lo) == b[lo..hi]
    decreases hi - lo
  {
    if lo < hi {
      CStringIs(b, lo + 1, hi);
      assert b[lo..hi] == [b[lo]] + b[lo + 1..hi];
    }
  }

  /** After nulterminate every token of the command, read as a C string, is exactly what stood there in the text. */
  lemma Terminated(s: string, c: Cmd, j: nat)
    requires AllWords(s, Toks(c)) && j < |Toks(c)| && NUL !in s
    ensures var t := Toks(c)[j]; t.lo <= t.hi <= |s| && CString(Cut(s + [NUL], Toks(c)), t.lo) == s[t.lo..t.hi]
  {
    var ts := Toks(c);
    var t, b := ts[j], Cut(s + [NUL], ts);
    assert IsWord(s, t);
    forall k | t.lo <= k < t.hi ensures b[k] == s[k] && b[k] != NUL {
      assert Word(s[k]) && s[k] in s;
      forall m | 0 <= m < |ts| ensures ts[m].hi != k {
        assert IsWord(s, ts[m]);
      }
      assert !Ends(ts, k);
    }
    assert Ends(ts, t.hi);
    CStringIs(b, t.lo, t.hi);
    assert b[t.lo..t.hi] == s[t.lo..t.hi];
  }

  /** parsecmd: parse, then cut the buffer up. */
  method ParseAndTerminate(s: string) returns (r: Result<Cmd>, buf: array<char>)
    requires NUL !in s
    ensures r == ParseCmd(s) && buf.Length == |s| + 1 && fresh(buf)
    ensures r.Ok? ==> forall j :: 0 <= j < |Toks(r.value)| ==>
              var t := Toks(r.value)[j]; t.lo < t.hi <= |s| && CString(buf[..], t.lo) == s[t.lo..t.hi]
  {
    hide ParseLine, CString, Cut;
    buf := new char[|s| + 1](k requires 0 <= k <= |s| => if k < |s| then s[k] else NUL);
    assert buf[..] == s + [NUL];
    var p := new Parser(s);
    r := p.ParseCommand();
    if r.Ok? {
      LineWords(s, 0);
      ghost var ts := Toks(r.value);
      forall k | 0 <= k < |ts| ensures ts[k].hi < buf.Length {
        assert IsWord(s, ts[k]);
      }
      NulTerminate(buf, r.value);
      forall j | 0 <= j < |ts| ensures ts[j].lo < ts[j].hi <= |s|
      && CString(buf[..], ts[j].lo) == s[ts[j].lo..ts[j].hi] {
        assert IsWord(s, ts[j]);
        Terminated(s, r.value, j);
      }
    }
  }
}
