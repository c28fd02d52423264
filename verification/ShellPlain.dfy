/** Texts as one would type them, with parentheses only where the grammar of user/sh.c needs them: lists and pipelines
    nest to the right, and a simple command has its words and redirections in any order. */
module ShellPlain {
  import opened ShellGrammar
  import opened ShellRound
  import opened ShellStrings

  /** A redirection as it is typed. */
  datatype Rd = Rd(mode: Mode, file: string)

  /** A word of a simple command and the redirections up to the next one. */
  datatype Group = Group(word: string, rds: seq<Rd>)

  function RdText(rds: seq<Rd>): string {
    if rds == [] then "" else OpText(rds[0].mode) + rds[0].file + RdText(rds[1..])
  }

  function GroupsText(gs: seq<Group>): string {
    if gs == [] then ""
    else gs[0].word + RdText(gs[0].rds) + if |gs| == 1 then "" else " " + GroupsText(gs[1..])
  }

  /** A simple command: redirections, then words each with the redirections behind it. */
  function SimpleText(rds: seq<Rd>, gs: seq<Group>): string {
    RdText(rds) + (if rds != [] && gs != [] then " " else "") + GroupsText(gs)
  }

  function Words(gs: seq<Group>): (ws: seq<string>)
    ensures |ws| == |gs|
  {
    if gs == [] then [] else [gs[0].word] + Words(gs[1..])
  }

  function AllRds(gs: seq<Group>): seq<Rd> {
    if gs == [] then [] else gs[0].rds + AllRds(gs[1..])
  }

  predicate LegalRds(rds: seq<Rd>) { forall k :: 0 <= k < |rds| ==> LegalWord(rds[k].file) }

  predicate LegalGroups(gs: seq<Group>) { forall k :: 0 <= k < |gs| ==> LegalWord(gs[k].word) && LegalRds(gs[k].rds) }

  /** The tree that redirections make of a command. */
  function TWrap(t: Tree, rds: seq<Rd>): Tree
    decreases |rds|
  {
    if rds == [] then t
    else var k := |rds| - 1; TRedir(TWrap(t, rds[..k]), rds[k].file, rds[k].mode)
  }

  /** A simple command ends here: the end of the text, or a symbol that is no redirection. */
  predicate Follow(s: string, i: nat) {
    i == |s| || (i < |s| && s[i] in ")|;&")
  }

  /** Parsed redirections stand for these. */
  ghost predicate Stand(s: string, rs: seq<Redirection>, rds: seq<Rd>) {
    |rs| == |rds| && forall k :: 0 <= k < |rs| ==> rs[k].mode == rds[k].mode && Spell(s, rs[k].file) == rds[k].file
  }

  lemma {:induction false} WrapStands(s: string, c: Cmd, rs: seq<Redirection>, rds: seq<Rd>)
    requires Stand(s, rs, rds)
    ensures Meaning(s, Wrap(c, rs)) == TWrap(Meaning(s, c), rds)
    decreases |rs|
  {
    if rs != [] {
      WrapStands(s, c, rs[..|rs| - 1], rds[..|rs| - 1]);
    }
  }

  /** No redirection comes next. */
  predicate RdEnd(s: string, j: nat) {
    j <= |s| && var k := Skip(s, j); k < |s| ==> s[k] != '<' && s[k] != '>'
  }

  /** No word goes on here. */
  predicate WordEnds(s: string, j: nat) {
    j <= |s| && (j < |s| ==> !Word(s[j]))
  }

  /** Redirections one after the other come back in order. */
  lemma {:induction false} RdsRound(s: string, i: nat, rds: seq<Rd>)
    requires At(s, i, RdText(rds)) && LegalRds(rds)
    requires RdEnd(s, i + |RdText(rds)|) && (rds != [] ==> WordEnds(s, i + |RdText(rds)|))
    ensures var r := Redirs(s, i);
            r.Ok? && r.value.next == Skip(s, i + |RdText(rds)|) && Stand(s, r.value.value, rds)
    decreases |rds|
  {
    hide GetToken, LegalWord, OpText, WordEnd, Word, Redirs, Skip, Peek, Spell, RdEnd, At, RdText;
    if rds == [] {
      assert RdText(rds) == "" by { NoText(); }
      NoRds(s, i);
    } else {
      var op, file := OpText(rds[0].mode), rds[0].file;
      FirstRd(s, i, rds);
      var j := i + |op| + |file|;
      NotWordAfter(s, j, rds[1..]);
      TokenIs(s, i + |op|, file);
      RedirOp(s, i, rds[0].mode);
      AfterFile(s, j, rds[1..]);
      RdsRound(s, j, rds[1..]);
      RedirsMore(s, i, GetToken(s, i), GetToken(s, i + |op|), Redirs(s, j).value);
    }
  }

  lemma AtBound(s: string, i: nat, w: string)
    requires At(s, i, w)
    ensures i + |w| <= |s|
  {}

  lemma NoText()
    ensures RdText([]) == ""
  {}

  lemma FirstRd(s: string, i: nat, rds: seq<Rd>)
    requires rds != [] && At(s, i, RdText(rds))
    ensures var op, file := OpText(rds[0].mode), rds[0].file;
            && At(s, i, op) && At(s, i + |op|, file) && At(s, i + |op| + |file|, RdText(rds[1..]))
            && |RdText(rds)| == |op| + |file| + |RdText(rds[1..])| && i + |op| + |file| <= |s|
  {
    hide At, OpText;
    var op, file, rest := OpText(rds[0].mode), rds[0].file, RdText(rds[1..]);
    assert RdText(rds) == op + (file + rest);
    AtBound(s, i, op + (file + rest));
    AtPart(s, i, op, file + rest);
    AtPart(s, i + |op|, file, rest);
  }

  lemma NoRds(s: string, i: nat)
    requires RdEnd(s, i)
    ensures Redirs(s, i) == Ok(Parsed([], Skip(s, i)))
  {}

  /** What stands behind a file name is another redirection or the end of them. */
  lemma NotWordAfter(s: string, j: nat, rds: seq<Rd>)
    requires At(s, j, RdText(rds)) && WordEnds(s, j + |RdText(rds)|)
    ensures WordEnds(s, j)
  {
    if rds != [] {
      AtChar(s, j, RdText(rds), 0);
    }
  }

  lemma AfterFile(s: string, j: nat, rds: seq<Rd>)
    requires At(s, j, RdText(rds)) && RdEnd(s, j + |RdText(rds)|)
    ensures Redirs(s, Skip(s, j)) == Redirs(s, j)
  {
    SkipTwice(s, j);
    if rds != [] {
      AtChar(s, j, RdText(rds), 0);
    }
  }

  lemma {:induction false} SkipTwice(s: string, j: nat)
    requires j <= |s|
    ensures Skip(s, Skip(s, j)) == Skip(s, j)
    decreases |s| - j
  {}

  lemma RedirsMore(s: string, i: nat, op: Token, file: Token, rest: Parsed<seq<Redirection>>)
    requires i <= |s| && Peek(s, i, "<>") && Skip(s, i) == i && op == GetToken(s, i) && file == GetToken(s, op.next)
    requires op.kind.Op? && file.kind.Arg? && Redirs(s, file.next) == Ok(rest)
    ensures Redirs(s, i) == Ok(Parsed([Redirection(file.tok, ModeOf(op.kind.c))] + rest.value, rest.next))
  {
    hide GetToken;
  }

  /** The argument loop once it has read `toks` and `rs`. */
  lemma {:induction false} GroupsRound(s: string, i: nat, gs: seq<Group>, toks: seq<Tok>, rs: seq<Redirection>,
      rds: seq<Rd>)
    requires At(s, i, GroupsText(gs)) && LegalGroups(gs) && Follow(s, i + |GroupsText(gs)|) && |toks| + |gs| < MAXARGS
    requires Stand(s, rs, rds)
    ensures var r := Args(s, i, toks, rs);
            && r.Ok? && r.value.next == i + |GroupsText(gs)|
            && Meaning(s, r.value.value) == TWrap(TExec(Spells(s, toks) + Words(gs)), rds + AllRds(gs))
    decreases |gs|
  {
    hide At, GroupsText, Redirs, Args, Skip, RdText, Stand, Spells, TWrap, Meaning, Words, AllRds, LegalWord, LegalRds,
         Wrap;
    if gs == [] {
      GroupsDone(s, i, toks, rs, rds);
    } else {
      var w, more := gs[0].word, gs[0].rds;
      FirstGroup(s, i, gs);
      var j := i + |w|;
      TokenIs(s, i, w);
      RdsRound(s, j, more);
      var got := Redirs(s, j).value;
      ArgsMore(s, i, w, toks, rs, got);
      StandMore(s, rs, rds, got.value, more);
      GroupsRound(s, got.next, gs[1..], toks + [Tok(i, j)], rs + got.value, rds + more);
      SpellsMore(s, toks, Tok(i, j));
      GroupsAre(gs, Spells(s, toks), rds);
    }
  }

  lemma GroupsAre(gs: seq<Group>, ws: seq<string>, rds: seq<Rd>)
    requires gs != []
    ensures ws + [gs[0].word] + Words(gs[1..]) == ws + Words(gs)
    ensures rds + gs[0].rds + AllRds(gs[1..]) == rds + AllRds(gs)
  {
    Assoc(ws, [gs[0].word], Words(gs[1..]));
    Assoc(rds, gs[0].rds, AllRds(gs[1..]));
  }

  lemma Assoc<T>(a: seq<T>, b: seq<T>, c: seq<T>)
    ensures a + b + c == a + (b + c)
  {}

  lemma StandMore(s: string, rs: seq<Redirection>, rds: seq<Rd>, rs': seq<Redirection>, rds': seq<Rd>)
    requires Stand(s, rs, rds) && Stand(s, rs', rds')
    ensures Stand(s, rs + rs', rds + rds')
  {}

  lemma GroupsDone(s: string, i: nat, toks: seq<Tok>, rs: seq<Redirection>, rds: seq<Rd>)
    requires i <= |s| && Follow(s, i + |GroupsText([])|) && Stand(s, rs, rds)
    ensures var r := Args(s, i, toks, rs);
            && r.Ok? && r.value.next == i + |GroupsText([])|
            && Meaning(s, r.value.value) == TWrap(TExec(Spells(s, toks) + Words([])), rds + AllRds([]))
  {
    hide Args, Wrap, TWrap, Stand, Spells;
    assert Spells(s, toks) + Words([]) == Spells(s, toks) && rds + AllRds([]) == rds;
    WrapStands(s, Exec(toks), rs, rds);
    ArgsEnd(s, i, toks, rs);
  }

  lemma ArgsEnd(s: string, i: nat, toks: seq<Tok>, rs: seq<Redirection>)
    requires i <= |s| && Follow(s, i)
    ensures Args(s, i, toks, rs) == Ok(Parsed(Wrap(Exec(toks), rs), i))
  {}

  /** One word and what is redirected behind it. */
  lemma ArgsMore(s: string, i: nat, w: string, toks: seq<Tok>, rs: seq<Redirection>, more: Parsed<seq<Redirection>>)
    requires At(s, i, w) && LegalWord(w) && i + |w| <= |s| && (i + |w| < |s| ==> !Word(s[i + |w|]))
             && |toks| + 1 < MAXARGS
    requires Redirs(s, Skip(s, i + |w|)) == Ok(more)
    ensures Args(s, i, toks, rs) == Args(s, more.next, toks + [Tok(i, i + |w|)], rs + more.value)
  {
    hide Redirs, GetToken, Skip, WordEnd;
    TokenIs(s, i, w);
    assert !Peek(s, i, "|)&;");
  }

  /** Where the first word of the groups is, its redirections, and the rest. */
  lemma FirstGroup(s: string, i: nat, gs: seq<Group>)
    requires gs != [] && At(s, i, GroupsText(gs)) && LegalGroups(gs) && Follow(s, i + |GroupsText(gs)|)
    ensures var w, rds := gs[0].word, gs[0].rds;
            var j, k := i + |w|, i + |w| + |RdText(rds)|;
            && At(s, i, w) && LegalWord(w) && At(s, j, RdText(rds)) && LegalRds(rds) && RdEnd(s, k) && WordEnds(s, k)
            && WordEnds(s, j) && Redirs(s, Skip(s, j)) == Redirs(s, j)
            && LegalGroups(gs[1..]) && At(s, Skip(s, k), GroupsText(gs[1..]))
            && Skip(s, k) + |GroupsText(gs[1..])| == i + |GroupsText(gs)|
  {
    hide At, RdText, Redirs, LegalWord, LegalRds;
    var w, rds, rest := gs[0].word, gs[0].rds, gs[1..];
    var j, k := i + |w|, i + |w| + |RdText(rds)|;
    var tail := if |gs| == 1 then "" else " " + GroupsText(rest);
    assert GroupsText(gs) == w + (RdText(rds) + tail);
    AtBound(s, i, GroupsText(gs));
    AtPart(s, i, w, RdText(rds) + tail);
    AtPart(s, j, RdText(rds), tail);
    GroupsTail(s, k, rest);
    NotWordAfter(s, j, rds);
    AfterFile(s, j, rds);
  }

  lemma GroupsTail(s: string, k: nat, rest: seq<Group>)
    requires LegalGroups(rest)
    requires var tail := if rest == [] then "" else " " + GroupsText(rest); At(s, k, tail) && Follow(s, k + |tail|)
    ensures RdEnd(s, k) && WordEnds(s, k) && At(s, Skip(s, k), GroupsText(rest))
    ensures Skip(s, k) == if rest == [] then k else k + 1
  {
    if rest != [] {
      AtPart(s, k, " ", GroupsText(rest));
      AtChar(s, k, " ", 0);
      assert GroupsText(rest)[0] == rest[0].word[0];
      AtChar(s, k + 1, GroupsText(rest), 0);
    }
  }

  /** parseexec gives a command back and stops right behind its text. */
  ghost predicate ExecIs(s: string, i: nat, end: nat, t: Tree) {
    && i <= end <= |s| && ParseExec(s, i).Ok?
    && ParseExec(s, i).value.next == end && Meaning(s, ParseExec(s, i).value.value) == t
  }

  /** A simple command, its words and redirections mixed as they may be, is its words with all the redirections round
      it in the order they come. */
  lemma SimpleComes(s: string, i: nat, rds: seq<Rd>, gs: seq<Group>)
    requires At(s, i, SimpleText(rds, gs)) && Follow(s, i + |SimpleText(rds, gs)|)
    requires LegalRds(rds) && LegalGroups(gs) && |gs| < MAXARGS
    ensures ExecIs(s, i, i + |SimpleText(rds, gs)|, TWrap(TExec(Words(gs)), rds + AllRds(gs)))
  {
    hide At, Redirs, Args, Skip, RdText, GroupsText, Stand, Spells, TWrap, Meaning, Words, AllRds, LegalWord, LegalRds,
         Peek;
    AtBound(s, i, SimpleText(rds, gs));
    SimpleParts(s, i, rds, gs);
    RdsRound(s, i, rds);
    var rs := Redirs(s, i).value;
    GroupsRound(s, rs.next, gs, [], rs.value, rds);
    assert Spells(s, []) == [] by { NoSpells(s); }
    assert [] + Words(gs) == Words(gs);
    assert ParseExec(s, i) == Args(s, rs.next, [], rs.value);
  }

  lemma SimpleParts(s: string, i: nat, rds: seq<Rd>, gs: seq<Group>)
    requires At(s, i, SimpleText(rds, gs)) && Follow(s, i + |SimpleText(rds, gs)|) && LegalGroups(gs)
    ensures var j := i + |RdText(rds)|;
            && i <= |s| && At(s, i, RdText(rds)) && RdEnd(s, j) && (rds != [] ==> WordEnds(s, j)) && !Peek(s, i, "(")
            && At(s, Skip(s, j), GroupsText(gs)) && Skip(s, j) + |GroupsText(gs)| == i + |SimpleText(rds, gs)|
  {
    hide At, RdText, GroupsText, LegalWord, Follow, Word, RdEnd;
    var j := i + |RdText(rds)|;
    if rds != [] {
      var tail := if gs == [] then "" else " " + GroupsText(gs);
      NoGroups();
      assert SimpleText(rds, gs) == RdText(rds) + tail;
      AtPart(s, i, RdText(rds), tail);
      GroupsTail(s, j, gs);
      OpFirst(s, i, rds);
    } else {
      assert RdText(rds) == "" by { NoText(); }
      assert SimpleText(rds, gs) == GroupsText(gs);
      BareParts(s, i, gs);
    }
  }

  lemma BareParts(s: string, i: nat, gs: seq<Group>)
    requires At(s, i, GroupsText(gs)) && Follow(s, i + |GroupsText(gs)|) && LegalGroups(gs)
    ensures i <= |s| && RdEnd(s, i) && Skip(s, i) == i && !Peek(s, i, "(") && At(s, i, "")
  {
    hide GroupsText, LegalWord;
    if gs != [] {
      WordFirst(s, i, gs);
    } else {
      assert GroupsText(gs) == "" by { NoGroups(); }
    }
  }

  lemma NoGroups()
    ensures GroupsText([]) == ""
  {}

  lemma OpFirst(s: string, i: nat, rds: seq<Rd>)
    requires rds != [] && At(s, i, RdText(rds))
    ensures i < |s| && (s[i] == '<' || s[i] == '>')
  {
    AtChar(s, i, RdText(rds), 0);
  }

  lemma WordFirst(s: string, i: nat, gs: seq<Group>)
    requires gs != [] && At(s, i, GroupsText(gs)) && LegalGroups(gs)
    ensures i < |s| && Word(s[i])
  {
    assert GroupsText(gs)[0] == gs[0].word[0];
    AtChar(s, i, GroupsText(gs), 0);
  }

  /** A command without its redirections, and these. */
  function Core(t: Tree): (c: Tree)
    ensures !c.TRedir? && (t.TRedir? ==> c < t) && (!t.TRedir? ==> c == t)
  {
    if t.TRedir? then Core(t.cmd) else t
  }

  function RdsOf(t: Tree): seq<Rd> {
    if t.TRedir? then RdsOf(t.cmd) + [Rd(t.mode, t.file)] else []
  }

  lemma {:induction false} CoreWrapped(t: Tree)
    ensures TWrap(Core(t), RdsOf(t)) == t
    ensures Legal(t) ==> Legal(Core(t)) && LegalRds(RdsOf(t))
  {
    if t.TRedir? {
      CoreWrapped(t.cmd);
      assert RdsOf(t)[..|RdsOf(t)| - 1] == RdsOf(t.cmd);
    }
  }

  /** How loosely a command binds: simple commands, pipelines, background commands, lists. */
  function Level(t: Tree): nat {
    match t case TExec(_) => 0 case TRedir(_, _, _) => 0 case TPipe(_, _) => 1 case TBack(_) => 2 case TList(_, _) => 3
  }

  /** All redirections behind the last word. */
  function GroupsOf(argv: seq<string>, rds: seq<Rd>): (gs: seq<Group>)
    ensures |gs| == |argv|
  {
    if argv == [] then []
    else if |argv| == 1 then [Group(argv[0], rds)]
    else [Group(argv[0], [])] + GroupsOf(argv[1..], rds)
  }

  /** A text for a command, with parentheses only round what binds more loosely than its place allows. */
  function Plain(t: Tree): string
    decreases t, 0
  {
    match t
    case TList(l, r) => Placed(l, 2) + ";" + Placed(r, 3)
    case TBack(c) => Placed(c, 2) + "&"
    case TPipe(l, r) => Placed(l, 0) + "|" + Placed(r, 1)
    case TExec(argv) => SimpleText([], GroupsOf(argv, []))
    case TRedir(_, _, _) =>
      var c := Core(t);
      if c.TExec? then SimpleText(if c.argv == [] then RdsOf(t) else [], GroupsOf(c.argv, RdsOf(t)))
      else Block(c) + RdText(RdsOf(t))
  }

  function Block(t: Tree): string
    decreases t, 1
  {
    "(" + Plain(t) + ")"
  }

  function Placed(t: Tree, level: nat): string
    decreases t, 2
  {
    if Level(t) <= level then Plain(t) else Block(t)
  }

  lemma {:induction false} GroupsOfAre(argv: seq<string>, rds: seq<Rd>)
    requires LegalRds(rds) && forall k :: 0 <= k < |argv| ==> LegalWord(argv[k])
    ensures var gs := GroupsOf(argv, rds);
            LegalGroups(gs) && Words(gs) == argv && AllRds(gs) == if argv == [] then [] else rds
    decreases |argv|
  {
    hide LegalWord;
    if |argv| > 1 {
      GroupsOfAre(argv[1..], rds);
    } else if argv != [] {
      assert rds + [] == rds;
    }
  }

  /** What may follow a pipeline. */
  predicate FollowPipe(s: string, i: nat) { i == |s| || (i < |s| && s[i] in ");&") }

  ghost predicate PipeIs(s: string, i: nat, end: nat, t: Tree) {
    && i <= end <= |s| && ParsePipe(s, i).Ok?
    && ParsePipe(s, i).value.next == end && Meaning(s, ParsePipe(s, i).value.value) == t
  }

  /** After a pipeline and some `&` parseline has command `c` in hand at `end`, and goes on from there. */
  ghost predicate ItemIs(s: string, i: nat, end: nat, t: Tree, c: Cmd) {
    && i <= end <= |s| && ParsePipe(s, i).Ok? && Meaning(s, c) == t
    && var p := ParsePipe(s, i).value; Backs(s, p.next, p.value) == Backs(s, end, c)
  }

  ghost predicate ItemOf(s: string, i: nat, end: nat, t: Tree) {
    exists c :: ItemIs(s, i, end, t, c)
  }

  ghost predicate LineIs(s: string, i: nat, end: nat, t: Tree) {
    && i <= end <= |s| && ParseLine(s, i).Ok?
    && ParseLine(s, i).value.next == end && Meaning(s, ParseLine(s, i).value.value) == t
  }

  lemma ExecToPipe(s: string, i: nat, end: nat, t: Tree)
    requires ExecIs(s, i, end, t) && FollowPipe(s, end)
    ensures PipeIs(s, i, end, t)
  {
    hide ParseExec, Meaning;
  }

  lemma PipeToItem(s: string, i: nat, end: nat, t: Tree)
    requires PipeIs(s, i, end, t)
    ensures ItemIs(s, i, end, t, ParsePipe(s, i).value.value)
  {}

  lemma ItemToLine(s: string, i: nat, end: nat, t: Tree, c: Cmd)
    requires ItemIs(s, i, end, t, c) && Stop(s, end)
    ensures LineIs(s, i, end, t)
  {
    hide ParsePipe, Meaning;
    assert Backs(s, end, c) == Parsed(c, end);
  }

  lemma OnePipe(s: string, i: nat, l: Tree, mid: nat, r: Tree, end: nat)
    requires ExecIs(s, i, mid, l) && mid < |s| && s[mid] == '|' && PipeIs(s, Skip(s, mid + 1), end, r)
    ensures PipeIs(s, i, end, TPipe(l, r))
  {
    hide ParseExec, GetToken, Peek, Skip;
    Symbol(s, mid);
  }

  lemma OneBack(s: string, i: nat, c: Tree, mid: nat, v: Cmd)
    requires ItemIs(s, i, mid, c, v) && mid < |s| && s[mid] == '&'
    ensures ItemIs(s, i, Skip(s, mid + 1), TBack(c), Back(v))
  {
    hide ParsePipe, GetToken, Peek, Skip;
    Symbol(s, mid);
  }

  lemma OneList(s: string, i: nat, l: Tree, mid: nat, v: Cmd, r: Tree, end: nat)
    requires ItemIs(s, i, mid, l, v) && mid < |s| && s[mid] == ';' && LineIs(s, Skip(s, mid + 1), end, r)
    ensures LineIs(s, i, end, TList(l, r))
  {
    hide ParsePipe, GetToken, Skip, Meaning;
    Symbol(s, mid);
    assert Backs(s, mid, v) == Parsed(v, mid);
    assert Meaning(s, List(v, ParseLine(s, Skip(s, mid + 1)).value.value)) ==
             TList(l, r) by { MeaningList(s, v, ParseLine(s, Skip(s, mid + 1)).value.value); }
  }

  lemma MeaningList(s: string, a: Cmd, b: Cmd)
    ensures Meaning(s, List(a, b)) == TList(Meaning(s, a), Meaning(s, b))
  {}

  /** A line in parentheses, with redirections behind it, is a command of its own. */
  lemma OneBlock(s: string, i: nat, t: Tree, close: nat, rds: seq<Rd>)
    requires i < |s| && s[i] == '(' && LineIs(s, Skip(s, i + 1), close, t) && close < |s| && s[close] == ')'
    requires At(s, close + 1, RdText(rds)) && LegalRds(rds) && Follow(s, close + 1 + |RdText(rds)|)
    ensures ExecIs(s, i, close + 1 + |RdText(rds)|, TWrap(t, rds))
  {
    hide ParseLine, GetToken, Skip, Redirs, RdText, At, Meaning, LegalRds, Peek, Stand;
    var end := close + 1 + |RdText(rds)|;
    AtBound(s, close + 1, RdText(rds));
    EndsThere(s, end);
    Symbol(s, i);
    Symbol(s, close);
    RdsRound(s, close + 1, rds);
    AfterFile(s, close + 1, rds);
    assert Peek(s, i, "(") && Peek(s, close, ")");
    assert ParseExec(s, i) == ParseBlock(s, i);
    WrapStands(s, ParseLine(s, Skip(s, i + 1)).value.value, Redirs(s, close + 1).value.value, rds);
  }

  lemma EndsThere(s: string, end: nat)
    requires Follow(s, end)
    ensures RdEnd(s, end) && WordEnds(s, end) && Skip(s, end) == end
  {}

  predicate FollowAt(s: string, i: nat, level: nat) {
    if level == 0 then Follow(s, i) else if level <= 2 then FollowPipe(s, i) else Stop(s, i)
  }

  /** The parser function of that level gives the command back and stops right behind its text. */
  ghost predicate Is(s: string, i: nat, end: nat, t: Tree, level: nat) {
    if level == 0 then ExecIs(s, i, end, t)
    else if level == 1 then PipeIs(s, i, end, t)
    else if level == 2 then ItemOf(s, i, end, t)
    else LineIs(s, i, end, t)
  }

  lemma Lift(s: string, i: nat, end: nat, t: Tree, from: nat, to: nat)
    requires Is(s, i, end, t, from) && FollowAt(s, end, to) && from <= to <= 3
    ensures Is(s, i, end, t, to)
  {
    hide ExecIs, PipeIs, ItemIs, LineIs;
    if from == 0 && to > 0 {
      ExecToPipe(s, i, end, t);
    }
    if from <= 1 && to > 1 {
      PipeToItem(s, i, end, t);
    }
    if from <= 2 && to > 2 {
      var c :| ItemIs(s, i, end, t, c);
      ItemToLine(s, i, end, t, c);
    }
  }

  lemma {:induction false} NotBlankFirst(t: Tree)
    requires Legal(t)
    ensures Plain(t) == "" || !Ws(Plain(t)[0])
    decreases t, 0
  {
    hide SimpleText, RdText, LegalWord;
    match t
    case TExec(argv) => FirstOfSimple([], argv, []);
    case TRedir(_, _, _) =>
      CoreWrapped(t);
      if Core(t).TExec? {
        var argv := Core(t).argv;
        FirstOfSimple(if argv == [] then RdsOf(t) else [], argv, RdsOf(t));
      }
    case TPipe(l, _) => PlacedFirst(l, 0);
    case TList(l, _) => PlacedFirst(l, 2);
    case TBack(c) => PlacedFirst(c, 2);
  }

  lemma PlacedFirst(t: Tree, level: nat)
    requires Legal(t)
    ensures Placed(t, level) == "" || !Ws(Placed(t, level)[0])
    decreases t, 1
  {
    NotBlankFirst(t);
  }

  lemma FirstOfSimple(rds: seq<Rd>, argv: seq<string>, behind: seq<Rd>)
    requires forall k :: 0 <= k < |argv| ==> LegalWord(argv[k])
    ensures var w := SimpleText(rds, GroupsOf(argv, behind)); w == "" || !Ws(w[0])
  {
    if rds == [] && argv != [] {
      assert GroupsText(GroupsOf(argv, behind))[0] == argv[0][0];
    }
  }

  lemma SkipsNone(s: string, i: nat, w: string)
    requires At(s, i, w) && (w == "" || !Ws(w[0])) && Follow(s, i + |w|)
    ensures Skip(s, i) == i
  {
    if w != "" {
      AtChar(s, i, w, 0);
    }
  }

  /** The parser undoes Plain at every level of the grammar. */
  lemma {:induction false} PlainComes(s: string, i: nat, t: Tree)
    requires At(s, i, Plain(t)) && Legal(t) && FollowAt(s, i + |Plain(t)|, Level(t))
    ensures Is(s, i, i + |Plain(t)|, t, Level(t))
    decreases t, 1
  {
    hide At, ExecIs, PipeIs, ItemOf, LineIs, Plain, Follow, FollowPipe, Stop, LegalWord, SimpleOf, Block, RdText, TWrap;
    match t
    case TExec(argv) =>
      PlainCore(t);
      SimplePlain(s, i, t);
    case TRedir(_, _, _) =>
      PlainCore(t);
      if Core(t).TExec? {
        SimplePlain(s, i, t);
      } else {
        CoreWrapped(t);
        BlockPlain(s, i, Core(t), RdsOf(t));
      }
    case TPipe(l, r) => PipePlain(s, i, l, r);
    case TList(l, r) => ListPlain(s, i, l, r);
    case TBack(c) => BackPlain(s, i, c);
  }

  lemma PipePlain(s: string, i: nat, l: Tree, r: Tree)
    requires At(s, i, Plain(TPipe(l, r))) && Legal(l) && Legal(r) && FollowPipe(s, i + |Plain(TPipe(l, r))|)
    ensures PipeIs(s, i, i + |Plain(TPipe(l, r))|, TPipe(l, r))
    decreases TPipe(l, r), 0
  {
    hide At, ExecIs, PipeIs, ItemIs, LineIs, Placed, Skip, Legal;
    var mid, end := i + |Placed(l, 0)|, i + |Plain(TPipe(l, r))|;
    PartsAt(s, i, Placed(l, 0), '|', Placed(r, 1));
    PlacedComes(s, i, l, 0);
    PlacedComes(s, mid + 1, r, 1);
    PlacedFirst(r, 1);
    SkipsNone(s, mid + 1, Placed(r, 1));
    OnePipe(s, i, l, mid, r, end);
  }

  lemma ListPlain(s: string, i: nat, l: Tree, r: Tree)
    requires At(s, i, Plain(TList(l, r))) && Legal(l) && Legal(r) && Stop(s, i + |Plain(TList(l, r))|)
    ensures LineIs(s, i, i + |Plain(TList(l, r))|, TList(l, r))
    decreases TList(l, r), 0
  {
    hide At, ExecIs, PipeIs, ItemIs, LineIs, Placed, Skip, Legal;
    var mid, end := i + |Placed(l, 2)|, i + |Plain(TList(l, r))|;
    PartsAt(s, i, Placed(l, 2), ';', Placed(r, 3));
    PlacedComes(s, i, l, 2);
    PlacedComes(s, mid + 1, r, 3);
    PlacedFirst(r, 3);
    SkipsNone(s, mid + 1, Placed(r, 3));
    var v :| ItemIs(s, i, mid, l, v);
    OneList(s, i, l, mid, v, r, end);
  }

  lemma BackPlain(s: string, i: nat, c: Tree)
    requires At(s, i, Plain(TBack(c))) && Legal(c) && FollowPipe(s, i + |Plain(TBack(c))|)
    ensures ItemOf(s, i, i + |Plain(TBack(c))|, TBack(c))
    decreases TBack(c), 0
  {
    hide At, ExecIs, PipeIs, ItemIs, LineIs, Placed, Skip, Legal;
    var mid := i + |Placed(c, 2)|;
    assert Plain(TBack(c)) == Placed(c, 2) + ['&'] + "";
    PartsAt(s, i, Placed(c, 2), '&', "");
    PlacedComes(s, i, c, 2);
    SkipsNone(s, mid + 1, "");
    var v :| ItemIs(s, i, mid, c, v);
    OneBack(s, i, c, mid, v);
  }

  /** The text of a command with redirections, or of a simple one. */
  lemma PlainCore(t: Tree)
    requires t.TExec? || t.TRedir?
    ensures Core(t).TExec? ==> Plain(t) == SimpleOf(Core(t).argv, RdsOf(t))
    ensures !Core(t).TExec? ==> Plain(t) == Block(Core(t)) + RdText(RdsOf(t))
  {
    hide SimpleText, GroupsOf, RdText, Block;
  }

  function SimpleOf(argv: seq<string>, rds: seq<Rd>): string {
    SimpleText(if argv == [] then rds else [], GroupsOf(argv, rds))
  }

  lemma SimplePlain(s: string, i: nat, t: Tree)
    requires Core(t).TExec? && Legal(t)
    requires var w := SimpleOf(Core(t).argv, RdsOf(t)); At(s, i, w) && Follow(s, i + |w|)
    ensures ExecIs(s, i, i + |SimpleOf(Core(t).argv, RdsOf(t))|, t)
  {
    hide At, ExecIs, SimpleText, GroupsOf, LegalWord, TWrap, Follow;
    var argv, rds := Core(t).argv, RdsOf(t);
    CoreWrapped(t);
    GroupsOfAre(argv, rds);
    var before, gs := if argv == [] then rds else [], GroupsOf(argv, rds);
    assert before + AllRds(gs) == rds;
    SimpleComes(s, i, before, gs);
  }

  lemma NothingWrapped(t: Tree)
    ensures TWrap(t, []) == t
  {}

  lemma PlacedComes(s: string, i: nat, t: Tree, level: nat)
    requires At(s, i, Placed(t, level)) && Legal(t) && level <= 3 && FollowAt(s, i + |Placed(t, level)|, level)
    ensures Is(s, i, i + |Placed(t, level)|, t, level)
    decreases t, 3
  {
    hide At, ExecIs, PipeIs, ItemIs, LineIs, RdText, Plain, Block, TWrap;
    var end := i + |Placed(t, level)|;
    if Level(t) <= level {
      PlainComes(s, i, t);
      Lift(s, i, end, t, Level(t), level);
    } else {
      assert RdText([]) == "" by { NoText(); }
      assert Block(t) + "" == Block(t);
      BlockPlain(s, i, t, []);
      NothingWrapped(t);
      Lift(s, i, end, t, 0, level);
    }
  }

  lemma BlockPlain(s: string, i: nat, t: Tree, rds: seq<Rd>)
    requires At(s, i, Block(t) + RdText(rds)) && Legal(t) && LegalRds(rds) && Follow(s, i + |Block(t) + RdText(rds)|)
    ensures ExecIs(s, i, i + |Block(t) + RdText(rds)|, TWrap(t, rds))
    decreases t, 2
  {
    hide At, ExecIs, PipeIs, ItemIs, LineIs, RdText, Plain, TWrap, Skip, LegalRds;
    var close := i + 1 + |Plain(t)|;
    assert Block(t) + RdText(rds) == "(" + (Plain(t) + ([')'] + RdText(rds)));
    AtPart(s, i, "(", Plain(t) + ([')'] + RdText(rds)));
    AtChar(s, i, "(", 0);
    assert Plain(t) + ([')'] + RdText(rds)) == Plain(t) + [')'] + RdText(rds);
    PartsAt(s, i + 1, Plain(t), ')', RdText(rds));
    PlainComes(s, i + 1, t);
    Lift(s, i + 1, close, t, Level(t), 3);
    NotBlankFirst(t);
    SkipsNone(s, i + 1, Plain(t));
    OneBlock(s, i, t, close, rds);
  }

  /** Round trip for texts without needless parentheses. */
  lemma PlainRoundTrip(t: Tree)
    requires Legal(t)
    ensures ParseCmd(Plain(t)).Ok? && Meaning(Plain(t), ParseCmd(Plain(t)).value) == t
  {
    hide ParseLine, Plain, Meaning, ExecIs, PipeIs, ItemIs;
    var s := Plain(t);
    assert s[0..0 + |s|] == s;
    PlainComes(s, 0, t);
    Lift(s, 0, |s|, t, Level(t), 3);
  }

  /** parsecmd on such a text: the command comes back, and every word of it is a C string of its own in the buffer. */
  method ParsePlain(t: Tree) returns (r: Result<Cmd>, buf: array<char>)
    requires Legal(t) && NUL !in Plain(t)
    ensures r.Ok? && Meaning(Plain(t), r.value) == t && fresh(buf) && buf.Length == |Plain(t)| + 1
    ensures forall j :: 0 <= j < |Toks(r.value)| ==>
              var w := Toks(r.value)[j]; w.lo < w.hi <= |Plain(t)| && CString(buf[..], w.lo) == Spell(Plain(t), w)
  {
    hide Meaning, Plain;
    PlainRoundTrip(t);
    r, buf := ParseAndTerminate(Plain(t));
  }
}
