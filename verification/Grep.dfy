/** The matcher of user/grep.c against a declarative meaning of its patterns. Strings are without their final NUL. */
module Grep {

  /** One character, or any number of characters, of which each is `c`; '.' stands for every character. */
  datatype Atom = One(c: char) | Many(c: char)

  /** What a pattern says: a sequence of atoms, and whether the text has to end there. */
  datatype Pattern = Pattern(atoms: seq<Atom>, toEnd: bool)

  /** The syntax: `c*` binds first, a `$` that is not starred counts only at the end, all else is itself. */
  function Parse(re: string): Pattern {
    if re == "" then Pattern([], false)
    else if |re| >= 2 && re[1] == '*' then var p := Parse(re[2..]); Pattern([Many(re[0])] + p.atoms, p.toEnd)
    else if re == "$" then Pattern([], true)
    else var p := Parse(re[1..]); Pattern([One(re[0])] + p.atoms, p.toEnd)
  }

  predicate Accepts(c: char, x: char) { c == '.' || c == x }

  /** The strings that one atom stands for. */
  ghost predicate AtomHas(a: Atom, w: string) {
    (a.One? ==> |w| == 1) && forall k :: 0 <= k < |w| ==> Accepts(a.c, w[k])
  }

  function Concat(ws: seq<string>): string {
    if ws == [] then "" else ws[0] + Concat(ws[1..])
  }

  /** `w` can be cut into one piece for each atom. */
  ghost predicate Cuts(atoms: seq<Atom>, w: string, ws: seq<string>) {
    |ws| == |atoms| && Concat(ws) == w && forall i :: 0 <= i < |ws| ==> AtomHas(atoms[i], ws[i])
  }

  /** The language of a sequence of atoms. */
  ghost predicate Lang(atoms: seq<Atom>, w: string) {
    exists ws :: Cuts(atoms, w, ws)
  }

  /** The text begins with a string of the language, and ends with it if the pattern says so. */
  ghost predicate Starts(p: Pattern, text: string) {
    exists n: nat :: n <= |text| && Lang(p.atoms, text[..n]) && (p.toEnd ==> n == |text|)
  }

  /** The meaning of a whole pattern: somewhere in the text, or at its beginning after `^`. */
  ghost predicate Means(re: string, text: string) {
    if |re| > 0 && re[0] == '^' then Starts(Parse(re[1..]), text)
    else exists k: nat :: k <= |text| && Starts(Parse(re), text[k..])
  }

  lemma LangNone(w: string)
    ensures Lang([], w) <==> w == ""
  {
    if w == "" {
      assert Cuts([], w, []);
    }
  }

  /** The language of a sequence is made of its first atom and the rest. */
  lemma LangFirst(a: Atom, rest: seq<Atom>, w: string)
    ensures Lang([a] + rest, w) <==> exists n: nat :: n <= |w| && AtomHas(a, w[..n]) && Lang(rest, w[n..])
  {
    var atoms := [a] + rest;
    if Lang(atoms, w) {
      var ws :| Cuts(atoms, w, ws);
      var n := |ws[0]|;
      assert w[..n] == ws[0] && w[n..] == Concat(ws[1..]);
      assert AtomHas(atoms[0], ws[0]);
      assert Cuts(rest, w[n..], ws[1..]) by {
        forall i | 0 <= i < |rest| ensures AtomHas(rest[i], ws[1..][i]) {
          assert AtomHas(atoms[i + 1], ws[i + 1]);
        }
      }
    }
    if n: nat :| n <= |w| && AtomHas(a, w[..n]) && Lang(rest, w[n..]) {
      var ws :| Cuts(rest, w[n..], ws);
      var all := [w[..n]] + ws;
      assert all[1..] == ws && w == w[..n] + w[n..];
      assert Cuts(atoms, w, all);
    }
  }

  lemma StartsNone(toEnd: bool, text: string)
    ensures Starts(Pattern([], toEnd), text) <==> !toEnd || text == ""
  {
    LangNone(text[..0]);
    if !toEnd || text == "" {
      assert Lang([], text[..0]);
    }
    if Starts(Pattern([], toEnd), text) {
      var n: nat :| n <= |text| && Lang([], text[..n]) && (toEnd ==> n == |text|);
      LangNone(text[..n]);
    }
  }

  /** A pattern starts a text when its first atom does and the rest follows. */
  lemma StartsFirst(a: Atom, p: Pattern, text: string)
    ensures Starts(Pattern([a] + p.atoms, p.toEnd), text) <==>
            exists n: nat :: n <= |text| && AtomHas(a, text[..n]) && Starts(p, text[n..])
  {
    var q := Pattern([a] + p.atoms, p.toEnd);
    if Starts(q, text) {
      var m: nat :| m <= |text| && Lang(q.atoms, text[..m]) && (q.toEnd ==> m == |text|);
      LangFirst(a, p.atoms, text[..m]);
      var n: nat :| n <= m && AtomHas(a, text[..m][..n]) && Lang(p.atoms, text[..m][n..]);
      assert text[..m][..n] == text[..n] && text[..m][n..] == text[n..][..m - n];
      assert Starts(p, text[n..]);
    }
    if n: nat :| n <= |text| && AtomHas(a, text[..n]) && Starts(p, text[n..]) {
      var k: nat :| k <= |text[n..]| && Lang(p.atoms, text[n..][..k]) && (p.toEnd ==> k == |text[n..]|);
      var m := n + k;
      assert text[..m][..n] == text[..n] && text[..m][n..] == text[n..][..k];
      LangFirst(a, p.atoms, text[..m]);
      assert Lang(q.atoms, text[..m]);
    }
  }

  /** One character. */
  lemma StartsOne(c: char, p: Pattern, text: string)
    ensures Starts(Pattern([One(c)] + p.atoms, p.toEnd), text) <==>
            text != "" && Accepts(c, text[0]) && Starts(p, text[1..])
  {
    StartsFirst(One(c), p, text);
    if text != "" && Accepts(c, text[0]) && Starts(p, text[1..]) {
      assert AtomHas(One(c), text[..1]);
    }
    if n: nat :| n <= |text| && AtomHas(One(c), text[..n]) && Starts(p, text[n..]) {
      assert n == 1 && text[..1][0] == text[0];
    }
  }

  /** Any number of characters: a place up to which all are accepted and from which the rest starts. */
  lemma StartsMany(c: char, p: Pattern, text: string)
    ensures Starts(Pattern([Many(c)] + p.atoms, p.toEnd), text) <==>
            exists n: nat :: n <= |text| && AllAccepted(c, text, n) && Starts(p, text[n..])
  {
    StartsFirst(Many(c), p, text);
    if n: nat :| n <= |text| && AllAccepted(c, text, n) && Starts(p, text[n..]) {
      assert AtomHas(Many(c), text[..n]);
    }
    if n: nat :| n <= |text| && AtomHas(Many(c), text[..n]) && Starts(p, text[n..]) {
      assert forall k :: 0 <= k < n ==> Accepts(c, text[..n][k]);
      assert AllAccepted(c, text, n);
    }
  }

  ghost predicate AllAccepted(c: char, text: string, n: nat) {
    n <= |text| && forall k :: 0 <= k < n ==> Accepts(c, text[k])
  }

  /** matchhere is sound and complete. */
  method MatchHere(re: string, text: string) returns (r: bool)
    ensures r <==> Starts(Parse(re), text)
    decreases |re|, 0
  {
    if re == "" {
      StartsNone(false, text);
      return true;
    }
    if |re| >= 2 && re[1] == '*' {
      StartsMany(re[0], Parse(re[2..]), text);
      r := MatchStar(re[0], re[2..], text);
      return;
    }
    if re[0] == '$' && |re| == 1 {
      StartsNone(true, text);
      return text == "";
    }
    StartsOne(re[0], Parse(re[1..]), text);
    if text != "" && (re[0] == '.' || re[0] == text[0]) {
      r := MatchHere(re[1..], text[1..]);
      return;
    }
    return false;
  }

  /** matchstar */
  method MatchStar(c: char, re: string, text: string) returns (r: bool)
    ensures r <==> exists n: nat :: n <= |text| && AllAccepted(c, text, n) && Starts(Parse(re), text[n..])
    decreases |re|, 1
  {
    var t: nat := 0;
    while true
      invariant t <= |text| && AllAccepted(c, text, t)
      invariant forall n: nat :: n < t ==> !Starts(Parse(re), text[n..])
      decreases |text| - t
    {
      var here := MatchHere(re, text[t..]);
      if here {
        return true;
      }
      if t < |text| && (text[t] == c || c == '.') {
        t := t + 1;
      } else {
        break;
      }
    }
    return false;
  }

  /** match is sound and complete. */
  method Match(re: string, text: string) returns (r: bool)
    ensures r <==> Means(re, text)
  {
    if |re| > 0 && re[0] == '^' {
      r := MatchHere(re[1..], text);
      return;
    }
    var t: nat := 0;
    while true
      invariant t <= |text|
      invariant forall k: nat :: k < t ==> !Starts(Parse(re), text[k..])
      decreases |text| - t
    {
      var here := MatchHere(re, text[t..]);
      if here {
        return true;
      }
      if t < |text| {
        t := t + 1;
      } else {
        break;
      }
    }
    return false;
  }
}
