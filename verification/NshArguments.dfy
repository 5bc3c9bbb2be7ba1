/**
  The arguments of ordinary command lines, spelled out: words between blanks, quoted text,
  redirections and comments, and where an argument ends.
*/
module NshArguments {
  import opened Basics
  import opened NshText
  import NshTemplate

  // ----- Where an argument ends -----

  /** The back-slashes directly in front of `i`. */
  function Slashes(s: string, i: nat): nat
    requires i <= |s|
  {
    if i > 0 && s[i - 1] == '\\' then 1 + Slashes(s, i - 1) else 0
  }

  /** A character is escaped exactly if there is an odd number of them. */
  lemma {:induction false} EscapedIs(s: string, i: nat)
    requires i <= |s|
    ensures Escaped(s, i) <==> Slashes(s, i) % 2 == 1
  {
    if i > 0 && s[i - 1] == '\\' {
      EscapedIs(s, i - 1);
    }
  }

  /** The back-quotes in front of `i` that are not escaped. */
  function Ticks(s: string, i: nat): nat
    requires i <= |s|
  {
    if i == 0 then 0 else Ticks(s, i - 1) + if s[i - 1] == '`' && Slashes(s, i - 1) % 2 == 0 then 1 else 0
  }

  /** An unescaped terminator with an even number of unescaped back-quotes in front of it. */
  predicate EndsAt(s: string, i: nat, quoted: bool) {
    && i < |s| && Slashes(s, i) % 2 == 0 && Ticks(s, i) % 2 == 0
    && (if quoted then s[i] == '"' else s[i] in " \t\n")
  }

  /** An argument ends at the first of these, or at the end of the text. */
  lemma {:induction false} ArgEndIs(s: string, i: nat, quoted: bool)
    requires i <= |s|
    ensures var e := ArgEnd(s, i, Ticks(s, i) % 2 == 1, quoted);
            && i <= e <= |s| && (e < |s| ==> EndsAt(s, e, quoted))
            && forall k :: i <= k < e ==> !EndsAt(s, k, quoted)
    decreases |s| - i
  {
    hide Escaped, Slashes;
    if i < |s| {
      EscapedIs(s, i);
      if !EndsAt(s, i, quoted) {
        ArgEndIs(s, i + 1, quoted);
      }
    }
  }

  // ----- Words -----

  predicate OrdinaryChar(c: char) {
    c !in " \t\n\"#;\\$`>"
  }

  /** A string that is written as it is. */
  predicate Ordinary(s: string) {
    s != [] && forall i :: 0 <= i < |s| ==> OrdinaryChar(s[i])
  }

  lemma {:induction false} NoSlashes(s: string, i: nat)
    requires i <= |s| && '\\' !in s[..i]
    ensures Slashes(s, i) == 0 && ('`' !in s[..i] ==> Ticks(s, i) == 0)
  {
    if i > 0 {
      assert s[i - 1] == s[..i][i - 1] && s[..i - 1] == s[..i][..i - 1];
      NoSlashes(s, i - 1);
    }
  }

  /** Text without escapes and back-quotes goes to the first terminator. */
  lemma PlainEnd(s: string, rest: string, quoted: bool)
    requires '\\' !in s && '`' !in s && (if quoted then '"' !in s else forall i :: 0 <= i < |s| ==> s[i] !in " \t\n")
    requires rest != [] ==> if quoted then rest[0] == '"' else rest[0] in " \t\n"
    ensures ArgEnd(s + rest, 0, false, quoted) == |s|
  {
    hide ArgEnd, Slashes, Ticks;
    var line := s + rest;
    TicksNone(line);
    ArgEndIs(line, 0, quoted);
    var e := ArgEnd(line, 0, false, quoted);
    assert line[..|s|] == s;
    NoSlashes(line, |s|);
    assert forall k :: 0 <= k < |s| ==> line[k] == s[k];
    assert rest != [] ==> EndsAt(line, |s|, quoted);
  }

  lemma TicksNone(s: string)
    ensures Ticks(s, 0) == 0
  {
  }

  lemma ExpandPlain(s: string, w: World)
    requires '\\' !in s && '$' !in s && '`' !in s
    ensures Expanded(s, w) == s
  {
    assert Special(s, 0) == |s|;
    ExpandEnd(s, w);
    DequoteKeeps(s);
  }

  lemma OrdinaryHas(s: string)
    requires Ordinary(s)
    ensures s != [] && '\\' !in s && '$' !in s && '`' !in s && s[0] != '>' && s[0] != '#' && s[0] != '"' && !Separator(s[0])
    ensures forall i :: 0 <= i < |s| ==> s[i] !in " \t\n"
  {
    assert forall i :: 0 <= i < |s| ==> OrdinaryChar(s[i]);
  }

  lemma OrdinaryArg(s: string, rest: string, w: World)
    requires Ordinary(s) && (rest != [] ==> rest[0] in " \t\n")
    ensures NextArg(s + rest, w) == (Some(s), if rest == [] then [] else rest[1..])
  {
    hide ArgEnd, Expanded, Ordinary;
    var line := s + rest;
    OrdinaryHas(s);
    assert line[0] == s[0];
    PlainEnd(s, rest, false);
    assert line[..|s|] == s;
    ExpandPlain(s, w);
    assert rest != [] ==> line[|s| + 1..] == rest[1..];
  }

  /** Quoted text is one argument, whatever blanks, semicolons and comment signs are in it. */
  lemma QuotedText(s: string, rest: string, w: World)
    requires '\\' !in s && '$' !in s && '`' !in s && '"' !in s
    ensures NextArg("\"" + s + "\"" + rest, w) == (Some(s), rest)
  {
    hide ArgEnd, Expanded;
    var line := "\"" + s + "\"" + rest;
    var text := s + ("\"" + rest);
    assert line[0] == '"' && line[1..] == text;
    PlainEnd(s, "\"" + rest, true);
    assert text[..|s|] == s && text[|s| + 1..] == rest;
    ExpandPlain(s, w);
  }

  // ----- Whole commands -----

  ghost predicate Gap(s: string) {
    s != [] && forall i :: 0 <= i < |s| ==> s[i] in " \t\n"
  }

  lemma {:induction false} GapSkipped(gap: string, s: string, w: World)
    requires forall i :: 0 <= i < |gap| ==> gap[i] in " \t\n"
    ensures Args(gap + s, w) == Args(s, w)
  {
    if gap == [] {
      assert gap + s == s;
    } else {
      var line := gap + s;
      assert line[1..] == gap[1..] + s && Separator(line[0]);
      BlankFirst(line, w);
      GapSkipped(gap[1..], s, w);
    }
  }

  lemma BlankFirst(line: string, w: World)
    requires line != [] && Separator(line[0])
    ensures Args(line, w) == Args(line[1..], w)
  {
    hide ArgEnd, Expanded;
    assert SkipSeparators(line) == SkipSeparators(line[1..]);
  }

  lemma ArgThen(line: string, w: World)
    requires NextArg(line, w).0.Some?
    ensures Args(line, w) == [NextArg(line, w).0.value] + Args(NextArg(line, w).1, w)
  {
  }

  lemma NoArgs(w: World)
    ensures Args([], w) == []
  {
  }

  /** A word, some blanks, and what comes behind them. */
  lemma WordThen(a: string, gap: string, rest: string, w: World)
    requires Ordinary(a) && Gap(gap)
    ensures Args(a + (gap + rest), w) == [a] + Args(rest, w)
    ensures Args(a, w) == [a]
  {
    hide NextArg, Args, Ordinary;
    var tail := gap + rest;
    OrdinaryArg(a, tail, w);
    ArgThen(a + tail, w);
    assert tail[1..] == gap[1..] + rest;
    GapSkipped(gap[1..], rest, w);
    OrdinaryArg(a, [], w);
    assert a + [] == a;
    ArgThen(a, w);
    NoArgs(w);
  }

  /** Words with blanks between them, and perhaps behind the last. */
  function Spaced(words: seq<string>, gaps: seq<string>): string
    requires |gaps| == |words|
  {
    if words == [] then [] else words[0] + (gaps[0] + Spaced(words[1..], gaps[1..]))
  }

  /** However many blanks there are, the arguments are the words. */
  lemma {:induction false} SpacedArgs(words: seq<string>, gaps: seq<string>, w: World)
    requires |gaps| == |words| && forall i :: 0 <= i < |words| ==> Ordinary(words[i]) && Gap(gaps[i])
    ensures Args(Spaced(words, gaps), w) == words
  {
    hide Args, Ordinary, Gap;
    if words == [] {
      NoArgs(w);
    } else {
      SpacedArgs(words[1..], gaps[1..], w);
      WordThen(words[0], gaps[0], Spaced(words[1..], gaps[1..]), w);
    }
  }

  /** `>` and `>>` are arguments of their own. */
  lemma RedirectArg(rest: string, w: World)
    ensures rest == [] || rest[0] != '>' ==> Args(">" + rest, w) == [">"] + Args(rest, w)
    ensures Args(">>" + rest, w) == [">>"] + Args(rest, w)
  {
    hide Args;
    var one, two := ">" + rest, ">>" + rest;
    assert one[1..] == rest && two[2..] == rest && two[1] == '>';
    assert rest != [] ==> one[1] == rest[0];
    assert rest == [] || rest[0] != '>' ==> NextArg(one, w) == (Some(">"), rest);
    assert NextArg(two, w) == (Some(">>"), rest);
    if rest == [] || rest[0] != '>' {
      ArgThen(one, w);
    }
    ArgThen(two, w);
  }

  /** A command whose output goes to a file, or is appended to it. */
  lemma Redirected(a: string, b: string, w: World)
    requires Ordinary(a) && Ordinary(b)
    ensures Args(a + " > " + b, w) == [a, ">", b] && Args(a + " >" + b, w) == [a, ">", b]
    ensures Args(a + " >> " + b, w) == [a, ">>", b] && Args(a + " >>" + b, w) == [a, ">>", b]
  {
    hide Args, NextArg, Ordinary;
    OrdinaryHas(b);
    var spaced := " " + b;
    GapSkipped(" ", b, w);
    WordThen(b, " ", [], w);
    RedirectArg(spaced, w);
    RedirectArg(b, w);
    WordThen(a, " ", ">" + spaced, w);
    WordThen(a, " ", ">" + b, w);
    WordThen(a, " ", ">>" + spaced, w);
    WordThen(a, " ", ">>" + b, w);
    assert a + " > " + b == a + (" " + (">" + spaced)) && a + " >" + b == a + (" " + (">" + b));
    assert a + " >> " + b == a + (" " + (">>" + spaced)) && a + " >>" + b == a + (" " + (">>" + b));
  }

  /** A comment has no arguments. */
  lemma Commented(a: string, t: string, w: World)
    requires Ordinary(a)
    ensures Args("#" + t, w) == [] && Args(a + " #" + t, w) == [a]
  {
    hide Ordinary;
    var comment := "#" + t;
    assert NextArg(comment, w).0 == None;
    assert Args(comment, w) == [];
    WordThen(a, " ", comment, w);
    assert a + " #" + t == a + (" " + comment);
  }

  // ----- Substitution -----

  lemma NoTerminator(s: string)
    requires forall i :: 0 <= i < |s| ==> s[i] !in " \t\n"
    ensures ArgEnd(s, 0, false, false) == |s|
  {
    hide ArgEnd, Slashes, Ticks;
    TicksNone(s);
    ArgEndIs(s, 0, false);
  }

  /** A single word that is not quoted is one argument, what it expands to. */
  lemma SingleArg(s: string, w: World)
    requires s != [] && s[0] !in "\"#>" && forall i :: 0 <= i < |s| ==> s[i] !in " \t\n"
    ensures Args(s, w) == [Expanded(s, w)]
  {
    hide ArgEnd, Expanded, Args;
    NoTerminator(s);
    assert s[..|s|] == s && SkipSeparators(s) == s;
    assert NextArg(s, w) == (Some(Expanded(s, w)), []);
    ArgThen(s, w);
    NoArgs(w);
  }

  /** `$name` and `${name}` stand for the variable, and back-quotes for what a command puts out. */
  lemma SubstitutedArg(name: string, w: World)
    requires Ordinary(name) && '{' !in name && '}' !in name
    ensures '\\' !in w.env(name) ==> Args("$" + name, w) == [w.env(name)] && Args("${" + name + "}", w) == [w.env(name)]
    ensures '\\' !in w.cmd(name) ==> Args("`" + name + "`", w) == [w.cmd(name)]
  {
    hide Ordinary, Args, Expand, Special, Seek, Escaped, Dequote;
    OrdinaryHas(name);
    NotEscaped(name);
    SingleArg("$" + name, w);
    SingleArg("${" + name + "}", w);
    SingleArg("`" + name + "`", w);
    var none: seq<NshTemplate.Piece> := [];
    NshTemplate.ExpandRendered(none, NshTemplate.Bare(name), w);
    Rendered(NshTemplate.Name(name), w);
    Rendered(NshTemplate.Command(name), w);
    assert "${" + (name + "}") == "${" + name + "}" && "`" + (name + "`") == "`" + name + "`";
    DequoteKeeps(w.env(name));
    DequoteKeeps(w.cmd(name));
  }

  lemma NotEscaped(name: string)
    requires '\\' !in name
    ensures !Escaped(name, |name|)
    ensures '}' !in name ==> Seek(name, 0, '}') == |name|
    ensures '`' !in name ==> Seek(name, 0, '`') == |name|
  {
  }

  lemma Rendered(p: NshTemplate.Piece, w: World)
    requires NshTemplate.Proper(p)
    ensures Expand(NshTemplate.Shown(p), w) == Some(NshTemplate.ValueOf(p, w))
  {
    hide NshTemplate.Proper, NshTemplate.Shown, NshTemplate.ValueOf, Expand;
    var pieces, tail := [p], NshTemplate.Plain("");
    assert NshTemplate.ProperTail(tail) by { assert Special("", 0) == 0; }
    NshTemplate.ExpandRendered(pieces, tail, w);
    assert pieces[1..] == [] && NshTemplate.Render(pieces, tail) == NshTemplate.Shown(p) + "";
    assert NshTemplate.Shown(p) + "" == NshTemplate.Shown(p);
    assert NshTemplate.Result([], tail, w) == Some("");
    assert NshTemplate.ValueOf(p, w) + "" == NshTemplate.ValueOf(p, w);
  }
}
