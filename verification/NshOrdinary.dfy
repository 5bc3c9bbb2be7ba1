/**
  The documented forms of loops and ifs, letter by letter, with any ordinary words in them.
*/
module NshOrdinary {
  import opened NshControl
  import opened NshScript
  import opened NshSemantics
  import opened NshRefinement
  import opened NshArguments
  import opened NshTextScript
  import NshBytes
  import NshText

  /** A word that needs no spelling and is no keyword. */
  ghost predicate Name(s: string) {
    Ordinary(s) && !Keyword(s)
  }

  // ----- How such lines are written -----

  lemma OrdinaryWords()
    ensures Ordinary("while") && Ordinary("until") && Ordinary("do") && Ordinary("done")
    ensures Ordinary("if") && Ordinary("!") && Ordinary("then") && Ordinary("else") && Ordinary("fi")
  {
    hide Ordinary;
    Letters("while");
    Letters("until");
    Letters("do");
    Letters("done");
    Letters("if");
    Letters("!");
    Letters("then");
    Letters("else");
    Letters("fi");
  }

  lemma Letters(s: string)
    requires s != [] && forall i :: 0 <= i < |s| ==> s[i] == '!' || 'a' <= s[i] <= 'z'
    ensures Ordinary(s)
  {
    forall i | 0 <= i < |s| ensures OrdinaryChar(s[i]) {
    }
  }

  lemma OneWord(words: Words, a: string)
    requires Strings(words) == [a] && Ordinary(a)
    ensures WriteCommand(words) == a
  {
    hide Ordinary;
    assert [a][1..] == [] && SpellMore([]) == [];
    assert Spell(a) + [] == a;
  }

  lemma MoreWords(words: Words, a: string)
    requires |words| > 1 && StringOf(words[0]) == a && Ordinary(a)
    ensures WriteCommand(words) == a + (" " + WriteCommand(words[1..]))
  {
    hide Ordinary;
    var args := Strings(words);
    assert args[0] == a && args[1..] == Strings(words[1..]);
    assert SpellMore(args[1..]) == " " + SpellAll(args[1..]);
  }

  lemma TwoWords(words: Words, a: string, b: string)
    requires Strings(words) == [a, b] && Ordinary(a) && Ordinary(b)
    ensures WriteCommand(words) == a + (" " + b)
  {
    hide Ordinary, WriteCommand;
    StringsAre(words);
    assert Strings(words[1..]) == [b];
    MoreWords(words, a);
    OneWord(words[1..], b);
  }

  lemma LastOfLine(c: Cmd)
    ensures WriteLine([c]) == WriteCommand(c.words)
  {
  }

  lemma MoreOfLine(line: File)
    requires |line| > 1
    ensures WriteLine(line) == WriteCommand(line[0].words) + ("; " + WriteLine(line[1..]))
  {
    hide WriteCommand;
    assert ";" + (" " + WriteLine(line[1..])) == "; " + WriteLine(line[1..]);
  }

  lemma OneLineText(line: File)
    requires line != [] && forall i :: 0 <= i < |line| ==> line[i].eol == (i == |line| - 1)
    ensures WriteText(line) == WriteLine(line) + "\n"
  {
    hide WriteLine;
    var n := NextLine(line, 0);
    assert n == |line| by { LineIsAll(line, 0); }
    assert line[..n] == line && line[n..] == [];
    assert WriteText([]) == [] && "\n" + [] == "\n";
  }

  lemma {:induction false} LineIsAll(line: File, p: nat)
    requires p < |line| && forall i :: 0 <= i < |line| ==> line[i].eol == (i == |line| - 1)
    ensures NextLine(line, p) == |line|
    decreases |line| - p
  {
    if p + 1 < |line| {
      LineIsAll(line, p + 1);
    }
  }

  // ----- Loops -----

  /** `while t; do c; done` or `until t; do c; done` */
  function LoopText(until: bool, test: string, command: string): string {
    (if until then "until " else "while ") + test + "; do " + command + "; done\n"
  }

  function LoopFile(until: bool, test: string, command: string): File {
    [Cmd([if until then KwUntil else KwWhile, Text(test)], false), Cmd([KwDo, Text(command)], false), Cmd([KwDone], true)]
  }

  function LoopScript(until: bool, test: string, command: string): Script {
    While(until, [Text(test)], Plain(true, [Text(command)], 0, End), End)
  }

  lemma LoopWritten(until: bool, test: string, command: string)
    requires Ordinary(test) && Ordinary(command)
    ensures WriteText(LoopFile(until, test, command)) == LoopText(until, test, command)
  {
    hide Ordinary, WriteCommand, WriteLine, WriteText;
    var file := LoopFile(until, test, command);
    var word := if until then "until" else "while";
    OrdinaryWords();
    TwoWords(file[0].words, word, test);
    TwoWords(file[1].words, "do", command);
    OneWord(file[2].words, "done");
    OneLineText(file);
    MoreOfLine(file);
    MoreOfLine(file[1..]);
    assert file[1..][1..] == [file[2]];
    LastOfLine(file[2]);
    assert LoopText(until, test, command) ==
           ((word + (" " + test)) + ("; " + (("do" + (" " + command)) + ("; " + "done")))) + "\n";
  }

  lemma NameChars(s: string)
    requires Name(s)
    ensures Simple(s) && '\n' !in s && s != []
  {
    assert forall i :: 0 <= i < |s| ==> OrdinaryChar(s[i]);
  }

  lemma LoopWritable(until: bool, test: string, command: string)
    requires Name(test) && Name(command)
    ensures WritableFile(LoopFile(until, test, command))
  {
    hide Ordinary, Simple;
    NameChars(test);
    NameChars(command);
    SimpleKeywords();
  }

  lemma SimpleKeywords()
    ensures Simple("while") && Simple("until")
  {
    var a, b := "while", "until";
    assert forall i :: 0 <= i < |a| ==> a[i] !in "\"#;\n";
    assert forall i :: 0 <= i < |b| ==> b[i] !in "\"#;\n";
  }

  lemma LoopHeld(until: bool, test: string, command: string)
    requires test != []
    ensures var s := LoopScript(until, test, command);
            var file := LoopFile(until, test, command);
            && Proper(s, false) && Holds(file, false, s, 0) && |file| == Len(s)
            && IfDepth(s) == 0 && LoopDepth(s) == 1 && !LoopInLoop(s)
  {
    var s := Plain(true, [Text(command)], 0, End);
    assert !HasLoop(End) && !LoopInLoop(End) && !HasLoop(s) && !LoopInLoop(s);
    assert Holds(LoopFile(until, test, command), false, s, 2);
  }

  /** A loop on one line is read as three commands and runs as documented under `set -e`. */
  lemma LoopRuns(until: bool, test: string, command: string, depth: nat, fd: int, rs: seq<bool>, w: NshText.World)
    requires Name(test) && Name(command) && depth > 1 && fd >= 0
    ensures var text := LoopText(until, test, command);
            && ReadText(text, w) == LoopFile(until, test, command) && SeekableText(text, w) && ClosedText(text)
            && NshBytes.YieldsBytes(text, w, false, Init(depth, fd, rs),
                                    Meaning(LoopScript(until, test, command), rs, false, false))
  {
    hide ReadText, SeekableText, ClosedText, NshBytes.YieldsBytes, Meaning, WriteText, LoopText, Ordinary, Keyword;
    LoopWritten(until, test, command);
    LoopWritable(until, test, command);
    NameChars(test);
    TextReadsBack(LoopFile(until, test, command), w);
    LoopHeld(until, test, command);
    NshBytes.TextRunsAsDocumented(LoopText(until, test, command), LoopScript(until, test, command), depth, fd, false, w);
  }

  /** What is documented: the test, and if it comes out as wanted the command and the test again. */
  lemma LoopMeans(until: bool, test: string, command: string, more: seq<bool>)
    ensures var s := LoopScript(until, test, command);
            var t, c := Event([Text(test)], false), Event([Text(command)], false);
            && Meaning(s, [!until] + more, false, false) == Outcome([t], more, false, Completed)
            && Meaning(s, [until, false, !until] + more, false, false) == Outcome([t, c, t], more, false, Completed)
            && Meaning(s, [until, true] + more, false, false) == Outcome([t, c], more, true, GaveUp)
  {
    var s := LoopScript(until, test, command);
    var once := [!until] + more;
    var ok, bad := [false] + once, [true] + more;
    assert once[1..] == more && ok[1..] == once && bad[1..] == more;
    assert ([until, false, !until] + more)[1..] == ok && ([until, true] + more)[1..] == bad;
    var body := s.body;
    assert Meaning(End, once, false, false) == Outcome([], once, false, Completed);
    assert Meaning(body, ok, false, false) == Outcome([Event([Text(command)], false)], once, false, Completed);
    assert Meaning(body, bad, false, false) == Outcome([Event([Text(command)], false)], more, true, GaveUp);
  }

  // ----- Ifs -----

  /** `if t; then a; else b; fi`, or with `!` in front of the test */
  function IfText(inverted: bool, test: string, a: string, b: string): string {
    "if " + (if inverted then "! " else "") + test + "; then " + a + "; else " + b + "; fi\n"
  }

  function IfFile(inverted: bool, test: string, a: string, b: string): File {
    [Cmd([KwIf] + (if inverted then [KwNot] else []) + [Text(test)], false),
     Cmd([KwThen, Text(a)], false), Cmd([KwElse, Text(b)], false), Cmd([KwFi], true)]
  }

  function IfScript(inverted: bool, test: string, a: string, b: string): Script {
    If(inverted, [Text(test)], Plain(true, [Text(a)], 0, End), true, Plain(true, [Text(b)], 0, End), End)
  }

  lemma TestWritten(inverted: bool, test: string)
    requires Ordinary(test)
    ensures WriteCommand([KwIf] + (if inverted then [KwNot] else []) + [Text(test)])
         == "if" + (" " + ((if inverted then "! " else "") + test))
  {
    hide Ordinary, WriteCommand;
    OrdinaryWords();
    if inverted {
      var words := [KwIf] + [KwNot] + [Text(test)];
      assert words[1..] == [KwNot, Text(test)];
      MoreWords(words, "if");
      TwoWords(words[1..], "!", test);
      assert "!" + (" " + test) == "! " + test;
    } else {
      var words: Words := [KwIf] + [] + [Text(test)];
      assert words == [KwIf, Text(test)];
      TwoWords(words, "if", test);
      assert "" + test == test;
    }
  }

  lemma IfWritten(inverted: bool, test: string, a: string, b: string)
    requires Ordinary(test) && Ordinary(a) && Ordinary(b)
    ensures WriteText(IfFile(inverted, test, a, b)) == IfText(inverted, test, a, b)
  {
    hide Ordinary, WriteCommand, WriteLine, WriteText;
    var file := IfFile(inverted, test, a, b);
    OrdinaryWords();
    TestWritten(inverted, test);
    TwoWords(file[1].words, "then", a);
    TwoWords(file[2].words, "else", b);
    OneWord(file[3].words, "fi");
    OneLineText(file);
    MoreOfLine(file);
    MoreOfLine(file[1..]);
    MoreOfLine(file[2..]);
    assert file[1..][1..] == file[2..] && file[2..][1..] == [file[3]];
    LastOfLine(file[3]);
    IfTextIs(inverted, test, a, b);
  }

  lemma IfTextIs(inverted: bool, test: string, a: string, b: string)
    ensures var t := (if inverted then "! " else "") + test;
            IfText(inverted, test, a, b) ==
            (("if" + (" " + t)) + ("; " + (("then" + (" " + a)) + ("; " + (("else" + (" " + b)) + ("; " + "fi")))))) + "\n"
  {
  }

  lemma IfWritable(inverted: bool, test: string, a: string, b: string)
    requires Name(test) && Name(a) && Name(b)
    ensures WritableFile(IfFile(inverted, test, a, b))
  {
    hide Ordinary, Simple;
    NameChars(test);
    NameChars(a);
    NameChars(b);
  }

  lemma IfHeld(inverted: bool, test: string, a: string, b: string)
    requires test != []
    ensures var s := IfScript(inverted, test, a, b);
            var file := IfFile(inverted, test, a, b);
            && Proper(s, false) && Holds(file, false, s, 0) && |file| == Len(s)
            && IfDepth(s) == 1 && LoopDepth(s) == 0 && !LoopInLoop(s)
  {
    var file := IfFile(inverted, test, a, b);
    var s, t := Plain(true, [Text(a)], 0, End), Plain(true, [Text(b)], 0, End);
    assert !LoopInLoop(End) && !LoopInLoop(s) && !LoopInLoop(t);
    assert Holds(file, false, s, 2) && Holds(file, false, t, 3) && Holds(file, false, End, 4);
    assert Len(s) == 0 && Len(t) == 0;
  }

  /** An if on one line is read as four commands and runs as documented under `set -e`. */
  lemma IfRuns(inverted: bool, test: string, a: string, b: string, depth: nat, fd: int, rs: seq<bool>, w: NshText.World)
    requires Name(test) && Name(a) && Name(b) && depth > 1 && fd >= 0
    ensures var text := IfText(inverted, test, a, b);
            && ReadText(text, w) == IfFile(inverted, test, a, b) && SeekableText(text, w) && ClosedText(text)
            && NshBytes.YieldsBytes(text, w, false, Init(depth, fd, rs),
                                    Meaning(IfScript(inverted, test, a, b), rs, false, false))
  {
    hide ReadText, SeekableText, ClosedText, NshBytes.YieldsBytes, Meaning, WriteText, IfText, Ordinary, Keyword;
    IfWritten(inverted, test, a, b);
    IfWritable(inverted, test, a, b);
    NameChars(test);
    TextReadsBack(IfFile(inverted, test, a, b), w);
    IfHeld(inverted, test, a, b);
    NshBytes.TextRunsAsDocumented(IfText(inverted, test, a, b), IfScript(inverted, test, a, b), depth, fd, false, w);
  }

  /** What is documented: the test, and then the one command or the other.  A result of true is
      a failure. */
  lemma IfMeans(inverted: bool, test: string, a: string, b: string, failed: bool, more: seq<bool>)
    ensures Meaning(IfScript(inverted, test, a, b), [failed, false] + more, false, false) ==
            Outcome([Event([Text(test)], false), Event([Text(if failed == inverted then a else b)], false)],
                    more, false, Completed)
  {
    var s := IfScript(inverted, test, a, b);
    var rs := [failed, false] + more;
    var later := [false] + more;
    assert rs[1..] == later && later[1..] == more;
    assert Meaning(End, more, false, false) == Outcome([], more, false, Completed);
    var branch := if failed == inverted then s.thn else s.els;
    assert Meaning(branch, later, false, false) ==
           Outcome([Event([Text(if failed == inverted then a else b)], false)], more, false, Completed);
  }

  // ----- Comments -----

  /** A line that is a comment is an empty command, whatever is in it. */
  lemma CommentLine(t: string, rest: string, w: NshText.World)
    requires '\n' !in t
    ensures ReadText("#" + t + "\n" + rest, w) == [Cmd([], true)] + ReadText(rest, w)
  {
    hide ReadText, NshText.Args;
    var line := "#" + t;
    assert "#" + t + "\n" + rest == line + ("\n" + rest);
    ReadFirstLine(line, rest, w);
    assert LineCommands(line) == [line];
    ReadOne(line, w);
    Letters("a");
    Commented("a", t, w);
  }
}
