/**
  Scripts as text.  A script file is read line by line, a line is cut into commands and a
  command into words; every script file can be written as text that is read back as that file,
  so a script given as text runs as documented.
*/
module NshTextScript {
  import opened Basics
  import opened NshControl
  import opened NshScript
  import opened NshSemantics
  import opened NshArguments
  import NshText
  import NshQuoting
  import NshLine
  import opened NshRefinement
  import opened NshParser
  import opened Iteration

  // ----- Words -----

  /** The comparisons that tell keywords from other words. */
  function WordOf(s: string): Word {
    if s == "while" then KwWhile
    else if s == "until" then KwUntil
    else if s == "do" then KwDo
    else if s == "done" then KwDone
    else if s == "if" then KwIf
    else if s == "!" then KwNot
    else if s == "then" then KwThen
    else if s == "else" then KwElse
    else if s == "fi" then KwFi
    else if s == "break" then KwBreak
    else Text(s)
  }

  function StringOf(w: Word): string {
    match w
    case KwWhile => "while"
    case KwUntil => "until"
    case KwDo => "do"
    case KwDone => "done"
    case KwIf => "if"
    case KwNot => "!"
    case KwThen => "then"
    case KwElse => "else"
    case KwFi => "fi"
    case KwBreak => "break"
    case Text(text) => text
  }

  predicate Keyword(s: string) {
    || s == "while" || s == "until" || s == "do" || s == "done"
    || s == "if" || s == "!" || s == "then" || s == "else" || s == "fi"
    || s == "break"
  }

  /** The ten keywords are told from each other and from all other words. */
  lemma WordOfIs(s: string)
    ensures WordOf(s) == Text(s) <==> !Keyword(s)
    ensures WordOf("while") == KwWhile && WordOf("until") == KwUntil && WordOf("do") == KwDo && WordOf("done") == KwDone
    ensures WordOf("if") == KwIf && WordOf("!") == KwNot && WordOf("then") == KwThen
    ensures WordOf("else") == KwElse && WordOf("fi") == KwFi && WordOf("break") == KwBreak
  {
  }

  /** A word that can be written in a line and is read as itself. */
  predicate Writable(w: Word) {
    w.Text? ==> !Keyword(w.text) && '\n' !in w.text
  }

  lemma WordReadsBack(w: Word)
    requires Writable(w)
    ensures WordOf(StringOf(w)) == w && '\n' !in StringOf(w)
  {
  }

  // ----- Reading -----

  function WordsOf(args: seq<string>): (words: Words)
    ensures |words| == |args|
  {
    if args == [] then [] else [WordOf(args[0])] + WordsOf(args[1..])
  }

  /** The commands of a line; the last of them ends it. */
  function ReadCommands(commands: seq<string>, w: NshText.World): (file: File)
    ensures |file| == |commands|
  {
    if commands == [] then []
    else [Cmd(WordsOf(NshText.Args(commands[0], w)), |commands| == 1)] + ReadCommands(commands[1..], w)
  }

  function LineCommands(line: string): seq<string> {
    NshText.Commands(NshText.Chop(line, NshText.Outside))
  }

  function ReadLine(line: string, w: NshText.World): File {
    ReadCommands(LineCommands(line), w)
  }

  /** The length of the text before the first newline, or of all of it. */
  function LineLength(text: string): (n: nat)
    ensures n <= |text| && (n < |text| ==> text[n] == '\n')
    ensures forall i :: 0 <= i < n ==> text[i] != '\n'
  {
    if text == [] || text[0] == '\n' then 0 else 1 + LineLength(text[1..])
  }

  /** A script file, line by line. */
  function ReadText(text: string, w: NshText.World): File
    decreases |text|
  {
    if text == [] then []
    else
      var n := LineLength(text);
      ReadLine(text[..n], w) + if n < |text| then ReadText(text[n + 1..], w) else []
  }

  // ----- Writing -----

  function Strings(words: Words): (args: seq<string>)
    ensures |args| == |words|
  {
    if words == [] then [] else [StringOf(words[0])] + Strings(words[1..])
  }

  /** A string that needs no quotation marks. */
  predicate Simple(s: string) {
    s != [] && forall i :: 0 <= i < |s| ==> s[i] !in "\"#;\n"
  }

  function Spell(s: string): string {
    if Ordinary(s) then s else if Simple(s) then NshQuoting.Escape(s) else NshQuoting.Quote(s)
  }

  function SpellAll(args: seq<string>): string
    decreases |args|, 0
  {
    if args == [] then [] else Spell(args[0]) + SpellMore(args[1..])
  }

  function SpellMore(args: seq<string>): string
    decreases |args|, 1
  {
    if args == [] then [] else " " + SpellAll(args)
  }

  function WriteCommand(words: Words): string {
    SpellAll(Strings(words))
  }

  /** The commands of a line, with semicolons between them. */
  function WriteLine(line: File): string
    requires line != []
  {
    WriteCommand(line[0].words) + if |line| == 1 then [] else ";" + (" " + WriteLine(line[1..]))
  }

  function WriteText(file: File): string
    decreases |file|
  {
    if file == [] then []
    else
      var n := NextLine(file, 0);
      WriteLine(file[..n]) + ("\n" + WriteText(file[n..]))
  }

  /** Words that are read as they are written; those of a loop's test are spelled without
      quotation marks, behind which the parser would go back to the wrong place. */
  ghost predicate WritableWords(words: Words) {
    && (forall j :: 0 <= j < |words| ==> Writable(words[j]))
    && (OpensLoop(words) ==>
          forall j :: 0 <= j < |words| ==> Simple(StringOf(words[j])))
  }

  ghost predicate WritableFile(file: File) {
    && (forall i :: 0 <= i < |file| ==> WritableWords(file[i].words))
    && (file != [] ==> file[|file| - 1].eol)
  }

  predicate OpensLoop(words: Words) {
    words != [] && (words[0] == KwWhile || words[0] == KwUntil)
  }

  /** The commands that open loops have no quotation marks, so the parser's offsets are right:
      see `NshLine.ParseLine`. */
  ghost predicate Seekable(commands: seq<string>, w: NshText.World) {
    forall i :: 0 <= i < |commands| ==>
      OpensLoop(WordsOf(NshText.Args(commands[i], w))) ==> !NshLine.QuoteFirst(commands[i])
  }

  ghost predicate SeekableText(text: string, w: NshText.World)
    decreases |text|
  {
    text == [] ||
    var n := LineLength(text);
    && Seekable(LineCommands(text[..n]), w)
    && (n < |text| ==> SeekableText(text[n + 1..], w))
  }

  /** Every line closes its quotation marks. */
  predicate ClosedText(text: string)
    decreases |text|
  {
    text == [] ||
    var n := LineLength(text);
    && NshText.Chop(text[..n], NshText.Outside).last.Some?
    && (n < |text| ==> ClosedText(text[n + 1..]))
  }

  // ----- And reading back -----

  lemma {:induction false} WordsReadBack(words: Words)
    requires forall j :: 0 <= j < |words| ==> Writable(words[j])
    ensures WordsOf(Strings(words)) == words && forall i :: 0 <= i < |words| ==> '\n' !in Strings(words)[i]
  {
    if words != [] {
      WordReadsBack(words[0]);
      WordsReadBack(words[1..]);
    }
  }

  lemma {:induction false} EscapeNoNewline(s: string)
    requires '\n' !in s
    ensures '\n' !in NshQuoting.Escape(s)
  {
    if s != [] {
      EscapeNoNewline(s[1..]);
    }
  }

  lemma {:induction false} EscapeNoMark(s: string)
    requires forall i :: 0 <= i < |s| ==> !NshText.LineMark(s[i])
    ensures forall i :: 0 <= i < |NshQuoting.Escape(s)| ==> !NshText.LineMark(NshQuoting.Escape(s)[i])
  {
    if s != [] {
      EscapeNoMark(s[1..]);
    }
  }

  lemma SpelledNoNewline(s: string)
    requires '\n' !in s
    ensures '\n' !in Spell(s)
  {
    EscapeNoNewline(s);
  }

  lemma SpelledNoMark(s: string)
    requires Simple(s)
    ensures forall i :: 0 <= i < |Spell(s)| ==> !NshText.LineMark(Spell(s)[i])
  {
    EscapeNoMark(s);
  }

  lemma {:induction false} SpellNoNewline(args: seq<string>)
    requires forall i :: 0 <= i < |args| ==> '\n' !in args[i]
    ensures '\n' !in SpellAll(args)
  {
    hide Spell;
    if args != [] {
      SpelledNoNewline(args[0]);
      SpellNoNewline(args[1..]);
    }
  }

  lemma {:induction false} SpellNoMark(args: seq<string>)
    requires forall i :: 0 <= i < |args| ==> Simple(args[i])
    ensures forall i :: 0 <= i < |SpellAll(args)| ==> !NshText.LineMark(SpellAll(args)[i])
  {
    hide Spell, Simple;
    if args != [] {
      SpelledNoMark(args[0]);
      SpellNoMark(args[1..]);
      var word, more := Spell(args[0]), SpellMore(args[1..]);
      assert |args| > 1 ==> more[0] == ' ' && forall i :: 1 <= i < |more| ==> more[i] == SpellAll(args[1..])[i - 1];
      assert SpellAll(args) == word + more;
    }
  }

  /** One word, and the words behind it. */
  lemma SpelledArg(s: string, rest: string, w: NshText.World)
    ensures NshText.Args(Spell(s), w) == [s]
    ensures NshText.Args(Spell(s) + (" " + rest), w) == [s] + NshText.Args(rest, w)
  {
    hide NshText.NextArg, NshQuoting.Quote, NshQuoting.Escape, Simple, Ordinary;
    var tail := " " + rest;
    assert Spell(s) + [] == Spell(s) && tail[1..] == rest;
    NoArgs(w);
    if Ordinary(s) {
      OrdinaryArg(s, [], w);
      OrdinaryArg(s, tail, w);
    } else if Simple(s) {
      SimpleNotEmpty(s);
      NshQuoting.BareArg(s, [], w);
      NshQuoting.BareArg(s, tail, w);
    } else {
      NshQuoting.QuotedArg(s, [], w);
      NshQuoting.QuotedArg(s, tail, w);
      NshQuoting.ArgsSkipOne(rest, w);
    }
  }

  lemma {:induction false} ArgsSpelled(args: seq<string>, w: NshText.World)
    ensures NshText.Args(SpellAll(args), w) == args
  {
    hide NshText.Args, Spell;
    if args == [] {
      NoArgs(w);
    } else {
      SpelledArg(args[0], SpellAll(args[1..]), w);
      assert Spell(args[0]) + [] == Spell(args[0]);
      ArgsSpelled(args[1..], w);
      assert args == [args[0]] + args[1..];
    }
  }

  lemma SimpleNotEmpty(s: string)
    requires Simple(s)
    ensures s != []
  {
  }

  /** What may stand before a command. */
  predicate Lead(lead: string) {
    lead == "" || lead == " "
  }

  lemma LeadSkipped(lead: string, s: string, w: NshText.World)
    requires Lead(lead)
    ensures NshText.Args(lead + s, w) == NshText.Args(s, w)
  {
    if lead == "" {
      assert lead + s == s;
    } else {
      NshQuoting.ArgsSkipOne(s, w);
    }
  }

  lemma CommandReadsBack(words: Words, lead: string, w: NshText.World)
    requires WritableWords(words) && Lead(lead)
    ensures WordsOf(NshText.Args(lead + WriteCommand(words), w)) == words && '\n' !in WriteCommand(words)
    ensures Seekable([lead + WriteCommand(words)], w)
  {
    hide NshText.Args, SpellAll, Simple, NshLine.MarkAt, NshText.LineMark, Writable;
    WordsReadBack(words);
    StringsAre(words);
    LeadSkipped(lead, WriteCommand(words), w);
    ArgsSpelled(Strings(words), w);
    SpellNoNewline(Strings(words));
    if OpensLoop(words) {
      SpellNoMark(Strings(words));
      LeadNoMark(lead, WriteCommand(words));
    }
  }

  lemma LeadNoMark(lead: string, s: string)
    requires Lead(lead) && forall i :: 0 <= i < |s| ==> !NshText.LineMark(s[i])
    ensures !NshLine.QuoteFirst(lead + s)
  {
    assert forall i :: 0 <= i < |lead + s| ==> !NshText.LineMark((lead + s)[i]);
  }

  lemma {:induction false} StringsAre(words: Words)
    ensures forall i :: 0 <= i < |words| ==> Strings(words)[i] == StringOf(words[i])
  {
    if words != [] {
      StringsAre(words[1..]);
    }
  }

  /** A written command in front of other text does not change how that is cut up. */
  lemma {:induction false} ChopWritten(args: seq<string>, rest: string)
    ensures NshText.Chop(SpellAll(args) + rest, NshText.Outside)
         == NshText.Stretch(SpellAll(args), NshText.Chop(rest, NshText.Outside))
  {
    hide NshText.Chop, NshText.Stretch, Spell;
    var p := NshText.Chop(rest, NshText.Outside);
    if args == [] {
      assert SpellAll(args) + rest == rest;
      StretchNothing(p);
    } else {
      var word, more := Spell(args[0]), SpellMore(args[1..]);
      assert SpellAll(args) + rest == word + (more + rest);
      ChopSpelled(args[0], more + rest);
      if |args| == 1 {
        assert more + rest == rest && word + more == word;
      } else {
        var next := SpellAll(args[1..]);
        ChopWritten(args[1..], rest);
        ChopLead(" ", next, rest);
        NshText.StretchAdds(word, more, p);
      }
    }
  }

  lemma ChopLead(lead: string, s: string, rest: string)
    requires Lead(lead)
    requires NshText.Chop(s + rest, NshText.Outside) == NshText.Stretch(s, NshText.Chop(rest, NshText.Outside))
    ensures NshText.Chop((lead + s) + rest, NshText.Outside)
         == NshText.Stretch(lead + s, NshText.Chop(rest, NshText.Outside))
  {
    hide NshText.Chop, NshText.Stretch;
    NshText.ChopPlain(lead, s + rest);
    assert lead + (s + rest) == (lead + s) + rest;
    NshText.StretchAdds(lead, s, NshText.Chop(rest, NshText.Outside));
  }

  lemma StretchNothing(p: NshText.Pieces)
    ensures NshText.Stretch([], p) == p
  {
  }

  lemma ChopSpelled(s: string, rest: string)
    ensures NshText.Chop(Spell(s) + rest, NshText.Outside)
         == NshText.Stretch(Spell(s), NshText.Chop(rest, NshText.Outside))
  {
    hide NshText.Chop, NshText.Stretch;
    if Ordinary(s) {
      assert forall i :: 0 <= i < |s| ==> OrdinaryChar(s[i]);
      NshText.ChopPlain(s, rest);
    } else if Simple(s) {
      EscapeNoMark(s);
      NshText.ChopPlain(NshQuoting.Escape(s), rest);
    } else {
      NshQuoting.ChopQuote(s, rest);
    }
  }

  /** With nothing behind it, it is a single command. */
  lemma WrittenIsOneCommand(args: seq<string>, lead: string)
    requires Lead(lead)
    ensures LineCommands(lead + SpellAll(args)) == [lead + SpellAll(args)]
    ensures NshText.Chop(lead + SpellAll(args), NshText.Outside).last.Some?
  {
    hide SpellAll;
    var s := lead + SpellAll(args);
    ChopWritten(args, []);
    ChopLead(lead, SpellAll(args), []);
    assert s + [] == s;
    NshText.StretchLast(s, []);
  }

  /** A line that closes its quotation marks, is read as `file`, and lets its loops go back. */
  ghost predicate ReadsAs(line: string, file: File, w: NshText.World) {
    && NshText.Chop(line, NshText.Outside).last.Some?
    && ReadLine(line, w) == file
    && Seekable(LineCommands(line), w)
  }

  /** A line is cut into the commands it was written from. */
  lemma {:induction false} LineReadsBack(line: File, lead: string, w: NshText.World)
    requires line != [] && Lead(lead) && forall i :: 0 <= i < |line| ==> WritableWords(line[i].words)
    requires forall i :: 0 <= i < |line| ==> line[i].eol == (i == |line| - 1)
    ensures ReadsAs(lead + WriteLine(line), line, w)
    decreases |line|
  {
    hide WritableWords, ReadsAs, WriteCommand;
    if |line| == 1 {
      OnlyCommand(line[0].words, lead, w);
      assert WriteLine(line) == WriteCommand(line[0].words);
      assert line == [Cmd(line[0].words, true)];
    } else {
      var rest := " " + WriteLine(line[1..]);
      LineReadsBack(line[1..], " ", w);
      MoreCommands(line[0].words, lead, rest, line[1..], w);
      assert lead + WriteLine(line) == (lead + WriteCommand(line[0].words)) + (";" + rest);
      assert line == [Cmd(line[0].words, false)] + line[1..];
    }
  }

  lemma OnlyCommand(words: Words, lead: string, w: NshText.World)
    requires WritableWords(words) && Lead(lead)
    ensures ReadsAs(lead + WriteCommand(words), [Cmd(words, true)], w)
  {
    hide NshText.Chop, NshText.Args, WritableWords, Seekable, LineCommands, ReadCommands, WriteCommand, WordsOf;
    CommandReadsBack(words, lead, w);
    CommandIsLine(words, lead);
    ReadOne(lead + WriteCommand(words), w);
  }

  lemma MoreCommands(words: Words, lead: string, rest: string, file: File, w: NshText.World)
    requires WritableWords(words) && Lead(lead) && ReadsAs(rest, file, w) && file != []
    ensures ReadsAs((lead + WriteCommand(words)) + (";" + rest), [Cmd(words, false)] + file, w)
  {
    hide NshText.Chop, NshText.Args, WritableWords, Seekable, LineCommands, ReadCommands, WriteCommand, WordsOf;
    CommandReadsBack(words, lead, w);
    CommandThenLine(words, lead, rest);
    ReadMore(lead + WriteCommand(words), LineCommands(rest), w);
    SeekableMore(lead + WriteCommand(words), LineCommands(rest), w);
  }

  lemma {:induction false} WrittenNoNewline(line: File, w: NshText.World)
    requires line != [] && forall i :: 0 <= i < |line| ==> WritableWords(line[i].words)
    ensures '\n' !in WriteLine(line)
    decreases |line|
  {
    hide WritableWords, WriteCommand, Seekable, NshText.Args;
    CommandReadsBack(line[0].words, "", w);
    if |line| > 1 {
      WrittenNoNewline(line[1..], w);
    }
  }

  lemma CommandIsLine(words: Words, lead: string)
    requires Lead(lead)
    ensures var s := lead + WriteCommand(words);
            LineCommands(s) == [s] && NshText.Chop(s, NshText.Outside).last.Some?
  {
    WrittenIsOneCommand(Strings(words), lead);
  }

  lemma CommandThenLine(words: Words, lead: string, rest: string)
    requires Lead(lead)
    ensures var s := lead + WriteCommand(words); var line := s + (";" + rest);
            && LineCommands(line) == [s] + LineCommands(rest)
            && (NshText.Chop(rest, NshText.Outside).last.Some? ==> NshText.Chop(line, NshText.Outside).last.Some?)
  {
    hide NshText.Chop, NshText.Stretch, SpellAll, LineCommands;
    ChopWritten(Strings(words), ";" + rest);
    ChopLead(lead, WriteCommand(words), ";" + rest);
    FirstOfLine(lead + WriteCommand(words), rest);
  }

  lemma ReadOne(command: string, w: NshText.World)
    ensures ReadCommands([command], w) == [Cmd(WordsOf(NshText.Args(command, w)), true)]
  {
    assert [command][1..] == [];
  }

  lemma ReadMore(first: string, rest: seq<string>, w: NshText.World)
    ensures ReadCommands([first] + rest, w) == [Cmd(WordsOf(NshText.Args(first, w)), rest == [])] + ReadCommands(rest, w)
  {
    assert ([first] + rest)[1..] == rest;
  }

  lemma SeekableMore(first: string, rest: seq<string>, w: NshText.World)
    requires Seekable([first], w) && Seekable(rest, w)
    ensures Seekable([first] + rest, w)
  {
    hide NshText.Args, NshLine.QuoteFirst, WordsOf;
    var all := [first] + rest;
    assert [first][0] == first;
    assert forall i :: 0 <= i < |all| ==> all[i] == if i == 0 then first else rest[i - 1];
  }

  lemma FirstOfLine(first: string, rest: string)
    requires NshText.Chop(first + (";" + rest), NshText.Outside)
          == NshText.Stretch(first, NshText.Chop(";" + rest, NshText.Outside))
    ensures LineCommands(first + (";" + rest)) == [first] + LineCommands(rest)
    ensures NshText.Chop(rest, NshText.Outside).last.Some? ==> NshText.Chop(first + (";" + rest), NshText.Outside).last.Some?
  {
    hide NshText.Stretch;
    var p := NshText.Chop(rest, NshText.Outside);
    var q := NshText.Chop(";" + rest, NshText.Outside);
    assert (";" + rest)[1..] == rest;
    assert q == p.(done := [[]] + p.done);
    NshText.StretchKeeps(first, q);
    assert first + [] == first;
    assert q.done[1..] == p.done;
    var r := NshText.Stretch(first, q);
    assert r.done == [r.done[0]] + r.done[1..];
  }

  lemma ReadFirstLine(line: string, rest: string, w: NshText.World)
    requires '\n' !in line
    ensures ReadText(line + ("\n" + rest), w) == ReadLine(line, w) + ReadText(rest, w)
    ensures SeekableText(line + ("\n" + rest), w) <==> Seekable(LineCommands(line), w) && SeekableText(rest, w)
    ensures ClosedText(line + ("\n" + rest)) <==>
            NshText.Chop(line, NshText.Outside).last.Some? && ClosedText(rest)
  {
    hide ReadLine, Seekable, NshText.Chop;
    var text := line + ("\n" + rest);
    assert text[|line|] == '\n' && forall i :: 0 <= i < |line| ==> text[i] == line[i];
    assert LineLength(text) == |line|;
    assert text[..|line|] == line && text[|line| + 1..] == rest;
  }

  /** Every script file is read back from the text it is written as, whatever the world is. */
  lemma {:induction false} TextReadsBack(file: File, w: NshText.World)
    requires WritableFile(file)
    ensures ReadText(WriteText(file), w) == file
    ensures SeekableText(WriteText(file), w) && ClosedText(WriteText(file))
    decreases |file|
  {
    hide ReadLine, WriteLine, ReadText, WritableFile, NextLine, SeekableText, Seekable, ClosedText, LineCommands;
    if file == [] {
      ReadNothing(w);
    } else {
      var n := NextLine(file, 0);
      WholeLine(file);
      LineReadsBack(file[..n], "", w);
      WrittenNoNewline(file[..n], w);
      assert "" + WriteLine(file[..n]) == WriteLine(file[..n]);
      ReadFirstLine(WriteLine(file[..n]), WriteText(file[n..]), w);
      TextReadsBack(file[n..], w);
      assert file[..n] + file[n..] == file;
    }
  }

  lemma ReadNothing(w: NshText.World)
    ensures ReadText([], w) == [] && SeekableText([], w) && ClosedText([])
  {
  }

  lemma WholeLine(file: File)
    requires WritableFile(file) && file != []
    ensures var n := NextLine(file, 0);
            && (forall i :: 0 <= i < n ==> WritableWords(file[..n][i].words) && file[i].eol == (i == n - 1))
            && WritableFile(file[n..])
  {
  }

  // ----- Running -----

  /** A run that has ended has ended as it yields. */
  lemma EndsAsYielded(file: File, ignore: bool, c: Config, n: nat, o: Outcome)
    requires Yields(file, ignore, c, o) && Run(file, ignore, c, n).status != Running
    ensures Result(Run(file, ignore, c, n), c, o)
  {
    hide NextWords;
    var m: nat :| Result(Run(file, ignore, c, m), c, o);
    var step := Machine(file, ignore);
    var d, e := Run(file, ignore, c, m), Run(file, ignore, c, n);
    if m <= n {
      IterateAdds(step, c, m, n - m);
      IterateFixed(step, d, n - m);
    } else {
      IterateAdds(step, c, n, m - n);
      IterateFixed(step, e, m - n);
    }
  }

  /**
    The shell itself, on a text: a new session that reads the script and comes to an end has
    executed exactly the commands of the documented meaning.
  */
  method RunText(parser: Parser, stream: int, text: string, w: NshText.World, ignore: bool, rs: seq<bool>, lines: nat,
                 ghost s: Script, ghost depth: nat)
    returns (status: Status, left: seq<bool>, trace: seq<Event>)
    requires parser.Valid() && depth >= 1 && parser.State() == Start(depth, parser.fd) && stream >= 0
    requires SeekableText(text, w) && ClosedText(text)
    requires Proper(s, false) && Holds(ReadText(text, w), ignore, s, 0) && |ReadText(text, w)| == Len(s)
    requires !LoopInLoop(s) && (ignore ==> Alone(s)) && IfDepth(s) < depth && LoopDepth(s) < depth
    modifies parser, parser.ie, parser.lp
    ensures status != Running ==>
              var o := Meaning(s, rs, false, ignore);
              && trace == o.trace && left == o.rs
              && match o.end
                 case Completed => status == Finished && parser.fail == o.fail
                 case CutOff => status == Starved
                 case GaveUp => status == Stopped
  {
    hide ReadText, Holds, Proper, IfDepth, LoopDepth, Len, Meaning, Yields, Run, LoopInLoop, Alone, SeekableText, ClosedText;
    var script := ReadText(text, w);
    ghost var c := Init(depth, stream, rs);
    assert Opened(parser.State(), stream, rs) == c;
    ghost var n;
    status, left, trace, n := parser.Script(stream, script, ignore, rs, lines);
    if status != Running {
      ScriptRunsAsDocumented(script, s, depth, stream, ignore);
      EndsAsYielded(script, ignore, c, n, Meaning(s, rs, false, ignore));
    }
  }
}
