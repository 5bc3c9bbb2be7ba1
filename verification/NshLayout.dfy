/**
  Lines with several commands.  A command that fails ends its line.  Under `set -e` the script
  is over then; under `set +e` it goes on with the next line, and a keyword on the rest of the
  line is lost.
*/
module NshLayout {
  import opened NshControl
  import opened NshScript
  import opened NshSemantics
  import opened NshTokens
  import opened NshRefinement

  /** Under `set +e` the script goes on behind a failed command exactly if the command ends its
      line. */
  lemma FailureEndsLine(file: File, c: Config, words: Words)
    requires Ready(file, c) && c.pos < |file| && Settled(c.np) && CmdEnabled(c.np)
    requires PlainWords(words) && words != [] && c.rs != [] && c.rs[0]
    ensures var d := NextWords(file, true, c, words);
            && d.status == Running && d.pos == NextLine(file, c.pos) && d.bol
            && (d.pos == c.pos + 1 <==> EndsLine(file, c.pos))
  {
    hide ParseCommand, Loaded;
    LoadedFrames(file, c);
    LoadedLine(file, c);
    PlainCommand(Loaded(file, c), words, c.rs);
    if !EndsLine(file, c.pos) {
      assert NextLine(file, c.pos) == NextLine(file, c.pos + 1);
    }
  }

  /** A loop whose test lets its body run. */
  lemma LoopOpens(file: File, ignore: bool, c: Config, until: bool, test: Words)
    requires Ready(file, c) && Settled(c.np) && ItefEnabled(c.np) && c.np.lpndx + 1 < |c.np.lp|
    requires c.pos + 1 < |file| && file[c.pos].words == [LoopWord(until)] + test && TestWords(test)
    requires c.rs != [] && c.rs[0] == until
    ensures var d := Next(file, ignore, c);
            && Stands(file, d, c.pos + 1, Ifs(c.np), Loops(c.np) + [Loop(LoopWait(until), true, c.np.iendx, c.pos)], false)
            && d.rs == c.rs[1..] && d.trace == c.trace + [Event(test, c.np.fail)] && SameRoom(c, d)
  {
    hide ParseCommand, Next, NextWords, Loaded;
    NextIsHere(file, ignore, c);
    LoadedFrames(file, c);
    WhileCommand(Loaded(file, c), until, test, c.rs);
    StepLeaves(file, ignore, c, [LoopWord(until)] + test,
               Ifs(c.np), Loops(c.np) + [Loop(LoopWait(until), true, c.np.iendx, c.pos)], false);
  }

  /** A command behind `do` that fails. */
  lemma DoFailsCommand(np: Np, words: Words, rs: seq<bool>)
    requires Shaped(np) && PlainWords(words) && words != [] && Waiting(LpTop(np).state) && LpTop(np).enable
    requires ItefEnabled(np) && IeTop(np).state != ItefIf && rs != [] && rs[0]
    ensures var s := ParseCommand(np, [KwDo] + words, rs);
            && !s.ok && !s.starved && s.rs == rs[1..] && s.events == [Event(words, np.fail)]
            && s.np.lpndx == np.lpndx && s.np.fail && LpTop(s.np).state == LoopDo && s.np.fpos == np.fpos
  {
    hide ParseCommand;
    DoCommand(np, rs);
    var r := ParseCommand(np, [KwDo], rs).np;
    assert LpTop(r) == Loops(r)[|Loops(r)| - 1] && IeTop(r) == Ifs(r)[|Ifs(r)| - 1];
    JoinedCommand(np, KwDo, words, rs);
    PlainCommand(r, words, rs);
  }

  /** Under `set +e` the script goes on with the next line. */
  lemma DoFails(file: File, c: Config, words: Words)
    requires Ready(file, c) && c.pos < |file| && file[c.pos].words == [KwDo] + words
    requires PlainWords(words) && words != [] && Waiting(LpTop(c.np).state) && LpTop(c.np).enable
    requires ItefEnabled(c.np) && IeTop(c.np).state != ItefIf && c.rs != [] && c.rs[0]
    ensures var d := Next(file, true, c);
            && d.status == Running && d.pos == NextLine(file, c.pos) && d.np.lpndx == c.np.lpndx && d.np.fail
            && Shaped(d.np) && LpTop(d.np).state == LoopDo
            && d.rs == c.rs[1..] && d.trace == c.trace + [Event(words, c.np.fail)]
  {
    hide ParseCommand, Loaded, NextLine;
    LoadedFrames(file, c);
    LoadedLine(file, c);
    DoFailsCommand(Loaded(file, c), words, c.rs);
  }

  /** `while test` and `do words`, with `done` on the same line or on the next. */
  function OneLoop(until: bool, test: Words, words: Words, apart: bool): File {
    [Cmd([LoopWord(until)] + test, true), Cmd([KwDo] + words, apart), Cmd([KwDone], true)]
  }

  /** When the command fails, `done` is skipped if it stands on the same line: the script ends
      with the loop open. */
  lemma LoopStaysOpen(until: bool, test: Words, words: Words, depth: nat, fd: int)
    requires TestWords(test) && PlainWords(words) && words != [] && depth > 1 && fd >= 0
    ensures var d := Run(OneLoop(until, test, words, false), true, Init(depth, fd, [until, true]), 3);
            && d.status == Finished && d.np.lpndx == 1 && d.np.fail
            && d.rs == [] && d.trace == [Event(test, false), Event(words, false)]
  {
    hide Next;
    var file := OneLoop(until, test, words, false);
    var c := Init(depth, fd, [until, true]);
    var c1 := Next(file, true, c);
    var c2 := Next(file, true, c1);
    LoopOpens(file, true, c, until, test);
    DoFails(file, c1, words);
    assert NextLine(file, 1) == NextLine(file, 2) == 3;
    EndOfFile(file, c2);
    RunThree(file, true, c);
  }

  lemma EndOfFile(file: File, c: Config)
    requires c.status == Running && Shaped(c.np) && c.pos == |file|
    ensures Next(file, true, c) == c.(status := Finished)
  {
  }

  lemma RunThree(file: File, ignore: bool, c: Config)
    ensures Run(file, ignore, c, 3) == Next(file, ignore, Next(file, ignore, Next(file, ignore, c)))
  {
    hide Next;
    RunNext(file, ignore, c, 0);
    RunNext(file, ignore, c, 1);
    RunNext(file, ignore, c, 2);
    assert Run(file, ignore, c, 0) == c;
  }

  /** Such a loop runs as documented, on every list of results, exactly if `done` is on a line
      of its own or a failed command ends the script anyway. */
  lemma OneLoopDocumented(until: bool, test: Words, words: Words, apart: bool, depth: nat, fd: int, ignore: bool)
    requires TestWords(test) && PlainWords(words) && words != [] && depth > 1 && fd >= 0
    ensures var s := While(until, test, Plain(true, words, 0, End), End);
            (forall rs :: Yields(OneLoop(until, test, words, apart), ignore, Init(depth, fd, rs), Meaning(s, rs, false, ignore)))
            <==> !ignore || apart
  {
    hide Yields, Run, Next;
    var s := While(until, test, Plain(true, words, 0, End), End);
    var file := OneLoop(until, test, words, apart);
    if !ignore || apart {
      OneLoopHeld(until, test, words, apart, ignore);
      ScriptRunsAsDocumented(file, s, depth, fd, ignore);
    } else {
      var rs, c := [until, true], Init(depth, fd, [until, true]);
      LoopStaysOpen(until, test, words, depth, fd);
      var o := Outcome([Event(test, false), Event(words, false)], [], true, Completed);
      YieldsBy(file, true, c, o, 3);
      MeaningCutOff(until, test, words);
      if Yields(file, true, c, Meaning(s, rs, false, true)) {
        YieldsOnce(file, true, c, o, Meaning(s, rs, false, true));
      }
    }
  }

  lemma YieldsBy(file: File, ignore: bool, c: Config, o: Outcome, n: nat)
    requires Result(Run(file, ignore, c, n), c, o)
    ensures Yields(file, ignore, c, o)
  {
  }

  lemma MeaningCutOff(until: bool, test: Words, words: Words)
    requires words != []
    ensures Meaning(While(until, test, Plain(true, words, 0, End), End), [until, true], false, true).end == CutOff
  {
    var s := While(until, test, Plain(true, words, 0, End), End);
    var rs := [until, true];
    assert rs[1..] == [true] && [true][1..] == [];
    assert Meaning(s, [], true, true).end == CutOff;
    assert Meaning(Plain(true, words, 0, End), [true], false, true) == After(words, false, Meaning(End, [], true, true));
  }

  lemma OneLoopHeld(until: bool, test: Words, words: Words, apart: bool, ignore: bool)
    requires TestWords(test) && PlainWords(words) && words != [] && (!ignore || apart)
    ensures var s := While(until, test, Plain(true, words, 0, End), End);
            var file := OneLoop(until, test, words, apart);
            && Proper(s, false) && Holds(file, ignore, s, 0) && |file| == Len(s)
            && IfDepth(s) == 0 && LoopDepth(s) == 1 && !LoopInLoop(s) && Alone(s)
  {
    var s := Plain(true, words, 0, End);
    assert !HasLoop(End) && !LoopInLoop(End) && !HasLoop(s) && !LoopInLoop(s);
    assert Holds(OneLoop(until, test, words, apart), ignore, s, 2);
  }
}
