/**
  `break`: directly in the body of a loop it does what is documented, unless a loop follows in
  the same body.  Inside an if it also takes the if away, so that the `else` or `fi` that
  follows is refused or acts on another one.
*/
module NshBreak {
  import opened NshControl
  import opened NshScript
  import opened NshSemantics
  import opened NshTokens
  import opened NshRefinement
  import opened NshLayout

  /** A command may be executed in the body of a loop. */
  predicate InBody(np: Np) {
    && Settled(np) && CmdEnabled(np) && np.lpndx > 0 && LpTop(np).state == LoopDo
    && LpTop(np).iendx <= np.iendx && np.ie[LpTop(np).iendx].state != ItefIf
  }

  /** The loop frame that lets nothing through. */
  function Off(np: Np): Loop
    requires Shaped(np)
  {
    LpTop(np).(enable := false)
  }

  /** `break` closes the ifs that were opened in the loop, and lets no command through. */
  lemma BreakCommand(np: Np, rs: seq<bool>)
    requires InBody(np)
    ensures var s := ParseCommand(np, [KwBreak], rs);
            && s.ok && s.rs == rs && s.events == [Event([KwBreak], np.fail)] && !s.starved
            && Leaves(np, s.np, np.ie[..LpTop(np).iendx + 1], Pop(Loops(np)) + [Off(np)], false)
  {
    assert FeedLoop(np, [KwBreak]) == Fed(np, true, [KwBreak]);
    assert FeedItef(np, [KwBreak]) == Fed(np, true, [KwBreak]);
    assert SetTop(Loops(np), Off(np)) == Pop(Loops(np)) + [Off(np)];
  }

  /**
    What follows `break`, up to the end of the branch or the body, is passed over, except that
    a loop directly in it is run.  The ifs that were opened in the loop are gone.
  */
  lemma BreakSkips(file: File, ignore: bool, rest: Script, c: Config) returns (d: Config)
    requires Ready(file, c) && InBody(c.np) && c.pos < |file| && file[c.pos].words == [KwBreak]
    requires Holds(file, ignore, rest, c.pos + 1) && Proper(rest, false)
    requires LpTop(c.np).iendx + IfDepth(rest) < |c.np.ie| && c.np.lpndx + LoopDepth(rest) < |c.np.lp|
    ensures Reach(file, ignore, c, d)
    ensures var k := LpTop(c.np).iendx;
            var o := BodyOutcome(rest, c.np.ie[k], Off(c.np), c.rs, false, ignore);
            Ends(file, c, d, After([KwBreak], c.np.fail, o), c.pos + 1 + Len(rest),
                 c.np.ie[..k + 1], Pop(Loops(c.np)) + [Off(c.np)])
  {
    hide ParseCommand, Loaded, NextWords, Next, Reach, Holds, Proper, IfDepth, LoopDepth, Len, Actual;
    var k, off := LpTop(c.np).iendx, Off(c.np);
    LoadedFrames(file, c);
    LoadedIfs(file, c);
    BreakCommand(Loaded(file, c), c.rs);
    NextIsHere(file, ignore, c);
    StepLeaves(file, ignore, c, [KwBreak], c.np.ie[..k + 1], Pop(Loops(c.np)) + [off], false);
    var e := Next(file, ignore, c);
    d := Simulate(file, ignore, rest, e, false);
    ReachStep(file, ignore, c, d);
    var o := BodyOutcome(rest, c.np.ie[k], off, c.rs, false, ignore);
    assert Effect(rest, e.np, e.rs, false, ignore) == o;
    ArrivesEnds(file, e, d, o, e.pos + Len(rest));
    assert c.trace + ([Event([KwBreak], c.np.fail)] + o.trace) == e.trace + o.trace;
  }

  lemma LoadedIfs(file: File, c: Config)
    requires Ready(file, c) && c.pos < |file|
    ensures Loaded(file, c).ie == c.np.ie && Loaded(file, c).lp == c.np.lp
  {
  }

  /** What is passed over stays silent, on every list of results, exactly if no loop stands
      directly in it. */
  lemma SilentIffNoLoop(rest: Script, fail: bool, ignore: bool)
    ensures (forall rs :: Actual(rest, true, rs, fail, ignore) == Nothing(rs, fail)) <==> !HasLoop(rest)
  {
    if HasLoop(rest) {
      LoopIsTested(rest, fail, ignore);
      assert Actual(rest, true, [], fail, ignore) != Nothing([], fail);
    } else {
      forall rs ensures Actual(rest, true, rs, fail, ignore) == Nothing(rs, fail) {
        SkipIsSilent(rest, rs, fail, ignore);
      }
    }
  }

  lemma {:induction false} LoopIsTested(rest: Script, fail: bool, ignore: bool)
    requires HasLoop(rest)
    ensures Actual(rest, true, [], fail, ignore).end == CutOff
  {
    if !rest.While? {
      LoopIsTested(rest.next, fail, ignore);
    }
  }

  // ----- Directly in the body -----

  /** `break` directly in the body of a loop, in front of `rest` and `done`. */
  predicate BreakInBody(file: File, ignore: bool, rest: Script, c: Config) {
    && Ready(file, c) && InBody(c.np) && c.np.iendx == LpTop(c.np).iendx
    && c.pos + 1 + Len(rest) < |file| && file[c.pos].words == [KwBreak]
    && Holds(file, ignore, rest, c.pos + 1) && Proper(rest, false)
    && file[c.pos + 1 + Len(rest)].words == [KwDone] && 0 <= LpTop(c.np).topoffs <= |file|
    && c.np.iendx + IfDepth(rest) < |c.np.ie| && c.np.lpndx + LoopDepth(rest) < |c.np.lp|
  }

  /**
    The rest of the body is passed over, as `SilentIffNoLoop` says; then the script goes on
    behind `done`, with the loop closed.
  */
  lemma BreakLeavesLoop(file: File, ignore: bool, rest: Script, c: Config) returns (d: Config)
    requires BreakInBody(file, ignore, rest, c)
    ensures Reach(file, ignore, c, d)
    ensures Ends(file, c, d, After([KwBreak], c.np.fail, Actual(rest, true, c.rs, false, ignore)),
                 c.pos + 2 + Len(rest), Ifs(c.np), Pop(Loops(c.np)))
    ensures !HasLoop(rest) ==>
              && Stands(file, d, c.pos + 2 + Len(rest), Ifs(c.np), Pop(Loops(c.np)), false)
              && d.rs == c.rs && d.trace == c.trace + [Event([KwBreak], c.np.fail)]
  {
    hide Next, Reach, Holds, Proper, IfDepth, LoopDepth, Len, Actual, Loaded;
    d := BreakSkips(file, ignore, rest, c);
    var o := Actual(rest, true, c.rs, false, ignore);
    if o.end == Completed {
      var e := d;
      StepDone(file, ignore, e, Ifs(c.np), Pop(Loops(c.np)), Off(c.np), o.fail);
      d := Next(file, ignore, e);
      ReachSelf(file, ignore, d);
      ReachStep(file, ignore, e, d);
      ReachTrans(file, ignore, c, e, d);
    }
    if !HasLoop(rest) {
      SkipIsSilent(rest, c.rs, false, ignore);
    }
  }

  // ----- Inside an if -----

  /** `fi` where there is no branch to close. */
  lemma FiRefused(np: Np, rs: seq<bool>)
    requires Shaped(np) && !Waiting(LpTop(np).state)
    requires np.iendx == 0 || (IeTop(np).state != ItefThen && IeTop(np).state != ItefElse)
    ensures var s := ParseCommand(np, [KwFi], rs);
            !s.ok && !s.starved && s.rs == rs && s.events == [] && s.np.fail && s.np.iendx == 0
  {
    hide Execute;
    assert FeedLoop(np, [KwFi]) == Fed(np, true, [KwFi]);
    assert FeedItef(np, [KwFi]) == ItefError(np);
  }

  /** `else` where there is no `then`. */
  lemma ElseRefused(np: Np, rs: seq<bool>)
    requires Shaped(np) && !Waiting(LpTop(np).state) && IeTop(np).state != ItefThen
    ensures var s := ParseCommand(np, [KwElse], rs);
            !s.ok && !s.starved && s.rs == rs && s.events == [] && s.np.fail && s.np.iendx == 0
  {
    hide Execute;
    assert FeedLoop(np, [KwElse]) == Fed(np, true, [KwElse]);
    assert FeedItef(np, [KwElse]) == ItefError(np);
  }

  /** What `fi` and `else` do to the frames that `break` leaves, the top one being `around`. */
  predicate ActsOnAround(np: Np, rs: seq<bool>, ifs: seq<Itef>)
    requires Shaped(np) && ifs != []
  {
    var around := ifs[|ifs| - 1];
    var fi, els := ParseCommand(np, [KwFi], rs), ParseCommand(np, [KwElse], rs);
    && (if |ifs| > 1 && (around.state == ItefThen || around.state == ItefElse) then
          fi.ok && Ifs(fi.np) == Pop(ifs)
        else
          !fi.ok && fi.np.fail && fi.np.iendx == 0)
    && (if around.state == ItefThen then
          els.ok && Ifs(els.np) == SetTop(ifs, around.(state := ItefElse))
        else
          !els.ok && els.np.fail && els.np.iendx == 0)
  }

  lemma FramesAct(np: Np, rs: seq<bool>, ifs: seq<Itef>)
    requires Shaped(np) && ifs == Ifs(np) && !Waiting(LpTop(np).state)
    ensures ActsOnAround(np, rs, ifs)
  {
    hide ParseCommand;
    var around := ifs[|ifs| - 1];
    assert around == IeTop(np);
    if |ifs| > 1 && (around.state == ItefThen || around.state == ItefElse) {
      FiCommand(np, rs);
    } else {
      FiRefused(np, rs);
    }
    if around.state == ItefThen {
      ElseCommand(np, rs);
    } else {
      ElseRefused(np, rs);
    }
  }

  /**
    Behind a `break` inside an if of the loop, and the rest of its branch, `fi` and `else` are
    refused, unless the loop itself stands in a branch of an if, and then act on that one.
  */
  lemma BreakInIf(file: File, ignore: bool, rest: Script, c: Config) returns (d: Config)
    requires Ready(file, c) && InBody(c.np) && c.pos < |file| && file[c.pos].words == [KwBreak]
    requires LpTop(c.np).iendx < c.np.iendx
    requires Holds(file, ignore, rest, c.pos + 1) && Proper(rest, false)
    requires c.np.iendx + IfDepth(rest) < |c.np.ie| && c.np.lpndx + LoopDepth(rest) < |c.np.lp|
    ensures Reach(file, ignore, c, d)
    ensures var k := LpTop(c.np).iendx;
            var o := BodyOutcome(rest, c.np.ie[k], Off(c.np), c.rs, false, ignore);
            && Ends(file, c, d, After([KwBreak], c.np.fail, o), c.pos + 1 + Len(rest),
                    c.np.ie[..k + 1], Pop(Loops(c.np)) + [Off(c.np)])
            && (o.end == Completed ==> ActsOnAround(d.np, d.rs, c.np.ie[..k + 1]))
  {
    hide ParseCommand, Reach, Holds, Proper, IfDepth, LoopDepth, Len, ActsOnAround, BodyOutcome;
    d := BreakSkips(file, ignore, rest, c);
    var k := LpTop(c.np).iendx;
    if BodyOutcome(rest, c.np.ie[k], Off(c.np), c.rs, false, ignore).end == Completed {
      FramesAct(d.np, d.rs, c.np.ie[..k + 1]);
    }
  }

  /** A loop that is left from inside an if, as scripts do. */
  function LoopWithExit(until: bool, test: Words, inverted: bool, cond: Words): File {
    [Cmd([LoopWord(until)] + test, true), Cmd([KwDo], true), Cmd(IfWords(inverted, cond), true),
     Cmd([KwThen], true), Cmd([KwBreak], true), Cmd([KwFi], true), Cmd([KwDone], true)]
  }

  lemma PassDo(file: File, ignore: bool, c: Config, ifs: seq<Itef>, loops: seq<Loop>, frame: Loop)
    requires Stands(file, c, c.pos, ifs, loops + [frame.(state := LoopWhile)], false)
          || Stands(file, c, c.pos, ifs, loops + [frame.(state := LoopUntil)], false)
    requires frame.state == LoopDo && ifs != [] && ifs[|ifs| - 1].state != ItefIf
    requires c.pos < |file| && file[c.pos].words == [KwDo]
    ensures var d := Next(file, ignore, c);
            Stands(file, d, c.pos + 1, ifs, loops + [frame], false) && SameRoom(c, d) && d.rs == c.rs && d.trace == c.trace
  {
    hide ParseCommand, Loaded, Next, NextWords, NextLine;
    NextIsHere(file, ignore, c);
    LoadedFrames(file, c);
    DoCommand(Loaded(file, c), c.rs);
    assert SetTop(Loops(c.np), frame) == loops + [frame];
    StepLeaves(file, ignore, c, [KwDo], ifs, loops + [frame], false);
    assert c.trace + [] == c.trace;
  }

  lemma PassThen(file: File, ignore: bool, c: Config, ifs: seq<Itef>, frame: Itef, loops: seq<Loop>)
    requires Stands(file, c, c.pos, ifs + [frame.(state := ItefIf)], loops, false)
    requires frame.state == ItefThen && loops != [] && !Waiting(loops[|loops| - 1].state)
    requires c.pos < |file| && file[c.pos].words == [KwThen]
    ensures var d := Next(file, ignore, c);
            Stands(file, d, c.pos + 1, ifs + [frame], loops, false) && SameRoom(c, d) && d.rs == c.rs && d.trace == c.trace
  {
    hide ParseCommand, Loaded, Next, NextWords, NextLine;
    NextIsHere(file, ignore, c);
    LoadedFrames(file, c);
    ThenCommand(Loaded(file, c), c.rs);
    assert SetTop(Ifs(c.np), frame) == ifs + [frame];
    StepLeaves(file, ignore, c, [KwThen], ifs + [frame], loops, false);
    assert c.trace + [] == c.trace;
  }

  /** A condition whose result selects the first branch. */
  lemma PassIf(file: File, ignore: bool, c: Config, inverted: bool, cond: Words)
    requires Ready(file, c) && Settled(c.np) && CmdEnabled(c.np) && c.np.iendx + 1 < |c.np.ie|
    requires c.pos < |file| && file[c.pos].words == IfWords(inverted, cond) && TestWords(cond)
    requires c.rs != [] && c.rs[0] == inverted
    ensures var d := Next(file, ignore, c);
            && Stands(file, d, c.pos + 1, Ifs(c.np) + [Itef(ItefIf, false, false, inverted)], Loops(c.np), false)
            && SameRoom(c, d) && d.rs == c.rs[1..] && d.trace == c.trace + [Event(cond, c.np.fail)]
  {
    hide ParseCommand, Loaded, Next, NextWords, NextLine, IfWords;
    NextIsHere(file, ignore, c);
    LoadedFrames(file, c);
    IfCommand(Loaded(file, c), inverted, cond, c.rs);
    StepLeaves(file, ignore, c, IfWords(inverted, cond),
               Ifs(c.np) + [Itef(ItefIf, false, false, inverted)], Loops(c.np), false);
  }

  const RESTING := Itef(ItefNormal, false, false, false)
  const IDLE := Loop(LoopNormal, false, 0, 0)

  /** In front of `break`, when the loop runs and the condition holds. */
  lemma ExitReached(until: bool, test: Words, inverted: bool, cond: Words, depth: nat, fd: int, ignore: bool)
    returns (d: Config)
    requires TestWords(test) && TestWords(cond) && depth > 1 && fd >= 0
    ensures var file := LoopWithExit(until, test, inverted, cond);
            && Reach(file, ignore, Init(depth, fd, [until, inverted]), d)
            && Stands(file, d, 4, [RESTING] + [Itef(ItefThen, false, false, inverted)],
                      [IDLE] + [Loop(LoopDo, true, 0, 0)], false)
            && |d.np.ie| == |d.np.lp| == depth && d.rs == [] && d.trace == [Event(test, false), Event(cond, false)]
  {
    hide Next, Reach, IfWords, NextLine;
    var file := LoopWithExit(until, test, inverted, cond);
    var c := Init(depth, fd, [until, inverted]);
    assert Ifs(c.np) == [RESTING] && Loops(c.np) == [IDLE];
    LoopOpens(file, ignore, c, until, test);
    var c1 := Next(file, ignore, c);
    PassDo(file, ignore, c1, [RESTING], [IDLE], Loop(LoopDo, true, 0, 0));
    var c2 := Next(file, ignore, c1);
    PassIf(file, ignore, c2, inverted, cond);
    var c3 := Next(file, ignore, c2);
    PassThen(file, ignore, c3, [RESTING], Itef(ItefThen, false, false, inverted), [IDLE] + [Loop(LoopDo, true, 0, 0)]);
    d := Next(file, ignore, c3);
    ReachSelf(file, ignore, d);
    ReachStep(file, ignore, c3, d);
    ReachStep(file, ignore, c2, d);
    ReachStep(file, ignore, c1, d);
    ReachStep(file, ignore, c, d);
  }

  /**
    Such a script does not leave the loop: its `fi` is an error, at which it stops under
    `set -e` and which is its `$?` under `set +e`.
  */
  lemma ExitIsRefused(until: bool, test: Words, inverted: bool, cond: Words, depth: nat, fd: int, ignore: bool)
    returns (d: Config)
    requires TestWords(test) && TestWords(cond) && depth > 1 && fd >= 0
    ensures Reach(LoopWithExit(until, test, inverted, cond), ignore, Init(depth, fd, [until, inverted]), d)
    ensures d.trace == [Event(test, false), Event(cond, false), Event([KwBreak], false)] && d.rs == []
    ensures d.status == (if ignore then Running else Stopped) && d.np.fail && d.np.iendx == 0
  {
    hide ParseCommand, Loaded, NextLine, Reach, Holds, Proper, IfDepth, LoopDepth, ActsOnAround;
    var file := LoopWithExit(until, test, inverted, cond);
    var c := ExitReached(until, test, inverted, cond, depth, fd, ignore);
    NothingHeld(file, ignore, 5);
    var e := BreakSkips(file, ignore, End, c);
    LoadedFrames(file, e);
    FiRefused(Loaded(file, e), e.rs);
    d := Next(file, ignore, e);
    assert e.trace + [] == e.trace;
    ReachSelf(file, ignore, d);
    ReachStep(file, ignore, e, d);
    ReachTrans(file, ignore, c, e, d);
    ReachTrans(file, ignore, Init(depth, fd, [until, inverted]), c, d);
  }

  lemma NothingHeld(file: File, ignore: bool, p: nat)
    requires p <= |file|
    ensures Holds(file, ignore, End, p) && Proper(End, false) && IfDepth(End) == 0 && LoopDepth(End) == 0
  {
  }
}
