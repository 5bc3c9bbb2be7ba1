/**
  What each word of a well-formed script does to the open frames.  The frames above the
  indices are leftovers, so states are compared by the open part of the two stacks.
*/
module NshTokens {
  import opened NshControl

  function Ifs(np: Np): seq<Itef>
    requires Shaped(np)
  {
    np.ie[..np.iendx + 1]
  }

  function Loops(np: Np): seq<Loop>
    requires Shaped(np)
  {
    np.lp[..np.lpndx + 1]
  }

  function SetTop<T>(s: seq<T>, x: T): seq<T>
    requires s != []
  {
    s[|s| - 1 := x]
  }

  function Pop<T>(s: seq<T>): seq<T>
    requires s != []
  {
    s[..|s| - 1]
  }

  /** The state `r` after a command that neither seeks nor jumps: its open frames and `$?`. */
  predicate Leaves(np: Np, r: Np, ifs: seq<Itef>, loops: seq<Loop>, fail: bool) {
    && Shaped(np) && Shaped(r)
    && Kept(np, r) && r.jump == np.jump && r.fpos == np.fpos
    && Ifs(r) == ifs && Loops(r) == loops && r.fail == fail
  }

  /** The states in which a statement may start. */
  predicate Settled(np: Np) {
    Shaped(np) && IeTop(np).state != ItefIf && !Waiting(LpTop(np).state)
  }

  predicate PlainWords(words: Words) {
    words != [] ==> words[0].Text? || words[0] == KwNot
  }

  predicate TestWords(words: Words) {
    words != [] && words[0].Text? && words[0].text != ""
  }

  lemma PlainCommand(np: Np, words: Words, rs: seq<bool>)
    requires Settled(np) && PlainWords(words)
    ensures var s := ParseCommand(np, words, rs);
            if words == [] || !CmdEnabled(np) then s == Step(np, true, rs, [], false)
            else if rs == [] then s == Step(np, true, rs, [], true)
            else s == Step(np.(fail := rs[0]), !rs[0], rs[1..], [Event(words, np.fail)], false)
  {
    assert FeedLoop(np, words) == Fed(np, true, words);
    assert FeedItef(np, words) == Fed(np, true, words);
    hide FeedLoop, FeedItef;
  }

  function IfWords(inverted: bool, cond: Words): Words {
    [KwIf] + (if inverted then [KwNot] else []) + cond
  }

  lemma IfCommand(np: Np, inverted: bool, cond: Words, rs: seq<bool>)
    requires Settled(np) && TestWords(cond)
    requires np.iendx + 1 < |np.ie|
    ensures var s := ParseCommand(np, IfWords(inverted, cond), rs);
            if !CmdEnabled(np) then
              && s.ok && s.rs == rs && s.events == [] && !s.starved
              && Leaves(np, s.np, Ifs(np) + [Itef(ItefIf, false, true, inverted)], Loops(np), np.fail)
            else if rs == [] then s.starved && s.rs == rs && s.events == []
            else
              && s.ok && s.rs == rs[1..] && s.events == [Event(cond, np.fail)] && !s.starved
              && Leaves(np, s.np, Ifs(np) + [Itef(ItefIf, inverted != rs[0], false, inverted)], Loops(np), false)
  {
    var words := IfWords(inverted, cond);
    assert words[0] == KwIf;
    assert inverted ==> words[1] == KwNot && words[1..][1..] == cond;
    assert !inverted ==> words[1..] == cond;
    assert FeedLoop(np, words) == Fed(np, true, words);
    assert FeedItef(np, words) == FeedIf(np, words[1..]);
    var frame := Itef(ItefIf, false, !CmdEnabled(np), inverted);
    var r := np.(iendx := np.iendx + 1, ie := np.ie[np.iendx + 1 := frame]);
    assert FeedIf(np, words[1..]) == Fed(r, true, cond);
    hide FeedLoop, FeedItef, FeedIf;
    assert CmdEnabled(r) == CmdEnabled(np);
    assert Ifs(r) == Ifs(np) + [frame];
  }

  lemma ThenCommand(np: Np, rs: seq<bool>)
    requires Shaped(np) && IeTop(np).state == ItefIf && !Waiting(LpTop(np).state)
    ensures var s := ParseCommand(np, [KwThen], rs);
            && s.ok && s.rs == rs && s.events == [] && !s.starved
            && Leaves(np, s.np, SetTop(Ifs(np), IeTop(np).(state := ItefThen)), Loops(np), np.fail)
  {
    hide Execute;
  }

  lemma ElseCommand(np: Np, rs: seq<bool>)
    requires Shaped(np) && IeTop(np).state == ItefThen && !Waiting(LpTop(np).state)
    ensures var s := ParseCommand(np, [KwElse], rs);
            && s.ok && s.rs == rs && s.events == [] && !s.starved
            && Leaves(np, s.np, SetTop(Ifs(np), IeTop(np).(state := ItefElse)), Loops(np), np.fail)
  {
    hide Execute;
  }

  lemma FiCommand(np: Np, rs: seq<bool>)
    requires Shaped(np) && !Waiting(LpTop(np).state) && np.iendx > 0
    requires IeTop(np).state == ItefThen || IeTop(np).state == ItefElse
    ensures var s := ParseCommand(np, [KwFi], rs);
            && s.ok && s.rs == rs && s.events == [] && !s.starved
            && Leaves(np, s.np, Pop(Ifs(np)), Loops(np), np.fail)
  {
    hide Execute;
  }

  function LoopWord(until: bool): Word {
    if until then KwUntil else KwWhile
  }

  function LoopWait(until: bool): LoopState {
    if until then LoopUntil else LoopWhile
  }

  /** The test runs whenever the if stack allows it, whatever the loop stack says. */
  lemma WhileCommand(np: Np, until: bool, test: Words, rs: seq<bool>)
    requires Settled(np) && TestWords(test)
    requires np.lpndx + 1 < |np.lp| && np.fd >= 0 && np.foffs >= 0 && !np.jump
    ensures var s := ParseCommand(np, [LoopWord(until)] + test, rs);
            if !ItefEnabled(np) then
              && s.ok && s.rs == rs && s.events == [] && !s.starved
              && Leaves(np, s.np, Ifs(np),
                        Loops(np) + [Loop(LoopWait(until), false, np.iendx, np.foffs + np.loffs)], np.fail)
            else if rs == [] then s.starved && s.rs == rs && s.events == []
            else
              && s.ok && s.rs == rs[1..] && s.events == [Event(test, np.fail)] && !s.starved
              && Leaves(np, s.np, Ifs(np),
                        Loops(np) + [Loop(LoopWait(until), rs[0] == until, np.iendx, np.foffs + np.loffs)], false)
  {
    var words := [LoopWord(until)] + test;
    assert words[1..] == test;
    var frame := Loop(LoopWait(until), CmdEnabled(np), np.iendx, np.foffs + np.loffs);
    var r := np.(lpndx := np.lpndx + 1, lp := np.lp[np.lpndx + 1 := frame]);
    assert FeedLoop(np, words) == Fed(r, true, test);
    assert FeedItef(r, test) == Fed(r, true, test);
    hide FeedLoop, FeedItef;
    assert CmdEnabled(r) == ItefEnabled(np);
  }

  lemma DoCommand(np: Np, rs: seq<bool>)
    requires Shaped(np) && IeTop(np).state != ItefIf && Waiting(LpTop(np).state)
    ensures var s := ParseCommand(np, [KwDo], rs);
            && s.ok && s.rs == rs && s.events == [] && !s.starved
            && Leaves(np, s.np, Ifs(np), SetTop(Loops(np), LpTop(np).(state := LoopDo)), np.fail)
  {
  }

  /** `done` goes back to the saved offset when the loop is enabled. */
  lemma DoneCommand(np: Np, rs: seq<bool>)
    requires Shaped(np) && IeTop(np).state != ItefIf && LpTop(np).state == LoopDo && np.lpndx > 0
    ensures var s := ParseCommand(np, [KwDone], rs);
            && s.ok && s.rs == rs && s.events == [] && !s.starved
            && Shaped(s.np) && Kept(np, s.np) && s.np.fail == np.fail
            && Ifs(s.np) == Ifs(np) && Loops(s.np) == Pop(Loops(np))
            && if LpTop(np).enable then s.np.jump && s.np.fpos == LpTop(np).topoffs
               else s.np.jump == np.jump && s.np.fpos == np.fpos
  {
  }

  lemma PlainFeeds(np: Np, words: Words)
    requires Settled(np) && PlainWords(words)
    ensures FeedLoop(np, words) == Fed(np, true, words) && FeedItef(np, words) == Fed(np, true, words)
  {
  }

  /** A word that opens a block leaves what follows it. */
  lemma JoinedFeeds(np: Np, word: Word, words: Words, rs: seq<bool>)
    requires Shaped(np) && (word == KwThen || word == KwElse || word == KwDo)
    requires ParseCommand(np, [word], rs).ok && Settled(ParseCommand(np, [word], rs).np)
    requires word == KwDo ==> IeTop(np).state != ItefIf
    ensures var r := ParseCommand(np, [word], rs).np;
            if word == KwDo then FeedLoop(np, [word] + words) == Fed(r, true, words)
            else FeedLoop(np, [word] + words) == Fed(np, true, [word] + words)
                 && FeedItef(np, [word] + words) == Fed(r, true, words)
  {
    hide Execute, CmdEnabled;
    assert ([word] + words)[1..] == words;
    assert [word][1..] == [];
  }

  /** A command after `then`, `else` or `do` runs as it would on a line of its own. */
  lemma JoinedCommand(np: Np, word: Word, words: Words, rs: seq<bool>)
    requires Shaped(np) && PlainWords(words) && words != []
    requires word == KwThen || word == KwElse || word == KwDo
    requires ParseCommand(np, [word], rs).ok && Settled(ParseCommand(np, [word], rs).np)
    requires word == KwDo ==> IeTop(np).state != ItefIf
    ensures ParseCommand(np, [word] + words, rs) == ParseCommand(ParseCommand(np, [word], rs).np, words, rs)
  {
    hide Execute, FeedLoop, FeedItef, CmdEnabled, Settled, SaveResult;
    JoinedFeeds(np, word, words, rs);
    PlainFeeds(ParseCommand(np, [word], rs).np, words);
  }
}
