/**
  The commands that the parser refuses, and what it is left in: a refused loop keyword closes
  all loops, a refused if keyword closes all ifs, and nothing is executed.
*/
module NshRefusals {
  import opened NshControl
  import opened NshTokens

  predicate LoopKeyword(word: Word) {
    word == KwWhile || word == KwUntil || word == KwDo || word == KwDone
  }

  /** A loop without a test, in a test, without a script to go back in, or too deep; `do` without
      a test before it; `done` without `do`; and anything else between a test and its `do`. */
  predicate LoopRefuses(np: Np, words: Words)
    requires Shaped(np)
  {
    if words == [] then false
    else if words[0] == KwWhile || words[0] == KwUntil then
      || |words| == 1 || words[1] == Text("")
      || IeTop(np).state == ItefIf || LpTop(np).state == LoopWhile || LpTop(np).state == LoopUntil
      || np.fd < 0 || np.foffs < 0 || np.lpndx + 1 >= |np.lp|
    else if words[0] == KwDo then LpTop(np).state != LoopWhile && LpTop(np).state != LoopUntil
    else if words[0] == KwDone then |words| > 1 || LpTop(np).state != LoopDo || np.lpndx == 0
    else LpTop(np).state == LoopWhile || LpTop(np).state == LoopUntil
  }

  /** A loop keyword is refused in exactly these cases. */
  lemma LoopRefusedIff(np: Np, words: Words)
    requires Shaped(np)
    ensures FeedLoop(np, words).ok <==> !LoopRefuses(np, words)
  {
  }

  /** All loops are closed, nothing is executed and no result is used. The command fails, or, as
      the condition of an if, is a condition that failed. */
  lemma LoopRefused(np: Np, words: Words, rs: seq<bool>)
    requires Shaped(np) && LoopRefuses(np, words)
    ensures var s := ParseCommand(np, words, rs);
            && s.events == [] && s.rs == rs && !s.starved && !s.np.jump && s.np.fpos == np.fpos
            && Loops(s.np) == [Loop(LoopNormal, true, np.lp[0].iendx, 0)]
            && if IeTop(np).state == ItefIf then
                 s.ok && !s.np.fail && Ifs(s.np) == SetTop(Ifs(np), IeTop(np).(ifcond := !IeTop(np).inverted))
               else !s.ok && s.np.fail && Ifs(s.np) == Ifs(np)
  {
    hide FeedItef, Execute, CmdEnabled;
    assert FeedLoop(np, words) == LoopError(np);
    var e := LoopError(np).np;
    assert Loops(e) == [Loop(LoopNormal, true, np.lp[0].iendx, 0)] && Ifs(e) == Ifs(np);
    var r := SaveResult(e, true).0;
    assert Loops(r) == Loops(e);
  }

  /** An if without a condition, in a condition, or too deep; `then` without a condition before it;
      `else` without `then`; `fi` without a branch; and anything else between a condition and its
      `then`. */
  predicate ItefRefuses(np: Np, words: Words)
    requires Shaped(np)
  {
    if words == [] then false
    else if words[0] == KwIf then
      var cond := if |words| > 1 && words[1] == KwNot then words[2..] else words[1..];
      cond == [] || cond[0] == Text("") || IeTop(np).state == ItefIf || np.iendx + 1 >= |np.ie|
    else if words[0] == KwThen then IeTop(np).state != ItefIf
    else if words[0] == KwElse then IeTop(np).state != ItefThen
    else if words[0] == KwFi then
      |words| > 1 || (IeTop(np).state != ItefThen && IeTop(np).state != ItefElse) || np.iendx == 0
    else IeTop(np).state == ItefIf
  }

  /** An if keyword is refused in exactly these cases. */
  lemma ItefRefusedIff(np: Np, words: Words)
    requires Shaped(np)
    ensures FeedItef(np, words).ok <==> !ItefRefuses(np, words)
  {
    assert words != [] ==> (words[1..] == [] <==> |words| == 1);
    assert |words| > 1 ==> words[1..][0] == words[1] && words[1..][1..] == words[2..];
  }

  /** All ifs are closed, nothing is executed and no result is used, and the command fails. */
  lemma ItefRefused(np: Np, words: Words, rs: seq<bool>)
    requires Shaped(np) && words != [] && !LoopKeyword(words[0]) && !LoopRefuses(np, words) && ItefRefuses(np, words)
    ensures var s := ParseCommand(np, words, rs);
            && s.events == [] && s.rs == rs && !s.starved && !s.ok
            && Leaves(np, s.np, [Itef(ItefNormal, false, false, false)], Loops(np), true)
  {
    hide FeedItef, FeedLoop, Execute, CmdEnabled;
    PassesLoop(np, words);
    ItefRefusedIff(np, words);
    ItefRefusedTo(np, words);
    var e := ItefError(np).np;
    assert Ifs(e) == [Itef(ItefNormal, false, false, false)] && Loops(e) == Loops(np);
  }

  lemma PassesLoop(np: Np, words: Words)
    requires Shaped(np) && words != [] && !LoopKeyword(words[0]) && !LoopRefuses(np, words)
    ensures FeedLoop(np, words) == Fed(np, true, words) && LpTop(np).state != LoopWhile && LpTop(np).state != LoopUntil
  {
  }

  lemma ItefRefusedTo(np: Np, words: Words)
    requires Shaped(np) && !FeedItef(np, words).ok
    ensures FeedItef(np, words) == ItefError(np)
  {
  }
}
