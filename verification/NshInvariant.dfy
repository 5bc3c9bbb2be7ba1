/**
  What every command keeps, whatever its words are: scripts with `fi` before `if`, loops
  closed inside an `if`, errors and `break` included.
*/
module NshInvariant {
  import opened NshControl
  import opened Iteration
  import opened NshScript

  /** Slot 0 of each stack is the resting state, all loops below the innermost are running
      their bodies, and the innermost is a loop that was opened. */
  ghost predicate Inv(np: Np) {
    && Shaped(np)
    && np.ie[0].state == ItefNormal && !np.ie[0].disabled
    && np.lp[0].state == LoopNormal
    && (forall i :: 0 < i < np.lpndx ==> np.lp[i].state == LoopDo)
    && (np.lpndx > 0 ==> LpTop(np).state != LoopNormal)
    && Opened(np, np.iendx)
    && (forall j :: 0 < j <= np.lpndx ==> Opened(np, np.lp[j].iendx))
  }

  /** The slots of the if stack up to `k` all come from an `if`. */
  ghost predicate Opened(np: Np, k: nat) {
    forall i :: 0 < i <= k && i < |np.ie| ==> np.ie[i].state != ItefNormal
  }

  lemma StartInv(depth: nat, fd: int)
    requires depth >= 1
    ensures Inv(Start(depth, fd))
  {
  }

  /** Changes to the if stack that keep its slots opened. */
  lemma IfStackChange(np: Np, r: Np)
    requires Inv(np) && Shaped(r)
    requires r.lp == np.lp && r.lpndx == np.lpndx && |r.ie| == |np.ie|
    requires r.ie[0].state == ItefNormal && !r.ie[0].disabled
    requires forall i :: 0 < i < |r.ie| && r.ie[i].state == ItefNormal ==> np.ie[i].state == ItefNormal
    requires r.iendx <= np.iendx || (r.iendx == np.iendx + 1 && IeTop(r).state != ItefNormal)
    ensures Inv(r)
  {
  }

  /** Changes to the loop stack that push, mark or pop its top. */
  lemma LoopStackChange(np: Np, r: Np)
    requires Inv(np) && Shaped(r)
    requires r.ie == np.ie && r.iendx == np.iendx && |r.lp| == |np.lp|
    requires r.lpndx <= np.lpndx + 1
    requires r.lp[0].state == LoopNormal
    requires forall i :: 0 < i < r.lpndx ==> r.lp[i] == np.lp[i] && np.lp[i].state == LoopDo
    requires r.lpndx > 0 ==> LpTop(r).state != LoopNormal
    requires r.lpndx > 0 ==> LpTop(r).iendx == if r.lpndx <= np.lpndx then np.lp[r.lpndx].iendx else np.iendx
    ensures Inv(r)
  {
  }

  lemma FeedWhileKeepsInv(np: Np, state: LoopState, rest: Words)
    requires Inv(np) && Waiting(state)
    ensures Inv(FeedWhile(np, state, rest).np)
  {
    LoopStackChange(np, FeedWhile(np, state, rest).np);
  }

  lemma FeedDoneKeepsInv(np: Np, rest: Words)
    requires Inv(np)
    ensures Inv(FeedDone(np, rest).np)
  {
    LoopStackChange(np, FeedDone(np, rest).np);
  }

  lemma FeedLoopKeepsInv(np: Np, words: Words)
    requires Inv(np)
    ensures Inv(FeedLoop(np, words).np)
  {
    hide FeedWhile, FeedDone;
    if words != [] && words[0] == KwWhile {
      FeedWhileKeepsInv(np, LoopWhile, words[1..]);
    } else if words != [] && words[0] == KwUntil {
      FeedWhileKeepsInv(np, LoopUntil, words[1..]);
    } else if words != [] && words[0] == KwDone {
      FeedDoneKeepsInv(np, words[1..]);
    } else {
      LoopStackChange(np, FeedLoop(np, words).np);
    }
  }

  lemma FeedIfKeepsInv(np: Np, rest: Words)
    requires Inv(np)
    ensures Inv(FeedIf(np, rest).np)
  {
    IfStackChange(np, FeedIf(np, rest).np);
  }

  lemma FeedFiKeepsInv(np: Np, rest: Words)
    requires Inv(np)
    ensures Inv(FeedFi(np, rest).np)
  {
    IfStackChange(np, FeedFi(np, rest).np);
  }

  lemma FeedItefKeepsInv(np: Np, words: Words)
    requires Inv(np)
    ensures Inv(FeedItef(np, words).np)
  {
    hide FeedIf, FeedFi;
    if words != [] && words[0] == KwIf {
      FeedIfKeepsInv(np, words[1..]);
    } else if words != [] && words[0] == KwFi {
      FeedFiKeepsInv(np, words[1..]);
    } else {
      IfStackChange(np, FeedItef(np, words).np);
    }
  }

  lemma SaveResultKeepsInv(np: Np, failed: bool)
    requires Inv(np)
    ensures Inv(SaveResult(np, failed).0)
  {
    var r := SaveResult(np, failed).0;
    if Waiting(LpTop(np).state) { LoopStackChange(np, r); } else { IfStackChange(np, r); }
  }

  lemma BreakKeepsInv(np: Np)
    requires Inv(np)
    ensures Inv(Break(np))
  {
  }

  lemma ParseCommandKeepsInv(np: Np, words: Words, rs: seq<bool>)
    requires Inv(np)
    ensures Inv(ParseCommand(np, words, rs).np)
  {
    hide FeedLoop, FeedItef, SaveResult, Break, CmdEnabled, Opened;
    var fl := FeedLoop(np, words);
    FeedLoopKeepsInv(np, words);
    SaveResultKeepsInv(fl.np, true);
    if fl.ok {
      var fi := FeedItef(fl.np, fl.words);
      FeedItefKeepsInv(fl.np, fl.words);
      SaveResultKeepsInv(fi.np, true);
      BreakKeepsInv(fi.np);
      SaveResultKeepsInv(Break(fi.np), false);
      if rs != [] { SaveResultKeepsInv(fi.np, rs[0]); }
    }
  }

  /** Every state reached while a script runs, however it is written. */
  lemma {:induction false} ReachableInv(file: File, ignore: bool, c: Config, n: nat)
    requires Inv(c.np)
    ensures var np := Run(file, ignore, c, n).np;
            Inv(np) && |np.ie| == |c.np.ie| && |np.lp| == |c.np.lp|
    decreases n
  {
    hide Next;
    if n > 0 {
      NextKeepsInv(file, ignore, c);
      ReachableInv(file, ignore, Next(file, ignore, c), n - 1);
    }
  }

  lemma NextKeepsInv(file: File, ignore: bool, c: Config)
    requires Inv(c.np)
    ensures Inv(Next(file, ignore, c).np)
  {
    if c.status == Running && 0 <= c.pos < |file| {
      assert Inv(Loaded(file, c));
      ParseCommandKeepsInv(Loaded(file, c), file[c.pos].words, c.rs);
    }
  }

  /** The "Shouldn't happen" tests of `done` and `fi` never fire: a frame in a state that
      `done` or `fi` accepts is not slot 0. */
  lemma InternalErrorsUnreachable(file: File, ignore: bool, depth: nat, fd: int, rs: seq<bool>, n: nat)
    requires depth >= 1
    ensures var np := Run(file, ignore, Init(depth, fd, rs), n).np;
            && Shaped(np) && np.iendx < depth && np.lpndx < depth
            && (LpTop(np).state == LoopDo ==> np.lpndx >= 1)
            && (IeTop(np).state == ItefThen || IeTop(np).state == ItefElse ==> np.iendx >= 1)
  {
    var c := Init(depth, fd, rs);
    StartInv(depth, fd);
    ReachableInv(file, ignore, c, n);
  }

  // ----- The top frame speaks for the whole if stack -----

  ghost predicate AllActive(np: Np, k: int)
  {
    forall i :: 0 <= i <= k && i < |np.ie| ==> BranchActive(np.ie[i])
  }

  /** No loop is open, and a frame is disabled exactly when a branch below it is inactive. */
  ghost predicate Flat(np: Np) {
    && Inv(np)
    && np.lpndx == 0
    && forall i :: 0 < i <= np.iendx ==> np.ie[i].disabled == !AllActive(np, i - 1)
  }

  lemma TopFrameSpeaksForAll(np: Np)
    requires Flat(np)
    ensures CmdEnabled(np) <==> AllActive(np, np.iendx)
  {
    if np.iendx > 0 {
      assert AllActive(np, np.iendx) <==> AllActive(np, np.iendx - 1) && BranchActive(np.ie[np.iendx]);
    }
  }

  lemma FlatSame(np: Np, r: Np)
    requires Flat(np) && Inv(r) && r.lpndx == 0
    requires r.iendx <= np.iendx && |r.ie| == |np.ie|
    requires forall i :: 0 <= i < r.iendx ==> r.ie[i] == np.ie[i]
    requires r.ie[r.iendx].disabled == np.ie[r.iendx].disabled
    ensures Flat(r)
  {
    forall i | 0 < i <= r.iendx
      ensures r.ie[i].disabled == !AllActive(r, i - 1)
    {
      assert AllActive(r, i - 1) == AllActive(np, i - 1);
    }
  }

  lemma PushKeepsFlat(np: Np, rest: Words)
    requires Flat(np) && FeedIf(np, rest).ok
    ensures Flat(FeedIf(np, rest).np)
  {
    var r := FeedIf(np, rest).np;
    FeedItefKeepsInv(np, [KwIf] + rest);
    TopFrameSpeaksForAll(np);
    forall i | 0 < i <= r.iendx
      ensures r.ie[i].disabled == !AllActive(r, i - 1)
    {
      assert forall k :: 0 <= k < i ==> r.ie[k] == np.ie[k];
      assert AllActive(r, i - 1) == AllActive(np, i - 1);
    }
  }

  lemma SaveResultKeepsFlat(np: Np, failed: bool)
    requires Flat(np)
    ensures Flat(SaveResult(np, failed).0)
  {
    SaveResultKeepsInv(np, failed);
    FlatSame(np, SaveResult(np, failed).0);
  }

  lemma FeedItefKeepsFlat(np: Np, words: Words)
    requires Flat(np)
    ensures Flat(FeedItef(np, words).np)
  {
    FeedItefKeepsInv(np, words);
    var r := FeedItef(np, words);
    if words != [] && words[0] == KwIf && r.ok {
      PushKeepsFlat(np, words[1..]);
    } else {
      FlatSame(np, r.np);
    }
  }

  lemma FeedLoopKeepsFlat(np: Np, words: Words)
    requires Flat(np)
    requires words == [] || (words[0] != KwWhile && words[0] != KwUntil)
    ensures Flat(FeedLoop(np, words).np)
  {
    FeedLoopKeepsInv(np, words);
    FlatSame(np, FeedLoop(np, words).np);
  }

  /** For every command that opens no loop, well placed or not: the test of the top frame
      alone keeps deciding like the conjunction over all open if frames. */
  lemma ParseCommandKeepsFlat(np: Np, words: Words, rs: seq<bool>)
    requires Flat(np)
    requires words == [] || (words[0] != KwWhile && words[0] != KwUntil)
    ensures Flat(ParseCommand(np, words, rs).np)
  {
    hide FeedLoop, FeedItef, SaveResult, CmdEnabled, Opened;
    var fl := FeedLoop(np, words);
    FeedLoopKeepsFlat(np, words);
    SaveResultKeepsFlat(fl.np, true);
    if fl.ok {
      var fi := FeedItef(fl.np, fl.words);
      FeedItefKeepsFlat(fl.np, fl.words);
      SaveResultKeepsFlat(fi.np, true);
      SaveResultKeepsFlat(fi.np, false);
    }
  }

  /** In a script without loops a command is executed exactly when the selected branch of
      every open if is active. */
  lemma {:induction false} ReachableFlat(file: File, ignore: bool, c: Config, n: nat)
    requires Flat(c.np)
    requires forall cmd :: cmd in file && cmd.words != [] ==> cmd.words[0] != KwWhile && cmd.words[0] != KwUntil
    ensures var np := Run(file, ignore, c, n).np;
            Flat(np) && (CmdEnabled(np) <==> AllActive(np, np.iendx))
    decreases n
  {
    hide Next, ParseCommand;
    if n == 0 {
      TopFrameSpeaksForAll(c.np);
    } else {
      NextKeepsFlat(file, ignore, c);
      ReachableFlat(file, ignore, Next(file, ignore, c), n - 1);
    }
  }

  lemma NextKeepsFlat(file: File, ignore: bool, c: Config)
    requires Flat(c.np)
    requires forall cmd :: cmd in file && cmd.words != [] ==> cmd.words[0] != KwWhile && cmd.words[0] != KwUntil
    ensures Flat(Next(file, ignore, c).np)
  {
    hide ParseCommand;
    if c.status == Running && 0 <= c.pos < |file| {
      assert file[c.pos] in file;
      var np := Loaded(file, c);
      FlatSame(c.np, np);
      ParseCommandKeepsFlat(np, file[c.pos].words, c.rs);
    }
  }
}
