/**
  The token machine, driven by a script file that holds a structured script, executes
  exactly what `NshSemantics.Actual` says, for every finite list of command results.
*/
module NshRefinement {
  import opened NshControl
  import opened NshScript
  import opened NshSemantics
  import opened NshTokens
  import opened Iteration

  // ----- Scripts on file -----

  /** The command that stands on the command line of the keyword before the script. */
  function Joined(s: Script): Words {
    if s.Plain? && s.joined then s.words else []
  }

  /** The number of commands a script takes in a file. */
  function Len(s: Script): nat {
    match s
    case End => 0
    case Plain(joined, _, _, next) => (if joined then 0 else 1) + Len(next)
    case If(_, _, thn, hasElse, els, next) => 3 + Len(thn) + (if hasElse then 1 + Len(els) else 0) + Len(next)
    case While(_, _, body, next) => 3 + Len(body) + Len(next)
  }

  /** A command that is the last of its line. */
  predicate EndsLine(file: File, p: nat) {
    p < |file| && (file[p].eol || p + 1 == |file|)
  }

  /** The number of commands that the first `n` statements of a script take in a file. */
  function Gap(s: Script, n: nat): int {
    if n == 0 || s.End? then 0 else Len(s) - Len(s.next) + Gap(s.next, n - 1)
  }

  /** The file holds the script from offset `p` on.  Any command may end its line or be
      followed by a semicolon.  Under `set +e`, when a plain command fails, the rest of its line
      is not executed; its line ends behind the statements that the script says it does. */
  predicate Holds(file: File, ignore: bool, s: Script, p: nat) {
    match s
    case End => p <= |file|
    case Plain(joined, words, rest, next) =>
      var q := if joined then p else p + 1;
      && 0 < q <= |file| && (joined || file[p].words == words)
      && (ignore && words != [] ==> NextLine(file, q - 1) == q + Gap(next, rest))
      && Holds(file, ignore, next, q)
    case If(inverted, cond, thn, hasElse, els, next) =>
      var q := p + 2 + Len(thn);
      var r := if hasElse then q + 1 + Len(els) else q;
      && r < |file|
      && file[p].words == IfWords(inverted, cond)
      && file[p + 1].words == [KwThen] + Joined(thn) && Holds(file, ignore, thn, p + 2)
      && (if hasElse then file[q].words == [KwElse] + Joined(els) && Holds(file, ignore, els, q + 1) else true)
      && file[r].words == [KwFi]
      && Holds(file, ignore, next, r + 1)
    case While(until, test, body, next) =>
      var q := p + 2 + Len(body);
      && q < |file|
      && file[p].words == [LoopWord(until)] + test
      && file[p + 1].words == [KwDo] + Joined(body) && Holds(file, ignore, body, p + 2)
      && file[q].words == [KwDone]
      && Holds(file, ignore, next, q + 1)
  }

  /** Plain commands are no keywords, tests are not empty, and only the first command of a
      body is joined to a keyword. */
  predicate Proper(s: Script, first: bool) {
    match s
    case End => true
    case Plain(joined, words, _, next) =>
      PlainWords(words) && (joined ==> first && words != []) && Proper(next, false)
    case If(_, cond, thn, hasElse, els, next) =>
      TestWords(cond) && (hasElse || els == End) && Proper(thn, true) && Proper(els, true) && Proper(next, false)
    case While(_, test, body, next) =>
      TestWords(test) && Proper(body, true) && Proper(next, false)
  }

  function Max(a: nat, b: nat): nat { if a < b then b else a }

  function IfDepth(s: Script): nat {
    match s
    case End => 0
    case Plain(_, _, _, next) => IfDepth(next)
    case If(_, _, thn, _, els, next) => Max(1 + Max(IfDepth(thn), IfDepth(els)), IfDepth(next))
    case While(_, _, body, next) => Max(IfDepth(body), IfDepth(next))
  }

  function LoopDepth(s: Script): nat {
    match s
    case End => 0
    case Plain(_, _, _, next) => LoopDepth(next)
    case If(_, _, thn, _, els, next) => Max(Max(LoopDepth(thn), LoopDepth(els)), LoopDepth(next))
    case While(_, _, body, next) => Max(1 + LoopDepth(body), LoopDepth(next))
  }

  // ----- Runs -----

  ghost predicate Reach(file: File, ignore: bool, c: Config, d: Config) {
    exists n: nat :: Run(file, ignore, c, n) == d
  }

  lemma ReachSelf(file: File, ignore: bool, c: Config)
    ensures Reach(file, ignore, c, c)
  {
    assert Run(file, ignore, c, 0) == c;
  }

  lemma ReachTrans(file: File, ignore: bool, c: Config, d: Config, e: Config)
    requires Reach(file, ignore, c, d) && Reach(file, ignore, d, e)
    ensures Reach(file, ignore, c, e)
  {
    hide Next;
    var m: nat :| Run(file, ignore, c, m) == d;
    var n: nat :| Run(file, ignore, d, n) == e;
    IterateAdds(Machine(file, ignore), c, m, n);
    assert Run(file, ignore, c, m + n) == e;
  }

  lemma ReachStep(file: File, ignore: bool, c: Config, d: Config)
    requires Reach(file, ignore, Next(file, ignore, c), d)
    ensures Reach(file, ignore, c, d)
  {
    hide Next;
    var n: nat :| Run(file, ignore, Next(file, ignore, c), n) == d;
    assert Run(file, ignore, c, n + 1) == d;
  }

  /** A running script between two commands. */
  predicate Ready(file: File, c: Config) {
    && c.status == Running && Shaped(c.np) && c.np.fd >= 0 && 0 <= c.pos <= |file|
    && (!c.bol ==> c.pos < |file| && c.np.fpos == NextLine(file, c.pos) && !c.np.jump && c.np.foffs >= 0)
  }

  /** The configuration after a command that succeeds and does not jump. */
  lemma Advance(file: File, ignore: bool, c: Config, words: Words)
    requires Ready(file, c) && c.pos < |file|
    requires var np := Loaded(file, c); var s := ParseCommand(np, words, c.rs);
             !s.starved && s.ok && !s.np.jump && s.np.fpos == np.fpos
    ensures var s := ParseCommand(Loaded(file, c), words, c.rs);
            var d := NextWords(file, ignore, c, words);
            && Ready(file, d) && d.pos == c.pos + 1
            && d.np == s.np && d.rs == s.rs && d.trace == c.trace + s.events
  {
    hide ParseCommand;
    var np := Loaded(file, c);
    assert np.fpos == NextLine(file, c.pos);
    if file[c.pos].eol || c.pos + 1 == |file| {
      assert NextLine(file, c.pos) == c.pos + 1;
    } else {
      assert NextLine(file, c.pos) == NextLine(file, c.pos + 1);
    }
  }

  /** The same frames are open in both, with the same room above them. */
  predicate SameFrames(np: Np, r: Np) {
    && Shaped(np) && Shaped(r)
    && |r.ie| == |np.ie| && |r.lp| == |np.lp|
    && Ifs(r) == Ifs(np) && Loops(r) == Loops(np)
  }

  /** From `c` the run arrives at `d` as outcome `o` says; if it completes, at offset `q`
      with the same frames open. */
  predicate Arrives(file: File, c: Config, d: Config, o: Outcome, q: int) {
    && d.trace == c.trace + o.trace && d.rs == o.rs
    && match o.end
       case Completed => Ready(file, d) && d.pos == q && d.np.fail == o.fail && SameFrames(c.np, d.np)
       case CutOff => d.status == Starved
       case GaveUp => d.status == Stopped
  }

  // ----- Single commands -----

  /** The open frames and `$?` of a configuration that is ready at `pos`. */
  predicate Stands(file: File, d: Config, pos: int, ifs: seq<Itef>, loops: seq<Loop>, fail: bool) {
    && Ready(file, d) && d.pos == pos && d.np.fail == fail
    && Ifs(d.np) == ifs && Loops(d.np) == loops
    && d.np.iendx == |ifs| - 1 && d.np.lpndx == |loops| - 1
    && IeTop(d.np) == ifs[|ifs| - 1] && LpTop(d.np) == loops[|loops| - 1]
  }

  predicate SameRoom(c: Config, d: Config) {
    |d.np.ie| == |c.np.ie| && |d.np.lp| == |c.np.lp|
  }

  lemma StandsHere(file: File, c: Config)
    requires Ready(file, c)
    ensures Stands(file, c, c.pos, Ifs(c.np), Loops(c.np), c.np.fail)
  {
  }

  lemma ArrivedStands(file: File, c: Config, d: Config, o: Outcome, q: int)
    requires Ready(file, c) && Arrives(file, c, d, o, q) && o.end == Completed
    ensures Stands(file, d, q, Ifs(c.np), Loops(c.np), o.fail) && SameRoom(c, d)
  {
    StandsHere(file, d);
  }

  /** What loading a line or a command leaves alone. */
  lemma LoadedFrames(file: File, c: Config)
    requires Ready(file, c) && c.pos < |file|
    ensures var np := Loaded(file, c);
            && SameFrames(c.np, np) && np.fail == c.np.fail && np.fd >= 0 && np.foffs >= 0 && !np.jump
            && np.iendx == c.np.iendx && np.lpndx == c.np.lpndx
            && IeTop(np) == IeTop(c.np) && LpTop(np) == LpTop(c.np)
            && np.foffs + np.loffs == c.pos
  {
  }

  lemma StepLeaves(file: File, ignore: bool, c: Config, words: Words, ifs: seq<Itef>, loops: seq<Loop>, fail: bool)
    requires Ready(file, c) && c.pos < |file|
    requires var np := Loaded(file, c); var s := ParseCommand(np, words, c.rs);
             !s.starved && s.ok && Leaves(np, s.np, ifs, loops, fail)
    ensures var s := ParseCommand(Loaded(file, c), words, c.rs);
            var d := NextWords(file, ignore, c, words);
            && Stands(file, d, c.pos + 1, ifs, loops, fail) && SameRoom(c, d)
            && d.rs == s.rs && d.trace == c.trace + s.events
  {
    hide ParseCommand;
    LoadedFrames(file, c);
    Advance(file, ignore, c, words);
    StandsHere(file, NextWords(file, ignore, c, words));
  }

  lemma StepStarved(file: File, ignore: bool, c: Config, words: Words)
    requires Ready(file, c) && c.pos < |file|
    requires var s := ParseCommand(Loaded(file, c), words, c.rs); s.starved && s.rs == c.rs && s.events == []
    ensures var d := NextWords(file, ignore, c, words); d.status == Starved && d.rs == c.rs && d.trace == c.trace
  {
    hide ParseCommand;
    assert c.trace + [] == c.trace;
  }

  lemma NextIsHere(file: File, ignore: bool, c: Config)
    requires Ready(file, c) && c.pos < |file|
    ensures Next(file, ignore, c) == NextWords(file, ignore, c, file[c.pos].words)
  {
  }

  lemma StepPlain(file: File, ignore: bool, c: Config, words: Words)
    requires Ready(file, c) && c.pos < |file| && Settled(c.np) && PlainWords(words)
    ensures var d := NextWords(file, ignore, c, words);
            if words == [] || !CmdEnabled(c.np) then
              Arrives(file, c, d, Outcome([], c.rs, c.np.fail, Completed), c.pos + 1)
            else if c.rs == [] then
              Arrives(file, c, d, Outcome([], c.rs, c.np.fail, CutOff), c.pos + 1)
            else
              Arrives(file, c, d, Outcome([Event(words, c.np.fail)], c.rs[1..], c.rs[0],
                                          if c.rs[0] && !ignore then GaveUp else Completed),
                      if c.rs[0] then NextLine(file, c.pos) else c.pos + 1)
  {
    hide ParseCommand, NextLine, Loaded, CmdEnabled, PlainWords, NextWords;
    LoadedFrames(file, c);
    PlainCommand(Loaded(file, c), words, c.rs);
    SameEnabled(c.np, Loaded(file, c));
    if words == [] || !CmdEnabled(c.np) || (c.rs != [] && !c.rs[0]) {
      Advance(file, ignore, c, words);
    } else if c.rs == [] {
      StepStarved(file, ignore, c, words);
    } else {
      StepFails(file, ignore, c, words);
    }
  }

  lemma SameEnabled(np: Np, r: Np)
    requires Shaped(np) && Shaped(r) && IeTop(np) == IeTop(r) && LpTop(np) == LpTop(r)
    ensures CmdEnabled(np) == CmdEnabled(r)
  {
  }

  lemma NextFails(file: File, ignore: bool, c: Config, words: Words)
    requires Shaped(c.np) && 0 <= c.pos < |file|
    requires var s := ParseCommand(Loaded(file, c), words, c.rs); !s.ok && !s.starved
    ensures var s := ParseCommand(Loaded(file, c), words, c.rs);
            var d := c.(np := s.np, rs := s.rs, trace := c.trace + s.events);
            NextWords(file, ignore, c, words) ==
            if ignore then d.(pos := s.np.fpos, bol := true) else d.(status := Stopped)
  {
    hide ParseCommand, Loaded, NextLine;
  }

  /** A command that fails ends the script, or its line. */
  lemma StepFails(file: File, ignore: bool, c: Config, words: Words)
    requires Ready(file, c) && c.pos < |file|
    requires var np := Loaded(file, c); var s := ParseCommand(np, words, c.rs);
             !s.ok && !s.starved && s.np == np.(fail := true)
    ensures var s := ParseCommand(Loaded(file, c), words, c.rs);
            var d := NextWords(file, ignore, c, words);
            Arrives(file, c, d, Outcome(s.events, s.rs, true, if ignore then Completed else GaveUp), NextLine(file, c.pos))
  {
    hide ParseCommand, NextLine, Loaded, SameFrames, NextWords, Shaped;
    LoadedFrames(file, c);
    LoadedLine(file, c);
    FailFrames(c.np, Loaded(file, c));
    NextFails(file, ignore, c, words);
  }

  lemma LoadedLine(file: File, c: Config)
    requires Ready(file, c) && c.pos < |file|
    ensures Loaded(file, c).fpos == NextLine(file, c.pos)
  {
  }

  lemma FailFrames(np: Np, r: Np)
    requires SameFrames(np, r)
    ensures SameFrames(np, r.(fail := true)) && Shaped(r.(fail := true))
  {
    assert Ifs(r.(fail := true)) == Ifs(r) && Loops(r.(fail := true)) == Loops(r);
  }

  // ----- Bodies -----

  /** The first configuration of a run of `s` from `c`; a joined command is run by the
      keyword's own command line. */
  function Begin(file: File, ignore: bool, s: Script, c: Config, joined: bool): Config
    requires joined ==> s.Plain? && Shaped(c.np) && 0 <= c.pos < |file|
  {
    if joined then NextWords(file, ignore, c, s.words) else c
  }

  /** The places where `s` may be run: where it is written, with room for its frames. */
  predicate Placed(file: File, ignore: bool, s: Script, c: Config, joined: bool) {
    && Ready(file, c) && Settled(c.np)
    && Proper(s, joined) && Holds(file, ignore, s, c.pos + (if joined then 1 else 0))
    && (joined ==> s.Plain? && s.joined && c.pos < |file|)
    && c.np.iendx + IfDepth(s) < |c.np.ie|
    && c.np.lpndx + LoopDepth(s) < |c.np.lp|
  }

  function EndPos(s: Script, c: Config, joined: bool): int {
    c.pos + (if joined then 1 else 0) + Len(s)
  }

  /** A keyword in front of a body, and the frames it leaves. */
  predicate AtKeyword(file: File, ignore: bool, word: Word, body: Script, c: Config, ifs: seq<Itef>, loops: seq<Loop>) {
    && Ready(file, c) && c.pos < |file|
    && (word == KwThen || word == KwElse || word == KwDo)
    && file[c.pos].words == [word] + Joined(body)
    && Proper(body, true) && Holds(file, ignore, body, c.pos + 1)
    && |ifs| + IfDepth(body) <= |c.np.ie| && |loops| + LoopDepth(body) <= |c.np.lp|
    && (word == KwDo ==> IeTop(c.np).state != ItefIf)
    && var np := Loaded(file, c);
       var s := ParseCommand(np, [word], c.rs);
       && s.ok && !s.starved && s.rs == c.rs && s.events == []
       && Settled(s.np) && Leaves(np, s.np, ifs, loops, c.np.fail)
  }

  lemma EnterJoined(file: File, ignore: bool, word: Word, body: Script, c: Config,
                    ifs: seq<Itef>, loops: seq<Loop>) returns (d: Config)
    requires AtKeyword(file, ignore, word, body, c, ifs, loops) && Joined(body) != []
    ensures Placed(file, ignore, body, d, true) && d.pos == c.pos
    ensures NextWords(file, ignore, d, body.words) == Next(file, ignore, c)
    ensures Stands(file, d, d.pos, ifs, loops, c.np.fail) && SameRoom(c, d)
    ensures d.rs == c.rs && d.trace == c.trace
  {
    hide ParseCommand;
    var s := ParseCommand(Loaded(file, c), [word], c.rs);
    LoadedFrames(file, c);
    JoinedCommand(Loaded(file, c), word, body.words, c.rs);
    d := c.(np := s.np);
    assert Loaded(file, d) == s.np;
    StandsHere(file, d);
  }

  lemma EnterApart(file: File, ignore: bool, word: Word, body: Script, c: Config,
                   ifs: seq<Itef>, loops: seq<Loop>) returns (d: Config)
    requires AtKeyword(file, ignore, word, body, c, ifs, loops) && Joined(body) == []
    ensures Placed(file, ignore, body, d, false) && d.pos == c.pos + 1
    ensures d == Next(file, ignore, c)
    ensures Stands(file, d, d.pos, ifs, loops, c.np.fail) && SameRoom(c, d)
    ensures d.rs == c.rs && d.trace == c.trace
  {
    hide ParseCommand;
    assert [word] + Joined(body) == [word];
    StepLeaves(file, ignore, c, [word], ifs, loops, c.np.fail);
    d := NextWords(file, ignore, c, [word]);
    assert c.trace + [] == c.trace;
  }

  /** From a keyword the run comes to the beginning of the body. */
  lemma Enter(file: File, ignore: bool, word: Word, body: Script, c: Config,
              ifs: seq<Itef>, loops: seq<Loop>) returns (d: Config, joined: bool)
    requires AtKeyword(file, ignore, word, body, c, ifs, loops)
    ensures Placed(file, ignore, body, d, joined)
    ensures Reach(file, ignore, c, Begin(file, ignore, body, d, joined))
    ensures Stands(file, d, d.pos, ifs, loops, c.np.fail) && SameRoom(c, d)
    ensures d.rs == c.rs && d.trace == c.trace && d.pos + (if joined then 1 else 0) == c.pos + 1
  {
    hide Next, NextWords, AtKeyword, Stands, Reach;
    joined := Joined(body) != [];
    if joined {
      d := EnterJoined(file, ignore, word, body, c, ifs, loops);
    } else {
      d := EnterApart(file, ignore, word, body, c, ifs, loops);
    }
    ReachSelf(file, ignore, Next(file, ignore, c));
    ReachStep(file, ignore, c, Next(file, ignore, c));
  }

  // ----- Statements -----

  function Nothing(rs: seq<bool>, fail: bool): Outcome {
    Outcome([], rs, fail, Completed)
  }

  /** What running over `s` does in a given parser state. */
  function Effect(s: Script, np: Np, rs: seq<bool>, fail: bool, ignore: bool): (o: Outcome)
    requires Shaped(np)
  {
    if ItefEnabled(np) then Actual(s, !LoopEnabled(np), rs, fail, ignore) else Nothing(rs, fail)
  }

  /** The frame that `if` pushes, once `then` is read. */
  function ThenFrame(s: Script, on: bool, rs: seq<bool>): Itef
    requires s.If? && (on ==> rs != [])
  {
    Itef(ItefThen, on && s.inverted != rs[0], !on, s.inverted)
  }

  lemma AtThen(file: File, ignore: bool, s: Script, d: Config, ifs: seq<Itef>, loops: seq<Loop>, frame: Itef, fail: bool)
    requires s.If? && d.pos > 0 && Proper(s, false) && Holds(file, ignore, s, d.pos - 1)
    requires frame.state == ItefThen && loops != [] && !Waiting(loops[|loops| - 1].state)
    requires Stands(file, d, d.pos, ifs + [frame.(state := ItefIf)], loops, fail)
    requires |ifs| + IfDepth(s) <= |d.np.ie| && |loops| + LoopDepth(s) <= |d.np.lp|
    ensures AtKeyword(file, ignore, KwThen, s.thn, d, ifs + [frame], loops)
  {
    hide ParseCommand, Loaded, NextLine;
    LoadedFrames(file, d);
    ThenCommand(Loaded(file, d), d.rs);
    assert SetTop(Ifs(d.np), frame) == ifs + [frame];
  }

  lemma StepIf(file: File, ignore: bool, s: Script, c: Config)
    requires s.If? && Placed(file, ignore, s, c, false)
    ensures var d := Next(file, ignore, c);
            var on := CmdEnabled(c.np);
            if on && c.rs == [] then d.status == Starved && d.rs == c.rs && d.trace == c.trace
            else
              && AtKeyword(file, ignore, KwThen, s.thn, d, Ifs(c.np) + [ThenFrame(s, on, c.rs)], Loops(c.np))
              && d.pos == c.pos + 1 && SameRoom(c, d)
              && d.np.fail == (!on && c.np.fail)
              && d.rs == (if on then c.rs[1..] else c.rs)
              && d.trace == c.trace + (if on then [Event(s.cond, c.np.fail)] else [])
  {
    hide ParseCommand, AtKeyword, Next, NextWords, Loaded;
    NextIsHere(file, ignore, c);
    LoadedFrames(file, c);
    var on := CmdEnabled(c.np);
    IfCommand(Loaded(file, c), s.inverted, s.cond, c.rs);
    if on && c.rs == [] {
      StepStarved(file, ignore, c, file[c.pos].words);
    } else {
      var frame := ThenFrame(s, on, c.rs);
      var fail := !on && c.np.fail;
      StepLeaves(file, ignore, c, IfWords(s.inverted, s.cond),
                 Ifs(c.np) + [frame.(state := ItefIf)], Loops(c.np), fail);
      AtThen(file, ignore, s, Next(file, ignore, c), Ifs(c.np), Loops(c.np), frame, fail);
    }
  }

  lemma AtElse(file: File, ignore: bool, s: Script, d: Config, ifs: seq<Itef>, loops: seq<Loop>, frame: Itef, fail: bool)
    requires s.If? && s.hasElse && Proper(s, false)
    requires d.pos >= 2 + Len(s.thn) && Holds(file, ignore, s, d.pos - Len(s.thn) - 2)
    requires frame.state == ItefThen && loops != [] && !Waiting(loops[|loops| - 1].state)
    requires Stands(file, d, d.pos, ifs + [frame], loops, fail)
    requires |ifs| + IfDepth(s) <= |d.np.ie| && |loops| + LoopDepth(s) <= |d.np.lp|
    ensures AtKeyword(file, ignore, KwElse, s.els, d, ifs + [frame.(state := ItefElse)], loops)
  {
    hide ParseCommand, Loaded, NextLine;
    LoadedFrames(file, d);
    ElseCommand(Loaded(file, d), d.rs);
    assert SetTop(Ifs(d.np), frame.(state := ItefElse)) == ifs + [frame.(state := ItefElse)];
  }

  lemma StepFi(file: File, ignore: bool, d: Config, ifs: seq<Itef>, loops: seq<Loop>, frame: Itef, fail: bool)
    requires Stands(file, d, d.pos, ifs + [frame], loops, fail)
    requires ifs != [] && loops != [] && !Waiting(loops[|loops| - 1].state)
    requires frame.state == ItefThen || frame.state == ItefElse
    requires d.pos < |file| && file[d.pos].words == [KwFi]
    ensures var e := Next(file, ignore, d);
            && Stands(file, e, d.pos + 1, ifs, loops, fail) && SameRoom(d, e)
            && e.rs == d.rs && e.trace == d.trace
  {
    hide ParseCommand, Loaded, NextLine;
    LoadedFrames(file, d);
    FiCommand(Loaded(file, d), d.rs);
    assert Pop(ifs + [frame]) == ifs;
    assert d.trace + [] == d.trace;
    StepLeaves(file, ignore, d, [KwFi], ifs, loops, fail);
  }

  /** The frame that `while` or `until` pushes, once `do` is read. */
  function DoFrame(s: Script, on: bool, rs: seq<bool>, iendx: nat, pos: int): Loop
    requires s.While? && (on ==> rs != [])
  {
    Loop(LoopDo, on && rs[0] == s.until, iendx, pos)
  }

  lemma AtDo(file: File, ignore: bool, s: Script, d: Config, ifs: seq<Itef>, loops: seq<Loop>, frame: Loop, fail: bool)
    requires s.While? && d.pos > 0 && Proper(s, false) && Holds(file, ignore, s, d.pos - 1)
    requires frame.state == LoopDo && ifs != [] && ifs[|ifs| - 1].state != ItefIf
    requires Stands(file, d, d.pos, ifs, loops + [frame.(state := LoopWait(s.until))], fail)
    requires |ifs| + IfDepth(s) <= |d.np.ie| && |loops| + LoopDepth(s) <= |d.np.lp|
    ensures AtKeyword(file, ignore, KwDo, s.body, d, ifs, loops + [frame])
  {
    hide ParseCommand, Loaded, NextLine;
    LoadedFrames(file, d);
    DoCommand(Loaded(file, d), d.rs);
    assert SetTop(Loops(d.np), frame) == loops + [frame];
  }

  lemma StepWhile(file: File, ignore: bool, s: Script, c: Config)
    requires s.While? && Placed(file, ignore, s, c, false)
    ensures var d := Next(file, ignore, c);
            var on := ItefEnabled(c.np);
            if on && c.rs == [] then d.status == Starved && d.rs == c.rs && d.trace == c.trace
            else
              && AtKeyword(file, ignore, KwDo, s.body, d, Ifs(c.np), Loops(c.np) + [DoFrame(s, on, c.rs, c.np.iendx, c.pos)])
              && d.pos == c.pos + 1 && SameRoom(c, d)
              && d.np.fail == (!on && c.np.fail)
              && d.rs == (if on then c.rs[1..] else c.rs)
              && d.trace == c.trace + (if on then [Event(s.test, c.np.fail)] else [])
  {
    hide ParseCommand, AtKeyword, Next, NextWords, Loaded, Holds, Proper, IfDepth, LoopDepth, Placed, NextLine, TestWords;
    WhileHere(file, ignore, s, c);
    StandsHere(file, c);
    NextIsHere(file, ignore, c);
    LoadedFrames(file, c);
    var on := ItefEnabled(c.np);
    WhileCommand(Loaded(file, c), s.until, s.test, c.rs);
    if on && c.rs == [] {
      StepStarved(file, ignore, c, file[c.pos].words);
    } else {
      var frame := DoFrame(s, on, c.rs, c.np.iendx, c.pos);
      var fail := !on && c.np.fail;
      StepLeaves(file, ignore, c, [LoopWord(s.until)] + s.test,
                 Ifs(c.np), Loops(c.np) + [frame.(state := LoopWait(s.until))], fail);
      AtDo(file, ignore, s, Next(file, ignore, c), Ifs(c.np), Loops(c.np), frame, fail);
    }
  }

  lemma WhileHere(file: File, ignore: bool, s: Script, c: Config)
    requires s.While? && Placed(file, ignore, s, c, false)
    ensures Ready(file, c) && Settled(c.np) && Proper(s, false) && Holds(file, ignore, s, c.pos) && c.pos < |file|
    ensures file[c.pos].words == [LoopWord(s.until)] + s.test && TestWords(s.test)
    ensures c.np.lpndx + 1 < |c.np.lp|
    ensures c.np.iendx + IfDepth(s) < |c.np.ie| && c.np.lpndx + LoopDepth(s) < |c.np.lp|
  {
    hide NextLine, Gap, Len;
  }

  lemma StepDone(file: File, ignore: bool, d: Config, ifs: seq<Itef>, loops: seq<Loop>, frame: Loop, fail: bool)
    requires Stands(file, d, d.pos, ifs, loops + [frame], fail)
    requires loops != [] && ifs != [] && ifs[|ifs| - 1].state != ItefIf
    requires frame.state == LoopDo && 0 <= frame.topoffs <= |file|
    requires d.pos < |file| && file[d.pos].words == [KwDone]
    ensures var e := Next(file, ignore, d);
            && Stands(file, e, if frame.enable then frame.topoffs else d.pos + 1, ifs, loops, fail) && SameRoom(d, e)
            && e.rs == d.rs && e.trace == d.trace
  {
    hide ParseCommand, Loaded, NextLine;
    LoadedFrames(file, d);
    DoneCommand(Loaded(file, d), d.rs);
    assert Pop(loops + [frame]) == loops;
    assert d.trace + [] == d.trace;
    if !frame.enable {
      Advance(file, ignore, d, [KwDone]);
    }
    StandsHere(file, Next(file, ignore, d));
  }

  // ----- The simulation -----

  /** One outcome after another that completed. */
  lemma Compose(file: File, c: Config, d: Config, e: Config, o: Outcome, p: Outcome, q: int, r: int)
    requires Ready(file, c) && Arrives(file, c, d, o, q) && o.end == Completed
    requires Arrives(file, d, e, p, r)
    ensures Arrives(file, c, e, Join(o.trace, p), r)
  {
    assert c.trace + (o.trace + p.trace) == (c.trace + o.trace) + p.trace;
  }

  /** The effect depends on the frames that are open. */
  lemma SameEffect(file: File, s: Script, c: Config, d: Config, rs: seq<bool>, fail: bool, ignore: bool)
    requires Ready(file, c) && Stands(file, d, d.pos, Ifs(c.np), Loops(c.np), d.np.fail)
    ensures Effect(s, d.np, rs, fail, ignore) == Effect(s, c.np, rs, fail, ignore)
  {
    StandsHere(file, c);
  }

  function PlainOutcome(words: Words, on: bool, rs: seq<bool>, fail: bool, ignore: bool): Outcome {
    if words == [] || !on then Nothing(rs, fail)
    else if rs == [] then Outcome([], rs, fail, CutOff)
    else Outcome([Event(words, fail)], rs[1..], rs[0], if rs[0] && !ignore then GaveUp else Completed)
  }

  /** The command is executed and fails. */
  predicate Failing(words: Words, on: bool, rs: seq<bool>) {
    words != [] && on && rs != [] && rs[0]
  }

  /** What a plain command goes on with. */
  function Follow(s: Script, on: bool, rs: seq<bool>): Script
    requires s.Plain?
  {
    if Failing(s.words, on, rs) then Skip(s.next, s.rest) else s.next
  }

  lemma EffectPlain(s: Script, np: Np, rs: seq<bool>, fail: bool, ignore: bool)
    requires s.Plain? && Shaped(np)
    ensures var o := PlainOutcome(s.words, CmdEnabled(np), rs, fail, ignore);
            Effect(s, np, rs, fail, ignore) ==
            if o.end == Completed then Join(o.trace, Effect(Follow(s, CmdEnabled(np), rs), np, o.rs, o.fail, ignore)) else o
  {
    JoinNothing(Effect(s.next, np, rs, fail, ignore));
  }

  lemma NextHeld(file: File, ignore: bool, s: Script, p: nat, joined: bool)
    requires !s.End? && Holds(file, ignore, s, p) && Proper(s, joined)
    ensures Len(s.next) <= Len(s) && Proper(s.next, false) && Holds(file, ignore, s.next, p + Len(s) - Len(s.next))
    ensures p + Len(s) - Len(s.next) <= |file|
    ensures IfDepth(s.next) <= IfDepth(s) && LoopDepth(s.next) <= LoopDepth(s)
  {
    hide NextLine, Gap, PlainWords, TestWords, IfWords, LoopWord, Joined;
  }

  /** Behind statements that are skipped. */
  lemma {:induction false} SkipHeld(file: File, ignore: bool, s: Script, p: nat, n: nat)
    requires Holds(file, ignore, s, p) && Proper(s, false)
    ensures var t := Skip(s, n); var q := p + Gap(s, n);
            && p <= q && Proper(t, false) && Holds(file, ignore, t, q) && q + Len(t) == p + Len(s)
            && IfDepth(t) <= IfDepth(s) && LoopDepth(t) <= LoopDepth(s)
    decreases n
  {
    hide Holds, Proper, IfDepth, LoopDepth, Len;
    if n > 0 && !s.End? {
      NextHeld(file, ignore, s, p, false);
      SkipHeld(file, ignore, s.next, p + Len(s) - Len(s.next), n - 1);
    }
  }

  /** Behind a statement the rest of the script can be run. */
  lemma NextPlaced(file: File, ignore: bool, s: Script, c: Config, d: Config, joined: bool)
    requires !s.End? && Placed(file, ignore, s, c, joined)
    requires Stands(file, d, EndPos(s, c, joined) - Len(s.next), Ifs(c.np), Loops(c.np), d.np.fail) && SameRoom(c, d)
    ensures Placed(file, ignore, s.next, d, false)
    ensures EndPos(s.next, d, false) == EndPos(s, c, joined)
  {
    hide Holds, Proper, IfDepth, LoopDepth, Len, NextLine;
    NextHeld(file, ignore, s, c.pos + (if joined then 1 else 0), joined);
    StandsHere(file, c);
  }

  /** Where a plain command goes on. */
  function FollowPos(file: File, s: Script, c: Config): int
    requires s.Plain? && Shaped(c.np) && 0 <= c.pos < |file|
  {
    if Failing(s.words, CmdEnabled(c.np), c.rs) then NextLine(file, c.pos) else c.pos + 1
  }

  lemma PlainHere(file: File, ignore: bool, s: Script, c: Config, joined: bool)
    requires s.Plain? && Placed(file, ignore, s, c, joined)
    ensures Shaped(c.np) && 0 <= c.pos < |file|
    ensures Arrives(file, c, NextWords(file, ignore, c, s.words),
                    PlainOutcome(s.words, CmdEnabled(c.np), c.rs, c.np.fail, ignore), FollowPos(file, s, c))
    ensures Begin(file, ignore, s, c, joined) ==
            if joined then NextWords(file, ignore, c, s.words) else c
    ensures !joined ==> Next(file, ignore, c) == NextWords(file, ignore, c, s.words)
  {
    hide NextWords, Next, NextLine, Arrives, CmdEnabled, IfDepth, LoopDepth, PlainWords, Gap;
    StepPlain(file, ignore, c, s.words);
    if !joined {
      NextIsHere(file, ignore, c);
    }
  }

  /** There the rest of the script can be run. */
  lemma FollowPlaced(file: File, ignore: bool, s: Script, c: Config, d: Config, joined: bool)
    requires s.Plain? && Placed(file, ignore, s, c, joined) && 0 <= c.pos < |file|
    requires Failing(s.words, CmdEnabled(c.np), c.rs) ==> ignore
    requires Stands(file, d, FollowPos(file, s, c), Ifs(c.np), Loops(c.np), d.np.fail) && SameRoom(c, d)
    ensures var next := Follow(s, CmdEnabled(c.np), c.rs);
            Placed(file, ignore, next, d, false) && EndPos(next, d, false) == EndPos(s, c, joined)
  {
    hide IfDepth, LoopDepth, NextLine, CmdEnabled, Gap, Holds, Proper, Len, Skip;
    StandsHere(file, c);
    PlainRoom(s);
    PlainHeld(file, ignore, s, c.pos + (if joined then 1 else 0), joined);
    SkipHeld(file, ignore, s.next, c.pos + 1, s.rest);
  }

  lemma PlainHeld(file: File, ignore: bool, s: Script, p: nat, joined: bool)
    requires s.Plain? && Holds(file, ignore, s, p) && Proper(s, joined) && (joined ==> s.joined)
    ensures var q := if joined then p else p + 1;
            && 0 < q <= |file| && (ignore && s.words != [] ==> NextLine(file, q - 1) == q + Gap(s.next, s.rest))
            && Holds(file, ignore, s.next, q) && Proper(s.next, false) && p + Len(s) == q + Len(s.next)
  {
    hide NextLine, Gap, PlainWords;
  }

  lemma PlainRoom(s: Script)
    requires s.Plain?
    ensures IfDepth(s.next) == IfDepth(s) && LoopDepth(s.next) == LoopDepth(s)
  {
  }

  lemma SimulatePlain(file: File, ignore: bool, s: Script, c: Config, joined: bool) returns (d: Config)
    requires s.Plain? && Placed(file, ignore, s, c, joined)
    ensures Reach(file, ignore, Begin(file, ignore, s, c, joined), d)
    ensures Arrives(file, c, d, Effect(s, c.np, c.rs, c.np.fail, ignore), EndPos(s, c, joined))
    decreases |c.rs|, s, 0
  {
    hide NextWords, Next, Reach, Effect, Holds, Proper, IfDepth, LoopDepth, Len, EndPos, Settled, CmdEnabled, FollowPos;
    PlainHere(file, ignore, s, c, joined);
    EffectPlain(s, c.np, c.rs, c.np.fail, ignore);
    d := NextWords(file, ignore, c, s.words);
    ReachSelf(file, ignore, d);
    var o := PlainOutcome(s.words, CmdEnabled(c.np), c.rs, c.np.fail, ignore);
    if o.end == Completed {
      var e, p := d, FollowPos(file, s, c);
      var next := Follow(s, CmdEnabled(c.np), c.rs);
      ArrivedStands(file, c, e, o, p);
      FollowPlaced(file, ignore, s, c, e, joined);
      SameEffect(file, next, c, e, o.rs, o.fail, ignore);
      d := Simulate(file, ignore, next, e, false);
      Compose(file, c, e, d, o, Effect(next, c.np, o.rs, o.fail, ignore), p, EndPos(s, c, joined));
    }
    if !joined {
      ReachStep(file, ignore, c, d);
    }
  }

  /** What running over a body does under given top frames. */
  function BodyOutcome(body: Script, f: Itef, l: Loop, rs: seq<bool>, fail: bool, ignore: bool): (o: Outcome)
    ensures |o.rs| <= |rs|
  {
    if !f.disabled && BranchActive(f) then Actual(body, l.state == LoopDo && !l.enable, rs, fail, ignore)
    else Nothing(rs, fail)
  }

  /** From `c` the run comes to `d` as `o` says; if it completes, at `q` with the given frames open. */
  predicate Ends(file: File, c: Config, d: Config, o: Outcome, q: int, ifs: seq<Itef>, loops: seq<Loop>) {
    && d.trace == c.trace + o.trace && d.rs == o.rs
    && match o.end
       case Completed => Stands(file, d, q, ifs, loops, o.fail) && SameRoom(c, d)
       case CutOff => d.status == Starved
       case GaveUp => d.status == Stopped
  }

  lemma ArrivesEnds(file: File, c: Config, d: Config, o: Outcome, q: int)
    requires Ready(file, c) && Arrives(file, c, d, o, q)
    ensures Ends(file, c, d, o, q, Ifs(c.np), Loops(c.np))
  {
    if o.end == Completed { ArrivedStands(file, c, d, o, q); }
  }

  lemma EndsArrives(file: File, c: Config, d: Config, o: Outcome, q: int)
    requires Ready(file, c) && Ends(file, c, d, o, q, Ifs(c.np), Loops(c.np))
    ensures Arrives(file, c, d, o, q)
  {
  }

  /** From a keyword over the body behind it. */
  lemma SimulateBody(file: File, ignore: bool, word: Word, body: Script, c: Config, ifs: seq<Itef>, loops: seq<Loop>)
    returns (d: Config)
    requires AtKeyword(file, ignore, word, body, c, ifs, loops) && ifs != [] && loops != []
    ensures Reach(file, ignore, c, d)
    ensures Ends(file, c, d,
                 BodyOutcome(body, ifs[|ifs| - 1], loops[|loops| - 1], c.rs, c.np.fail, ignore),
                 c.pos + 1 + Len(body), ifs, loops)
    decreases |c.rs|, body, 4
  {
    hide NextWords, Next, Reach, AtKeyword, Begin, Holds, Proper, IfDepth, LoopDepth, Len, Actual;
    var e, joined := Enter(file, ignore, word, body, c, ifs, loops);
    d := Simulate(file, ignore, body, e, joined);
    ReachTrans(file, ignore, c, Begin(file, ignore, body, e, joined), d);
    ArrivesEnds(file, e, d, Effect(body, e.np, e.rs, e.np.fail, ignore), EndPos(body, e, joined));
  }

  /** From `then` to `fi`: the branch that the frame selects is run. */
  lemma SimulateBranches(file: File, ignore: bool, s: Script, c: Config,
                         ifs: seq<Itef>, loops: seq<Loop>, frame: Itef)
    returns (d: Config, last: Itef)
    requires s.If? && AtKeyword(file, ignore, KwThen, s.thn, c, ifs + [frame], loops)
    requires c.pos > 0 && Holds(file, ignore, s, c.pos - 1) && Proper(s, false)
    requires frame.state == ItefThen && loops != [] && !Waiting(loops[|loops| - 1].state)
    requires !frame.disabled && loops[|loops| - 1].state == LoopDo ==> loops[|loops| - 1].enable
    requires |ifs| + IfDepth(s) <= |c.np.ie| && |loops| + LoopDepth(s) <= |c.np.lp|
    ensures Reach(file, ignore, c, d)
    ensures last.state == ItefThen || last.state == ItefElse
    ensures Ends(file, c, d, BranchOutcome(s, frame, c.rs, c.np.fail, ignore),
                 c.pos + 1 + Len(s.thn) + (if s.hasElse then 1 + Len(s.els) else 0), ifs + [last], loops)
    decreases |c.rs|, s, 0
  {
    hide NextWords, Next, Reach, AtKeyword, Holds, Proper, IfDepth, LoopDepth, Len, Actual, Ready, BodyOutcome, BranchOutcome;
    ElseHeld(s);
    var l := loops[|loops| - 1];
    d := SimulateBody(file, ignore, KwThen, s.thn, c, ifs + [frame], loops);
    last := frame;
    ThenOutcome(s, frame, l, c.rs, c.np.fail, ignore);
    var o := BodyOutcome(s.thn, frame, l, c.rs, c.np.fail, ignore);
    if o.end == Completed && s.hasElse {
      AtElse(file, ignore, s, d, ifs, loops, frame, o.fail);
      var e := d;
      last := frame.(state := ItefElse);
      d := SimulateBody(file, ignore, KwElse, s.els, e, ifs + [last], loops);
      ElseOutcome(s, last, l, e.rs, e.np.fail, ignore);
      ReachTrans(file, ignore, c, e, d);
      assert c.trace + [] == c.trace && e.trace + [] == e.trace;
    }
  }

  function BranchOutcome(s: Script, frame: Itef, rs: seq<bool>, fail: bool, ignore: bool): (o: Outcome)
    requires s.If?
    ensures |o.rs| <= |rs|
  {
    if frame.disabled then Nothing(rs, fail)
    else Actual(if frame.ifcond then s.els else s.thn, false, rs, fail, ignore)
  }

  lemma ElseHeld(s: Script)
    requires s.If? && Proper(s, false)
    ensures s.hasElse || s.els == End
  {
  }

  lemma ThenOutcome(s: Script, frame: Itef, l: Loop, rs: seq<bool>, fail: bool, ignore: bool)
    requires s.If? && frame.state == ItefThen && (!frame.disabled && l.state == LoopDo ==> l.enable)
    ensures BodyOutcome(s.thn, frame, l, rs, fail, ignore) ==
            if frame.disabled || frame.ifcond then Nothing(rs, fail) else BranchOutcome(s, frame, rs, fail, ignore)
    ensures frame.disabled || (frame.ifcond && s.els == End) ==>
              BranchOutcome(s, frame, rs, fail, ignore) == Nothing(rs, fail)
  {
  }

  lemma ElseOutcome(s: Script, frame: Itef, l: Loop, rs: seq<bool>, fail: bool, ignore: bool)
    requires s.If? && frame.state == ItefElse && (!frame.disabled && l.state == LoopDo ==> l.enable)
    ensures BodyOutcome(s.els, frame, l, rs, fail, ignore) ==
            if frame.disabled || !frame.ifcond then Nothing(rs, fail)
            else BranchOutcome(s, frame.(state := ItefThen), rs, fail, ignore)
  {
  }

  lemma {:induction false} Simulate(file: File, ignore: bool, s: Script, c: Config, joined: bool) returns (d: Config)
    requires Placed(file, ignore, s, c, joined)
    ensures Reach(file, ignore, Begin(file, ignore, s, c, joined), d)
    ensures Arrives(file, c, d, Effect(s, c.np, c.rs, c.np.fail, ignore), EndPos(s, c, joined))
    decreases |c.rs|, s, 3
  {
    match s
    case End =>
      d := c;
      ReachSelf(file, ignore, c);
    case Plain(_, _, _, _) =>
      d := SimulatePlain(file, ignore, s, c, joined);
    case If(_, _, _, _, _, _) =>
      d := SimulateIf(file, ignore, s, c);
    case While(_, _, _, _) =>
      d := SimulateWhile(file, ignore, s, c);
  }

  /** A statement can be entered: what its frames and its text look like. */
  lemma Here(file: File, ignore: bool, s: Script, c: Config)
    requires Placed(file, ignore, s, c, false)
    ensures Holds(file, ignore, s, c.pos) && Proper(s, false) && Ready(file, c)
    ensures var ifs, loops := Ifs(c.np), Loops(c.np);
            && ifs != [] && loops != []
            && IeTop(c.np) == ifs[|ifs| - 1] && LpTop(c.np) == loops[|loops| - 1]
            && ifs[|ifs| - 1].state != ItefIf && !Waiting(loops[|loops| - 1].state)
            && |ifs| + IfDepth(s) <= |c.np.ie| && |loops| + LoopDepth(s) <= |c.np.lp|
            && c.np.iendx == |ifs| - 1 && c.np.lpndx == |loops| - 1
            && (CmdEnabled(c.np) && loops[|loops| - 1].state == LoopDo ==> loops[|loops| - 1].enable)
  {
    StandsHere(file, c);
  }

  lemma FiHere(file: File, ignore: bool, s: Script, c: Config)
    requires s.If? && Placed(file, ignore, s, c, false)
    ensures var q := c.pos + 2 + Len(s.thn) + (if s.hasElse then 1 + Len(s.els) else 0);
            && q < |file| && file[q].words == [KwFi] && q + 1 == EndPos(s, c, false) - Len(s.next)
  {
  }

  lemma EffectIf(s: Script, np: Np, rs: seq<bool>, fail: bool, ignore: bool)
    requires s.If? && Shaped(np)
    ensures var on := CmdEnabled(np);
            var p := Effect(s, np, rs, fail, ignore);
            if on && rs == [] then p == Outcome([], rs, fail, CutOff)
            else
              var events := if on then [Event(s.cond, fail)] else [];
              var o := BranchOutcome(s, ThenFrame(s, on, rs), if on then rs[1..] else rs, !on && fail, ignore);
              p == if o.end == Completed then Join(events + o.trace, Effect(s.next, np, o.rs, o.fail, ignore))
                   else Join(events, o)
  {
    if CmdEnabled(np) {
      if rs != [] {
        var o := BranchOutcome(s, ThenFrame(s, true, rs), rs[1..], false, ignore);
        var p := Effect(s.next, np, o.rs, o.fail, ignore);
        assert [Event(s.cond, fail)] + (o.trace + p.trace) == ([Event(s.cond, fail)] + o.trace) + p.trace;
      }
    } else {
      JoinNothing(Effect(s.next, np, rs, fail, ignore));
      var none: seq<Event> := [];
      assert none + none == none;
    }
  }

  lemma SimulateIf(file: File, ignore: bool, s: Script, c: Config) returns (d: Config)
    requires s.If? && Placed(file, ignore, s, c, false)
    ensures Reach(file, ignore, c, d)
    ensures Arrives(file, c, d, Effect(s, c.np, c.rs, c.np.fail, ignore), EndPos(s, c, false))
    decreases |c.rs|, s, 2
  {
    hide NextWords, Next, Reach, AtKeyword, Holds, Proper, IfDepth, LoopDepth, Len, Actual, BranchOutcome, Effect, Placed, EndPos,
      CmdEnabled, SameFrames, Ready, Waiting, Loaded;
    Here(file, ignore, s, c);
    FiHere(file, ignore, s, c);
    EffectIf(s, c.np, c.rs, c.np.fail, ignore);
    StepIf(file, ignore, s, c);
    var on := CmdEnabled(c.np);
    var c1 := Next(file, ignore, c);
    d := c1;
    ReachSelf(file, ignore, c1);
    ReachStep(file, ignore, c, c1);
    if !(on && c.rs == []) {
      var frame := ThenFrame(s, on, c.rs);
      var events := if on then [Event(s.cond, c.np.fail)] else [];
      var o := BranchOutcome(s, frame, c1.rs, c1.np.fail, ignore);
      var last;
      d, last := SimulateBranches(file, ignore, s, c1, Ifs(c.np), Loops(c.np), frame);
      ReachTrans(file, ignore, c, c1, d);
      assert c.trace + (events + o.trace) == (c.trace + events) + o.trace;
      if o.end == Completed {
        var c2 := d;
        var c3 := Next(file, ignore, c2);
        StepFi(file, ignore, c2, Ifs(c.np), Loops(c.np), last, o.fail);
        var p := Outcome(events + o.trace, o.rs, o.fail, Completed);
        EndsArrives(file, c, c3, p, c3.pos);
        d := SimulateNext(file, ignore, s, c, c3, p);
        ReachStep(file, ignore, c2, d);
        ReachTrans(file, ignore, c, c2, d);
      }
    }
  }

  /** The rest of the script, behind a statement with outcome `p`. */
  lemma SimulateNext(file: File, ignore: bool, s: Script, c: Config, e: Config, p: Outcome) returns (d: Config)
    requires !s.End? && Placed(file, ignore, s, c, false) && p.end == Completed && |p.rs| <= |c.rs|
    requires Arrives(file, c, e, p, EndPos(s, c, false) - Len(s.next))
    ensures Reach(file, ignore, e, d)
    ensures Arrives(file, c, d, Join(p.trace, Effect(s.next, c.np, p.rs, p.fail, ignore)), EndPos(s, c, false))
    decreases |c.rs|, s, 0
  {
    hide NextWords, Next, Reach, Holds, Proper, IfDepth, LoopDepth, Len, Actual, Effect, EndPos;
    ArrivedStands(file, c, e, p, EndPos(s, c, false) - Len(s.next));
    NextPlaced(file, ignore, s, c, e, false);
    SameEffect(file, s.next, c, e, p.rs, p.fail, ignore);
    d := Simulate(file, ignore, s.next, e, false);
    Compose(file, c, e, d, p, Effect(s.next, c.np, p.rs, p.fail, ignore), e.pos, EndPos(s, c, false));
  }

  lemma DoneHere(file: File, ignore: bool, s: Script, c: Config)
    requires s.While? && Placed(file, ignore, s, c, false)
    ensures var q := c.pos + 2 + Len(s.body);
            && q < |file| && file[q].words == [KwDone] && q + 1 == EndPos(s, c, false) - Len(s.next)
  {
  }

  lemma EffectWhile(s: Script, np: Np, rs: seq<bool>, fail: bool, ignore: bool, l: Loop)
    requires s.While? && Shaped(np) && l.state == LoopDo
    requires ItefEnabled(np) && rs != [] ==> l.enable == (rs[0] == s.until)
    requires !ItefEnabled(np) ==> !l.enable
    ensures var on := ItefEnabled(np);
            var p := Effect(s, np, rs, fail, ignore);
            if on && rs == [] then p == Outcome([], rs, fail, CutOff)
            else
              var events := if on then [Event(s.test, fail)] else [];
              var o := BodyOutcome(s.body, IeTop(np), l, if on then rs[1..] else rs, !on && fail, ignore);
              p == if o.end == Completed then
                     Join(events + o.trace, Effect(if l.enable then s else s.next, np, o.rs, o.fail, ignore))
                   else Join(events, o)
  {
    if ItefEnabled(np) {
      if rs != [] {
        var o := BodyOutcome(s.body, IeTop(np), l, rs[1..], false, ignore);
        var p := Effect(if l.enable then s else s.next, np, o.rs, o.fail, ignore);
        assert [Event(s.test, fail)] + (o.trace + p.trace) == ([Event(s.test, fail)] + o.trace) + p.trace;
      }
    } else {
      JoinNothing(Effect(s.next, np, rs, fail, ignore));
      var none: seq<Event> := [];
      assert none + none == none;
    }
  }

  /** The loop itself once more, back at its test. */
  lemma SimulateAgain(file: File, ignore: bool, s: Script, c: Config, e: Config, p: Outcome) returns (d: Config)
    requires s.While? && Placed(file, ignore, s, c, false) && p.end == Completed && |p.rs| < |c.rs|
    requires Arrives(file, c, e, p, c.pos)
    ensures Reach(file, ignore, e, d)
    ensures Arrives(file, c, d, Join(p.trace, Effect(s, c.np, p.rs, p.fail, ignore)), EndPos(s, c, false))
    decreases |c.rs|, s, 0
  {
    hide NextWords, Next, Reach, Holds, Proper, IfDepth, LoopDepth, Len, Actual, Effect;
    ArrivedStands(file, c, e, p, c.pos);
    StandsHere(file, c);
    SameEffect(file, s, c, e, p.rs, p.fail, ignore);
    d := Simulate(file, ignore, s, e, false);
    Compose(file, c, e, d, p, Effect(s, c.np, p.rs, p.fail, ignore), c.pos, EndPos(s, c, false));
  }

  lemma SimulateWhile(file: File, ignore: bool, s: Script, c: Config) returns (d: Config)
    requires s.While? && Placed(file, ignore, s, c, false)
    ensures Reach(file, ignore, c, d)
    ensures Arrives(file, c, d, Effect(s, c.np, c.rs, c.np.fail, ignore), EndPos(s, c, false))
    decreases |c.rs|, s, 2
  {
    hide NextWords, Next, Reach, AtKeyword, Holds, Proper, IfDepth, LoopDepth, Len, Actual, BodyOutcome, Effect, Placed, EndPos,
      ItefEnabled, SameFrames, Ready, Waiting, Loaded, Ends, Join, Settled;
    Here(file, ignore, s, c);
    StepWhile(file, ignore, s, c);
    var on := ItefEnabled(c.np);
    var c1 := Next(file, ignore, c);
    d := c1;
    ReachSelf(file, ignore, c1);
    ReachStep(file, ignore, c, c1);
    if on && c.rs == [] {
      EffectWhile(s, c.np, c.rs, c.np.fail, ignore, Loop(LoopDo, false, 0, 0));
      assert c.trace + [] == c.trace;
    } else {
      var frame := DoFrame(s, on, c.rs, c.np.iendx, c.pos);
      EffectWhile(s, c.np, c.rs, c.np.fail, ignore, frame);
      var events := if on then [Event(s.test, c.np.fail)] else [];
      var o := BodyOutcome(s.body, IeTop(c.np), frame, c1.rs, c1.np.fail, ignore);
      var loops := Loops(c.np) + [frame];
      d := SimulateBody(file, ignore, KwDo, s.body, c1, Ifs(c.np), loops);
      EndsLater(file, c, c1, d, events, o, c1.pos + 1 + Len(s.body), Ifs(c.np), loops, EndPos(s, c, false));
      ReachTrans(file, ignore, c, c1, d);
      if o.end == Completed {
        var c2 := d;
        var p := Outcome(events + o.trace, o.rs, o.fail, Completed);
        d := SimulateDone(file, ignore, s, c, c2, p, frame);
        ReachTrans(file, ignore, c, c2, d);
      }
    }
  }

  /** Some commands, and then the body. */
  lemma EndsLater(file: File, c: Config, c1: Config, d: Config, events: seq<Event>, o: Outcome, q: int,
                  ifs: seq<Itef>, loops: seq<Loop>, r: int)
    requires c1.trace == c.trace + events && SameRoom(c, c1) && Ends(file, c1, d, o, q, ifs, loops)
    ensures Ends(file, c, d, Outcome(events + o.trace, o.rs, o.fail, o.end), q, ifs, loops)
    ensures Join(events, o) == Outcome(events + o.trace, o.rs, o.fail, o.end)
    ensures o.end != Completed ==> Arrives(file, c, d, Join(events, o), r)
  {
    hide Stands;
    assert c.trace + (events + o.trace) == (c.trace + events) + o.trace;
  }

  /** From `done` on: the loop once more, or what stands behind it. */
  lemma SimulateDone(file: File, ignore: bool, s: Script, c: Config, e: Config, p: Outcome, frame: Loop)
    returns (d: Config)
    requires s.While? && Placed(file, ignore, s, c, false) && p.end == Completed
    requires |p.rs| <= |c.rs| && (frame.enable ==> |p.rs| < |c.rs|)
    requires Ends(file, c, e, p, c.pos + 2 + Len(s.body), Ifs(c.np), Loops(c.np) + [frame])
    requires frame.state == LoopDo && frame.topoffs == c.pos
    ensures Reach(file, ignore, e, d)
    ensures Arrives(file, c, d, Join(p.trace, Effect(if frame.enable then s else s.next, c.np, p.rs, p.fail, ignore)),
                    EndPos(s, c, false))
    decreases |c.rs|, s, 1
  {
    hide NextWords, Next, Reach, Holds, Proper, IfDepth, LoopDepth, Len, Actual, Effect, Placed, EndPos, SameFrames, Ready,
      Waiting, Loaded;
    Here(file, ignore, s, c);
    DoneHere(file, ignore, s, c);
    StepDone(file, ignore, e, Ifs(c.np), Loops(c.np), frame, p.fail);
    var c3 := Next(file, ignore, e);
    EndsArrives(file, c, c3, p, c3.pos);
    if frame.enable {
      d := SimulateAgain(file, ignore, s, c, c3, p);
    } else {
      d := SimulateNext(file, ignore, s, c, c3, p);
    }
    ReachStep(file, ignore, e, d);
  }

  // ----- Whole scripts -----

  /** Some number of steps from `c` ends the run as `o` says. */
  ghost predicate Yields(file: File, ignore: bool, c: Config, o: Outcome) {
    exists n: nat :: Result(Run(file, ignore, c, n), c, o)
  }

  predicate Result(d: Config, c: Config, o: Outcome) {
    && d.trace == c.trace + o.trace && d.rs == o.rs
    && match o.end
       case Completed => d.status == Finished && d.np.fail == o.fail
       case CutOff => d.status == Starved
       case GaveUp => d.status == Stopped
  }

  /** Every well-formed script within the nesting limit runs as `Actual` says, under
      `set -e` and `set +e`, for every finite list of command results. */
  lemma ScriptRunsAsActual(file: File, s: Script, depth: nat, fd: int, rs: seq<bool>, ignore: bool)
    requires Proper(s, false) && Holds(file, ignore, s, 0) && |file| == Len(s)
    requires IfDepth(s) < depth && LoopDepth(s) < depth && fd >= 0
    ensures Yields(file, ignore, Init(depth, fd, rs), Actual(s, false, rs, false, ignore))
  {
    hide Run, Holds, Proper, Actual, Len, IfDepth, LoopDepth, NextWords;
    var c := Init(depth, fd, rs);
    var o := Effect(s, c.np, rs, false, ignore);
    var d := Simulate(file, ignore, s, c, false);
    if o.end == Completed {
      var e := Next(file, ignore, d);
      ReachSelf(file, ignore, e);
      ReachStep(file, ignore, d, e);
      ReachTrans(file, ignore, c, d, e);
    }
  }

  /** Runs are deterministic: what a run yields is unique. */
  lemma YieldsOnce(file: File, ignore: bool, c: Config, o: Outcome, p: Outcome)
    requires Yields(file, ignore, c, o) && Yields(file, ignore, c, p)
    ensures o.trace == p.trace && o.rs == p.rs && o.end == p.end && (o.end == Completed ==> o.fail == p.fail)
  {
    hide NextWords;
    var m: nat :| Result(Run(file, ignore, c, m), c, o);
    var n: nat :| Result(Run(file, ignore, c, n), c, p);
    var step := Machine(file, ignore);
    var d, e := Run(file, ignore, c, m), Run(file, ignore, c, n);
    if m <= n {
      IterateAdds(step, c, m, n - m);
      IterateFixed(step, d, n - m);
    } else {
      IterateAdds(step, c, n, m - n);
      IterateFixed(step, e, m - n);
    }
    assert d == e;
    assert d.trace[|c.trace|..] == o.trace;
    assert e.trace[|c.trace|..] == p.trace;
  }

  /** The machine does what is documented, on every list of results, exactly when no loop
      stands directly inside a loop and, under `set +e`, nothing to be executed stands behind a
      plain command on its line. */
  lemma ScriptRunsAsDocumented(file: File, s: Script, depth: nat, fd: int, ignore: bool)
    requires Proper(s, false) && Holds(file, ignore, s, 0) && |file| == Len(s)
    requires IfDepth(s) < depth && LoopDepth(s) < depth && fd >= 0
    ensures (forall rs :: Yields(file, ignore, Init(depth, fd, rs), Meaning(s, rs, false, ignore))) <==>
            !LoopInLoop(s) && (ignore ==> Alone(s))
  {
    hide Yields, Meaning, Actual, Holds, Proper, Len, IfDepth, LoopDepth, LoopInLoop, Alone;
    if !LoopInLoop(s) && (ignore ==> Alone(s)) {
      forall rs
        ensures Yields(file, ignore, Init(depth, fd, rs), Meaning(s, rs, false, ignore))
      {
        ScriptRunsAsActual(file, s, depth, fd, rs, ignore);
        AgreeWithoutNesting(s, rs, false, ignore);
      }
    } else {
      var rs := Telling(s, ignore);
      var c := Init(depth, fd, rs);
      ScriptRunsAsActual(file, s, depth, fd, rs, ignore);
      if Yields(file, ignore, c, Meaning(s, rs, false, ignore)) {
        YieldsOnce(file, ignore, c, Actual(s, false, rs, false, ignore), Meaning(s, rs, false, ignore));
      }
    }
  }

  // ----- Every script can be written -----

  /** A script in which every plain command ends its line. */
  predicate OneToALine(s: Script) {
    match s
    case End => true
    case Plain(_, _, rest, next) => rest == 0 && OneToALine(next)
    case If(_, _, thn, _, els, next) => OneToALine(thn) && OneToALine(els) && OneToALine(next)
    case While(_, _, body, next) => OneToALine(body) && OneToALine(next)
  }

  lemma {:induction false} OneToALineAlone(s: Script)
    requires OneToALine(s)
    ensures Alone(s)
  {
    match s
    case End =>
    case Plain(_, _, _, next) => OneToALineAlone(next);
    case If(_, _, thn, _, els, next) =>
      OneToALineAlone(thn);
      OneToALineAlone(els);
      OneToALineAlone(next);
    case While(_, _, body, next) =>
      OneToALineAlone(body);
      OneToALineAlone(next);
  }

  /** A script written with one command to a line. */
  function Print(s: Script): (file: File)
    ensures |file| == Len(s)
  {
    match s
    case End => []
    case Plain(joined, words, _, next) => (if joined then [] else [Cmd(words, true)]) + Print(next)
    case If(inverted, cond, thn, hasElse, els, next) =>
      [Cmd(IfWords(inverted, cond), true), Cmd([KwThen] + Joined(thn), true)]
      + (Print(thn)
         + ((if hasElse then [Cmd([KwElse] + Joined(els), true)] + Print(els) else [])
            + ([Cmd([KwFi], true)] + Print(next))))
    case While(until, test, body, next) =>
      [Cmd([LoopWord(until)] + test, true), Cmd([KwDo] + Joined(body), true)]
      + (Print(body) + ([Cmd([KwDone], true)] + Print(next)))
  }

  /** The file has the lines `text` from offset `p` on. */
  predicate Shows(file: File, text: File, p: nat) {
    p + |text| <= |file| && file[p..p + |text|] == text
  }

  lemma ShowsBoth(file: File, a: File, b: File, p: nat)
    requires Shows(file, a + b, p)
    ensures Shows(file, a, p) && Shows(file, b, p + |a|)
  {
    var text := file[p..p + |a + b|];
    assert text[..|a|] == a && text[|a|..] == b;
  }

  lemma ShowsFirst(file: File, a: File, p: nat)
    requires Shows(file, a, p) && a != []
    ensures file[p] == a[0]
  {
    assert file[p] == file[p..p + |a|][0];
  }

  lemma PrintedBlock(file: File, top: File, body: Script, rest: File, p: nat)
    requires |top| == 2 && Shows(file, top + (Print(body) + rest), p)
    ensures file[p] == top[0] && file[p + 1] == top[1]
    ensures Shows(file, Print(body), p + 2) && Shows(file, rest, p + 2 + |Print(body)|)
  {
    hide Print;
    ShowsBoth(file, top, Print(body) + rest, p);
    ShowsBoth(file, Print(body), rest, p + 2);
    ShowsFirst(file, top, p);
    assert file[p + 1] == file[p..p + 2][1];
  }

  lemma PrintWhile(s: Script)
    requires s.While?
    ensures Print(s) == [Cmd([LoopWord(s.until)] + s.test, true), Cmd([KwDo] + Joined(s.body), true)]
                        + (Print(s.body) + ([Cmd([KwDone], true)] + Print(s.next)))
  {
  }

  lemma PrintedWhile(file: File, s: Script, p: nat)
    requires s.While? && Shows(file, Print(s), p)
    ensures var q := p + 2 + Len(s.body);
            && q < |file| && file[p] == Cmd([LoopWord(s.until)] + s.test, true)
            && file[p + 1] == Cmd([KwDo] + Joined(s.body), true) && file[q] == Cmd([KwDone], true)
            && Shows(file, Print(s.body), p + 2) && Shows(file, Print(s.next), q + 1)
  {
    hide Shows, LoopWord, Joined, Print, Len;
    var top := [Cmd([LoopWord(s.until)] + s.test, true), Cmd([KwDo] + Joined(s.body), true)];
    var done := [Cmd([KwDone], true)];
    PrintWhile(s);
    PrintedBlock(file, top, s.body, done + Print(s.next), p);
    ShowsBoth(file, done, Print(s.next), p + 2 + Len(s.body));
    ShowsFirst(file, done, p + 2 + Len(s.body));
  }

  lemma PrintedTail(file: File, top: File, body: Script, mid: File, fi: File, rest: File, p: nat)
    requires |top| == 2 && |fi| == 1 && Shows(file, top + (Print(body) + (mid + (fi + rest))), p)
    ensures var q := p + 2 + |Print(body)|;
            && q + |mid| < |file| && file[p] == top[0] && file[p + 1] == top[1]
            && Shows(file, Print(body), p + 2) && Shows(file, mid, q)
            && file[q + |mid|] == fi[0] && Shows(file, rest, q + |mid| + 1)
  {
    hide Print, Shows;
    PrintedBlock(file, top, body, mid + (fi + rest), p);
    var q := p + 2 + |Print(body)|;
    ShowsBoth(file, mid, fi + rest, q);
    ShowsBoth(file, fi, rest, q + |mid|);
    ShowsFirst(file, fi, q + |mid|);
  }

  function PrintElse(s: Script): File
    requires s.If?
  {
    if s.hasElse then [Cmd([KwElse] + Joined(s.els), true)] + Print(s.els) else []
  }

  lemma PrintIf(s: Script)
    requires s.If?
    ensures Print(s) == [Cmd(IfWords(s.inverted, s.cond), true), Cmd([KwThen] + Joined(s.thn), true)]
                        + (Print(s.thn) + (PrintElse(s) + ([Cmd([KwFi], true)] + Print(s.next))))
  {
  }

  lemma PrintedIf(file: File, s: Script, p: nat)
    requires s.If? && Shows(file, Print(s), p)
    ensures var q := p + 2 + Len(s.thn);
            var r := if s.hasElse then q + 1 + Len(s.els) else q;
            && r < |file| && file[p] == Cmd(IfWords(s.inverted, s.cond), true)
            && file[p + 1] == Cmd([KwThen] + Joined(s.thn), true) && file[r] == Cmd([KwFi], true)
            && Shows(file, Print(s.thn), p + 2) && Shows(file, Print(s.next), r + 1)
            && (s.hasElse ==> file[q] == Cmd([KwElse] + Joined(s.els), true) && Shows(file, Print(s.els), q + 1))
  {
    hide Shows, IfWords, Joined, Print, Len;
    var top := [Cmd(IfWords(s.inverted, s.cond), true), Cmd([KwThen] + Joined(s.thn), true)];
    var mid := PrintElse(s);
    var fi := [Cmd([KwFi], true)];
    var q := p + 2 + Len(s.thn);
    PrintIf(s);
    PrintedTail(file, top, s.thn, mid, fi, Print(s.next), p);
    if s.hasElse {
      ShowsFirst(file, mid, q);
      ShowsBoth(file, [Cmd([KwElse] + Joined(s.els), true)], Print(s.els), q);
    }
  }

  /** A script printed into a file is held by it. */
  lemma {:induction false} PrintHolds(file: File, ignore: bool, s: Script, p: nat, first: bool)
    requires Shows(file, Print(s), p) && Proper(s, first) && (first ==> p > 0 && file[p - 1].eol)
    requires p <= |file| && (ignore ==> OneToALine(s))
    ensures Holds(file, ignore, s, p)
    decreases s
  {
    hide Shows, Print, Len, IfWords, PlainWords, TestWords, NextLine, Gap, Holds;
    match s
    case End =>
      EndHeld(file, ignore, p);
    case Plain(joined, words, _, next) =>
      PrintedPlain(file, s, p);
      PrintHolds(file, ignore, next, if joined then p else p + 1, false);
      EndOfLine(file, if joined then p - 1 else p, next);
      HoldsPlain(file, ignore, s, p);
    case If(_, _, thn, hasElse, els, next) =>
      var q := p + 2 + Len(thn);
      PrintedIf(file, s, p);
      PrintHolds(file, ignore, thn, p + 2, true);
      if hasElse { PrintHolds(file, ignore, els, q + 1, true); }
      PrintHolds(file, ignore, next, if hasElse then q + 2 + Len(els) else q + 1, false);
      HoldsIf(file, ignore, s, p);
    case While(_, _, body, next) =>
      PrintedWhile(file, s, p);
      PrintHolds(file, ignore, body, p + 2, true);
      PrintHolds(file, ignore, next, p + 3 + Len(body), false);
      HoldsWhile(file, ignore, s, p);
  }

  lemma EndHeld(file: File, ignore: bool, p: nat)
    requires p <= |file|
    ensures Holds(file, ignore, End, p)
  {
  }

  lemma HoldsPlain(file: File, ignore: bool, s: Script, p: nat)
    requires s.Plain?
    requires var q := if s.joined then p else p + 1;
             && 0 < q <= |file| && (s.joined || file[p].words == s.words)
             && (ignore ==> NextLine(file, q - 1) == q + Gap(s.next, s.rest)) && Holds(file, ignore, s.next, q)
    ensures Holds(file, ignore, s, p)
  {
    hide NextLine, Gap;
  }

  lemma HoldsIf(file: File, ignore: bool, s: Script, p: nat)
    requires s.If?
    requires var q := p + 2 + Len(s.thn);
             var r := if s.hasElse then q + 1 + Len(s.els) else q;
             && r < |file| && file[p].words == IfWords(s.inverted, s.cond)
             && file[p + 1].words == [KwThen] + Joined(s.thn) && Holds(file, ignore, s.thn, p + 2)
             && (s.hasElse ==> file[q].words == [KwElse] + Joined(s.els) && Holds(file, ignore, s.els, q + 1))
             && file[r].words == [KwFi] && Holds(file, ignore, s.next, r + 1)
    ensures Holds(file, ignore, s, p)
  {
    hide NextLine, Gap, Len, IfWords, Joined;
  }

  lemma HoldsWhile(file: File, ignore: bool, s: Script, p: nat)
    requires s.While?
    requires var q := p + 2 + Len(s.body);
             && q < |file| && file[p].words == [LoopWord(s.until)] + s.test
             && file[p + 1].words == [KwDo] + Joined(s.body) && Holds(file, ignore, s.body, p + 2)
             && file[q].words == [KwDone] && Holds(file, ignore, s.next, q + 1)
    ensures Holds(file, ignore, s, p)
  {
    hide NextLine, Gap, Len, LoopWord, Joined;
  }

  lemma EndOfLine(file: File, p: nat, next: Script)
    requires p < |file| && file[p].eol
    ensures NextLine(file, p) == p + 1 && Gap(next, 0) == 0
  {
  }

  lemma PrintedPlain(file: File, s: Script, p: nat)
    requires s.Plain? && Shows(file, Print(s), p)
    ensures if s.joined then Shows(file, Print(s.next), p)
            else p < |file| && file[p] == Cmd(s.words, true) && Shows(file, Print(s.next), p + 1)
  {
    hide Shows;
    var line := if s.joined then [] else [Cmd(s.words, true)];
    ShowsBoth(file, line, Print(s.next), p);
    if !s.joined { ShowsFirst(file, line, p); }
  }

  /** Printed with one command to a line, every script without a loop directly in a loop runs
      as documented. */
  lemma PrintedScriptRuns(s: Script, depth: nat, fd: int, rs: seq<bool>, ignore: bool)
    requires Proper(s, false) && !LoopInLoop(s) && (ignore ==> OneToALine(s))
    requires IfDepth(s) < depth && LoopDepth(s) < depth && fd >= 0
    ensures Yields(Print(s), ignore, Init(depth, fd, rs), Meaning(s, rs, false, ignore))
  {
    hide Yields, Meaning, Proper, Holds, LoopInLoop, Alone, OneToALine;
    var file := Print(s);
    assert file[0..|file|] == file;
    PrintHolds(file, ignore, s, 0, false);
    if ignore {
      OneToALineAlone(s);
    }
    ScriptRunsAsDocumented(file, s, depth, fd, ignore);
  }
}
