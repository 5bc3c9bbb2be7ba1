/**
  The script driver on the bytes of a script.  nsh_script reads a line at a file offset,
  nsh_parse notes how far into the line a command begins, and `done` seeks to the sum of the
  two.  Where no loop is opened by a command with quotation marks in it, this driver does what
  `NshScript` does on the commands of the text, step by step.
*/
module NshBytes {
  import opened Basics
  import opened NshControl
  import opened NshScript
  import opened NshSemantics
  import opened NshRefinement
  import opened NshTextScript
  import opened Iteration
  import NshText
  import NshLine

  // ----- Lines of a text -----

  function LineEnd(text: string, pos: nat): (e: nat)
    requires pos <= |text|
    ensures pos <= e <= |text|
  {
    pos + LineLength(text[pos..])
  }

  /** What is left at `pos` of a line. */
  function LineAt(text: string, pos: nat): string
    requires pos <= |text|
  {
    text[pos..LineEnd(text, pos)]
  }

  /** The offset of the next line. */
  function Below(text: string, pos: nat): (r: nat)
    requires pos <= |text|
    ensures pos <= r <= |text|
  {
    if LineEnd(text, pos) < |text| then LineEnd(text, pos) + 1 else |text|
  }

  lemma LineFrom(text: string, pos: nat, k: nat)
    requires pos <= |text| && k <= |LineAt(text, pos)|
    ensures LineAt(text, pos + k) == LineAt(text, pos)[k..] && Below(text, pos + k) == Below(text, pos)
  {
    hide LineLength;
    var e := LineEnd(text, pos);
    assert e < |text| ==> text[e] == text[pos..][e - pos];
    assert forall i :: pos <= i < e ==> text[i] == text[pos..][i - pos];
    var rest := text[pos + k..];
    var n := LineLength(rest);
    assert n < |rest| ==> rest[n] == text[pos + k + n];
    assert forall i :: 0 <= i < n ==> rest[i] == text[pos + k + i];
    assert pos + k + n == e;
  }

  // ----- The driver -----

  /** The parser state for the command at `c.pos`.  What nsh_parse notes is the place behind the
      last quotation mark of the command. */
  function LoadedAt(text: string, c: Config): (np: Np)
    requires Shaped(c.np) && 0 <= c.pos <= |text|
    ensures Shaped(np)
  {
    var behind := NshLine.Behind(LineAt(text, c.pos));
    if c.bol then c.np.(foffs := c.pos, loffs := behind, fpos := Below(text, c.pos), jump := false)
    else c.np.(loffs := c.pos - c.np.foffs + behind)
  }

  /** One command of the line at `c.pos`. */
  function Advance(text: string, w: NshText.World, ignore: bool, c: Config): (r: Config)
    requires Shaped(c.np) && 0 <= c.pos <= |text|
    ensures Shaped(r.np)
  {
    var np := LoadedAt(text, c);
    var p := NshText.Chop(LineAt(text, c.pos), NshText.Outside);
    if p.done == [] && p.last.None? then
      if ignore then c.(np := np, pos := np.fpos, bol := true) else c.(np := np, status := Stopped)
    else
      var cmd := NshText.Commands(p)[0];
      var s := ParseCommand(np, WordsOf(NshText.Args(cmd, w)), c.rs);
      var c' := c.(np := s.np, rs := s.rs, trace := c.trace + s.events);
      if s.starved then c'.(status := Starved)
      else if !s.ok && !ignore then c'.(status := Stopped)
      else if !s.ok || s.np.jump || p.done == [] then c'.(pos := s.np.fpos, bol := true)
      else c'.(pos := c.pos + |cmd| + 1, bol := false)
  }

  function NextByte(text: string, w: NshText.World, ignore: bool, c: Config): Config {
    if c.status != Running || !Shaped(c.np) then c
    else if c.pos < 0 || c.pos > |text| || (c.bol && c.pos == |text|) then c.(status := Finished)
    else Advance(text, w, ignore, c)
  }

  function RunBytes(text: string, w: NshText.World, ignore: bool, c: Config, n: nat): Config {
    Iterate(d => NextByte(text, w, ignore, d), c, n)
  }

  ghost predicate YieldsBytes(text: string, w: NshText.World, ignore: bool, c: Config, o: Outcome) {
    exists n: nat :: Result(RunBytes(text, w, ignore, c, n), c, o)
  }

  // ----- Offsets in the text and in the list of commands -----

  datatype Both = Both(text: string, w: NshText.World, file: File)

  /** Reading on at offset `x` of the text gives the commands from `y` on. */
  ghost predicate Spot(t: Both, x: int, y: int) {
    && 0 <= x <= |t.text| && 0 <= y <= |t.file|
    && ReadText(t.text[x..], t.w) == t.file[y..]
    && SeekableText(t.text[x..], t.w) && ClosedText(t.text[x..])
  }

  /** The same inside a line, of which nothing may be left. */
  ghost predicate Midway(t: Both, x: int, y: int) {
    && 0 <= x <= |t.text|
    && var line := LineAt(t.text, x);
       var n := |LineCommands(line)|;
       && NshText.Chop(line, NshText.Outside).last.Some? && Seekable(LineCommands(line), t.w)
       && 0 <= y <= y + n <= |t.file| && t.file[y..y + n] == ReadLine(line, t.w)
       && Spot(t, Below(t.text, x), y + n)
  }

  /** A text is read line by line from any place in it. */
  lemma ReadOn(text: string, x: nat, w: NshText.World)
    requires x < |text|
    ensures var line, below := LineAt(text, x), text[Below(text, x)..];
            && ReadText(text[x..], w) == ReadLine(line, w) + ReadText(below, w)
            && (SeekableText(text[x..], w) <==> Seekable(LineCommands(line), w) && SeekableText(below, w))
            && (ClosedText(text[x..]) <==> NshText.Chop(line, NshText.Outside).last.Some? && ClosedText(below))
  {
    hide ReadLine, Seekable, NshText.Chop, LineCommands, LineLength;
    var rest, n := text[x..], LineLength(text[x..]);
    var below := text[Below(text, x)..];
    assert rest[..n] == LineAt(text, x);
    if n < |rest| {
      assert rest[n + 1..] == below;
    } else {
      assert below == [];
      ReadNothing(w);
    }
  }

  lemma SpotMidway(t: Both, x: int, y: int)
    requires 0 <= x < |t.text| && 0 <= y <= |t.file|
    ensures Spot(t, x, y) <==> Midway(t, x, y)
  {
    hide ReadLine, Seekable, NshText.Chop, LineCommands, ReadText, SeekableText, ClosedText, LineAt, Below;
    ReadOn(t.text, x, t.w);
    var line, below := LineAt(t.text, x), t.text[Below(t.text, x)..];
    Divide(ReadLine(line, t.w), ReadText(below, t.w), t.file[y..]);
    ReadLineLength(line, t.w);
    var k := y + |LineCommands(line)|;
    if k <= |t.file| {
      assert t.file[y..][k - y..] == t.file[k..] && t.file[y..][..k - y] == t.file[y..k];
    }
  }

  lemma Divide(a: File, b: File, c: File)
    ensures a + b == c <==> |a| <= |c| && a == c[..|a|] && b == c[|a|..]
  {
  }

  lemma ReadLineLength(line: string, w: NshText.World)
    ensures |ReadLine(line, w)| == |LineCommands(line)|
  {
  }

  lemma {:induction false} ReadCommandsAre(commands: seq<string>, w: NshText.World, i: nat)
    requires i < |commands|
    ensures ReadCommands(commands, w)[i] == Cmd(WordsOf(NshText.Args(commands[i], w)), i == |commands| - 1)
  {
    hide NshText.Args, WordsOf;
    if i > 0 {
      ReadCommandsAre(commands[1..], w, i - 1);
    }
  }

  /** The command at hand, and the line it is in. */
  lemma MidwayHere(t: Both, x: int, y: int)
    requires Midway(t, x, y)
    ensures var commands := LineCommands(LineAt(t.text, x));
            && 0 < |commands| && 0 <= y < |t.file|
            && t.file[y] == Cmd(WordsOf(NshText.Args(commands[0], t.w)), |commands| == 1)
            && NextLine(t.file, y) == y + |commands|
  {
    hide NshText.Args, NshText.Chop, WordsOf, Seekable, Spot, NextLine, LineAt;
    var commands := LineCommands(LineAt(t.text, x));
    var n := |commands|;
    var line := t.file[y..y + n];
    forall i | 0 <= i < n
      ensures line[i] == Cmd(WordsOf(NshText.Args(commands[i], t.w)), i == n - 1)
    {
      ReadCommandsAre(commands, t.w, i);
    }
    assert line[0] == t.file[y];
    LineEndsAt(t.file, y, line);
  }

  lemma {:induction false} LineEndsAt(file: File, y: nat, line: File)
    requires line != [] && y + |line| <= |file| && line == file[y..y + |line|]
    requires forall i :: 0 <= i < |line| ==> line[i].eol == (i == |line| - 1)
    ensures NextLine(file, y) == y + |line|
    decreases |line|
  {
    assert file[y] == line[0];
    if |line| > 1 {
      LineEndsAt(file, y + 1, line[1..]);
    }
  }

  /** Behind a semicolon. */
  lemma MidwayNext(t: Both, x: int, y: int)
    requires Midway(t, x, y) && NshText.Chop(LineAt(t.text, x), NshText.Outside).done != []
    ensures Midway(t, x + |LineCommands(LineAt(t.text, x))[0]| + 1, y + 1)
  {
    hide NshText.Chop, Spot, LineAt, Below, ReadCommands, Seekable;
    var line := LineAt(t.text, x);
    var p := NshText.Chop(line, NshText.Outside);
    NshLine.ChopFirst(line, NshText.Outside);
    var k := |p.done[0]| + 1;
    LineFrom(t.text, x, k);
    LineInText(t.text, x);
    var commands, n := LineCommands(line), |LineCommands(line)|;
    assert LineCommands(line[k..]) == commands[1..];
    SeekableLater(commands, t.w);
    ReadLater(commands, t.w);
    assert t.file[y..y + n][1..] == t.file[y + 1..y + n];
  }

  lemma LineInText(text: string, x: nat)
    requires x <= |text|
    ensures x + |LineAt(text, x)| <= |text|
  {
  }

  lemma SeekableLater(commands: seq<string>, w: NshText.World)
    requires commands != [] && Seekable(commands, w)
    ensures Seekable(commands[1..], w)
  {
    hide NshText.Args, NshLine.QuoteFirst, WordsOf;
    var later := commands[1..];
    assert forall i :: 0 <= i < |later| ==> later[i] == commands[i + 1];
  }

  lemma ReadLater(commands: seq<string>, w: NshText.World)
    requires commands != []
    ensures ReadCommands(commands[1..], w) == ReadCommands(commands, w)[1..]
  {
    hide NshText.Args, WordsOf;
  }

  // ----- The parser does not look at offsets -----

  ghost predicate FrameAlike(t: Both, b: Loop, c: Loop) {
    b.state == c.state && b.enable == c.enable && b.iendx == c.iendx && Spot(t, b.topoffs, c.topoffs)
  }

  /** Two parser states that differ in how they count offsets only. */
  ghost predicate Alike(t: Both, b: Np, c: Np) {
    && b.ie == c.ie && b.iendx == c.iendx && b.lpndx == c.lpndx
    && |b.lp| == |c.lp| && (forall i :: 0 <= i < |b.lp| ==> FrameAlike(t, b.lp[i], c.lp[i]))
    && b.fail == c.fail && b.jump == c.jump && b.fd == c.fd
    && (b.foffs < 0 <==> c.foffs < 0) && Spot(t, b.fpos, c.fpos)
  }

  ghost predicate FedAlike(t: Both, b: Fed, c: Fed) {
    Alike(t, b.np, c.np) && b.ok == c.ok && b.words == c.words
  }

  lemma LoopErrorAlike(t: Both, b: Np, c: Np)
    requires Alike(t, b, c) && Shaped(b) && Shaped(c) && Spot(t, 0, 0)
    ensures FedAlike(t, LoopError(b), LoopError(c))
  {
    hide Spot;
  }

  lemma EnabledAlike(t: Both, b: Np, c: Np)
    requires Alike(t, b, c) && Shaped(b) && Shaped(c)
    ensures CmdEnabled(b) == CmdEnabled(c)
  {
    hide Spot;
  }

  lemma FeedWhileAlike(t: Both, b: Np, c: Np, state: LoopState, rest: Words)
    requires Alike(t, b, c) && Shaped(b) && Shaped(c) && Spot(t, 0, 0) && Spot(t, b.foffs + b.loffs, c.foffs + c.loffs)
    ensures FedAlike(t, FeedWhile(b, state, rest), FeedWhile(c, state, rest))
  {
    hide Spot, LoopError, CmdEnabled;
    LoopErrorAlike(t, b, c);
    EnabledAlike(t, b, c);
  }

  lemma FeedDoAlike(t: Both, b: Np, c: Np, rest: Words)
    requires Alike(t, b, c) && Shaped(b) && Shaped(c) && Spot(t, 0, 0)
    ensures FedAlike(t, FeedDo(b, rest), FeedDo(c, rest)) && FedAlike(t, FeedDone(b, rest), FeedDone(c, rest))
  {
    hide Spot, LoopError;
    LoopErrorAlike(t, b, c);
  }

  lemma FeedLoopAlike(t: Both, b: Np, c: Np, words: Words)
    requires Alike(t, b, c) && Shaped(b) && Shaped(c) && Spot(t, 0, 0)
    requires OpensLoop(words) ==> Spot(t, b.foffs + b.loffs, c.foffs + c.loffs)
    ensures FedAlike(t, FeedLoop(b, words), FeedLoop(c, words))
  {
    hide Spot, LoopError, FeedWhile, FeedDo, FeedDone;
    LoopErrorAlike(t, b, c);
    if OpensLoop(words) {
      FeedWhileAlike(t, b, c, LoopWhile, words[1..]);
      FeedWhileAlike(t, b, c, LoopUntil, words[1..]);
    } else if words != [] {
      FeedDoAlike(t, b, c, words[1..]);
    }
  }

  lemma FeedItefAlike(t: Both, b: Np, c: Np, words: Words)
    requires Alike(t, b, c) && Shaped(b) && Shaped(c)
    ensures FedAlike(t, FeedItef(b, words), FeedItef(c, words))
  {
    hide Spot, CmdEnabled;
    EnabledAlike(t, b, c);
  }

  lemma SaveResultAlike(t: Both, b: Np, c: Np, failed: bool)
    requires Alike(t, b, c) && Shaped(b) && Shaped(c)
    ensures Alike(t, SaveResult(b, failed).0, SaveResult(c, failed).0)
    ensures SaveResult(b, failed).1 == SaveResult(c, failed).1
  {
    hide Spot;
  }

  lemma BreakAlike(t: Both, b: Np, c: Np)
    requires Alike(t, b, c) && Shaped(b) && Shaped(c)
    ensures Alike(t, Break(b), Break(c))
  {
    hide Spot;
  }

  ghost predicate StepAlike(t: Both, b: Step, c: Step) {
    Alike(t, b.np, c.np) && b.ok == c.ok && b.rs == c.rs && b.events == c.events && b.starved == c.starved
  }

  lemma ExecuteAlike(t: Both, b: Np, c: Np, argv: Words, rs: seq<bool>)
    requires Alike(t, b, c) && Shaped(b) && Shaped(c) && argv != []
    ensures StepAlike(t, Execute(b, argv, rs), Execute(c, argv, rs))
  {
    hide Spot, SaveResult, Break;
    BreakAlike(t, b, c);
    SaveResultAlike(t, Break(b), Break(c), false);
    if rs != [] {
      SaveResultAlike(t, b, c, rs[0]);
    }
  }

  lemma ParseAlike(t: Both, b: Np, c: Np, words: Words, rs: seq<bool>)
    requires Alike(t, b, c) && Shaped(b) && Shaped(c) && Spot(t, 0, 0)
    requires OpensLoop(words) ==> Spot(t, b.foffs + b.loffs, c.foffs + c.loffs)
    ensures StepAlike(t, ParseCommand(b, words, rs), ParseCommand(c, words, rs))
  {
    hide Spot, Alike, FeedLoop, FeedItef, SaveResult, Execute, CmdEnabled;
    FeedLoopAlike(t, b, c, words);
    var fb, fc := FeedLoop(b, words), FeedLoop(c, words);
    if fb.ok {
      FeedItefAlike(t, fb.np, fc.np, fb.words);
      var gb, gc := FeedItef(fb.np, fb.words), FeedItef(fc.np, fc.words);
      EnabledAlike(t, gb.np, gc.np);
      if !gb.ok {
        SaveResultAlike(t, gb.np, gc.np, true);
      } else if gb.words != [] {
        ExecuteAlike(t, gb.np, gc.np, gb.words, rs);
      }
    } else {
      SaveResultAlike(t, fb.np, fc.np, true);
    }
  }

  // ----- Step by step -----

  ghost predicate Follows(t: Both, b: Config, c: Config) {
    && b.status == c.status && b.rs == c.rs && b.trace == c.trace && b.bol == c.bol
    && Shaped(b.np) && Shaped(c.np) && Alike(t, b.np, c.np)
    && (c.status == Running ==> if c.bol then Spot(t, b.pos, c.pos) else Midway(t, b.pos, c.pos))
  }

  /** At a command. */
  ghost predicate Here(t: Both, b: Config, c: Config) {
    Follows(t, b, c) && c.status == Running && Midway(t, b.pos, c.pos) && 0 <= c.pos < |t.file|
  }

  lemma LoadedAlike(t: Both, b: Config, c: Config)
    requires Here(t, b, c)
    ensures Alike(t, LoadedAt(t.text, b), Loaded(t.file, c))
    ensures var np := LoadedAt(t.text, b); np.foffs + np.loffs == b.pos + NshLine.Behind(LineAt(t.text, b.pos))
  {
    hide Spot, NshLine.Behind, LineCommands, ReadLine, Seekable, NextLine;
    MidwayHere(t, b.pos, c.pos);
  }

  /** A loop that may go back goes back to its own command. */
  lemma LoopSpot(t: Both, x: int, y: int)
    requires Midway(t, x, y) && 0 <= y < |t.file| && OpensLoop(t.file[y].words)
    ensures NshLine.Behind(LineAt(t.text, x)) == 0 && Spot(t, x, y)
  {
    hide Spot, NshLine.Behind, NshLine.QuoteFirst, NshText.Chop, ReadCommands, NshText.Args, WordsOf;
    MidwayHere(t, x, y);
    var line := LineAt(t.text, x);
    var commands := LineCommands(line);
    assert t.file[y].words == WordsOf(NshText.Args(commands[0], t.w));
    assert !NshLine.QuoteFirst(commands[0]);
    NshLine.CommandAt(line, 0);
    assert line[0..] == line;
    NshLine.BehindNone(line);
    WordsOfNothing(t.w);
    assert x == |t.text| ==> line == [];
    SpotMidway(t, x, y);
  }

  lemma WordsOfNothing(w: NshText.World)
    ensures WordsOf(NshText.Args([], w)) == []
  {
  }

  lemma StepFollows(t: Both, ignore: bool, b: Config, c: Config)
    requires Here(t, b, c) && Spot(t, 0, 0)
    ensures Follows(t, Advance(t.text, t.w, ignore, b), Next(t.file, ignore, c))
  {
    hide Spot, Midway, Alike, LoadedAt, Loaded, ParseCommand, NshText.Chop, NshText.Args, WordsOf, LineAt, NextLine;
    MidwayHere(t, b.pos, c.pos);
    MidwayClosed(t, b.pos, c.pos);
    MidwayBound(t, b.pos, c.pos);
    var words := t.file[c.pos].words;
    LoadedAlike(t, b, c);
    var nb, nc := LoadedAt(t.text, b), Loaded(t.file, c);
    if OpensLoop(words) {
      LoopSpot(t, b.pos, c.pos);
    }
    ParseAlike(t, nb, nc, words, c.rs);
    AlikeSpot(t, ParseCommand(nb, words, c.rs).np, ParseCommand(nc, words, c.rs).np);
    var p := NshText.Chop(LineAt(t.text, b.pos), NshText.Outside);
    if p.done != [] {
      MidwayNext(t, b.pos, c.pos);
    }
  }

  lemma MidwayClosed(t: Both, x: int, y: int)
    requires Midway(t, x, y)
    ensures var p := NshText.Chop(LineAt(t.text, x), NshText.Outside);
            p.last.Some? && LineCommands(LineAt(t.text, x)) == NshText.Commands(p) && |NshText.Commands(p)| == |p.done| + 1
    ensures y + 1 == |t.file| ==> NshText.Chop(LineAt(t.text, x), NshText.Outside).done == []
  {
    hide NshText.Chop, Spot, LineAt;
  }

  lemma AlikeSpot(t: Both, b: Np, c: Np)
    requires Alike(t, b, c)
    ensures Spot(t, b.fpos, c.fpos) && b.jump == c.jump
  {
    hide Spot;
  }

  lemma NextFollows(t: Both, ignore: bool, b: Config, c: Config)
    requires Follows(t, b, c) && Spot(t, 0, 0)
    ensures Follows(t, NextByte(t.text, t.w, ignore, b), Next(t.file, ignore, c))
  {
    hide Spot, Midway, Alike, Advance, NextWords;
    if c.status == Running {
      if c.bol {
        SpotEnds(t, b.pos, c.pos);
        if b.pos < |t.text| {
          SpotMidway(t, b.pos, c.pos);
          StepFollows(t, ignore, b, c);
        }
      } else {
        MidwayHere(t, b.pos, c.pos);
        MidwayBound(t, b.pos, c.pos);
        StepFollows(t, ignore, b, c);
      }
    }
  }

  lemma MidwayBound(t: Both, x: int, y: int)
    requires Midway(t, x, y)
    ensures 0 <= x <= |t.text|
  {
  }

  lemma SpotEnds(t: Both, x: int, y: int)
    requires Spot(t, x, y)
    ensures 0 <= x <= |t.text| && 0 <= y <= |t.file| && (x == |t.text| <==> y == |t.file|)
  {
    if x < |t.text| {
      SpotMidway(t, x, y);
      MidwayHere(t, x, y);
    }
  }

  lemma {:induction false} RunFollows(t: Both, ignore: bool, b: Config, c: Config, n: nat)
    requires Follows(t, b, c) && Spot(t, 0, 0)
    ensures Follows(t, RunBytes(t.text, t.w, ignore, b, n), Run(t.file, ignore, c, n))
    decreases n
  {
    hide Follows, Spot, NextByte, Next;
    if n > 0 {
      NextFollows(t, ignore, b, c);
      RunFollows(t, ignore, NextByte(t.text, t.w, ignore, b), Next(t.file, ignore, c), n - 1);
    }
  }

  /** On the bytes of a text a run yields what it yields on its commands. */
  lemma BytesYieldSame(text: string, w: NshText.World, ignore: bool, depth: nat, fd: int, rs: seq<bool>, o: Outcome)
    requires SeekableText(text, w) && ClosedText(text) && depth >= 1
    ensures var c := Init(depth, fd, rs);
            YieldsBytes(text, w, ignore, c, o) <==> Yields(ReadText(text, w), ignore, c, o)
  {
    hide ReadText, SeekableText, ClosedText, RunBytes, Run, Midway;
    var t := Both(text, w, ReadText(text, w));
    var c := Init(depth, fd, rs);
    assert text[0..] == text && t.file[0..] == t.file;
    assert Follows(t, c, c);
    forall n: nat
      ensures Result(RunBytes(text, w, ignore, c, n), c, o) <==> Result(Run(t.file, ignore, c, n), c, o)
    {
      RunFollows(t, ignore, c, c, n);
    }
  }

  /** A script given as text runs as documented on every list of results exactly if no loop
      stands directly inside a loop and, under `set +e`, nothing to be executed stands behind a
      plain command on its line. */
  lemma TextRunsAsDocumented(text: string, s: Script, depth: nat, fd: int, ignore: bool, w: NshText.World)
    requires SeekableText(text, w) && ClosedText(text)
    requires Proper(s, false) && Holds(ReadText(text, w), ignore, s, 0) && |ReadText(text, w)| == Len(s)
    requires IfDepth(s) < depth && LoopDepth(s) < depth && fd >= 0
    ensures (forall rs :: YieldsBytes(text, w, ignore, Init(depth, fd, rs), Meaning(s, rs, false, ignore))) <==>
            !LoopInLoop(s) && (ignore ==> Alone(s))
  {
    hide ReadText, SeekableText, ClosedText, YieldsBytes, Yields, Meaning, Holds, Proper, Len, IfDepth, LoopDepth, LoopInLoop,
      Alone;
    ScriptRunsAsDocumented(ReadText(text, w), s, depth, fd, ignore);
    forall rs
      ensures var c := Init(depth, fd, rs); var o := Meaning(s, rs, false, ignore);
              YieldsBytes(text, w, ignore, c, o) <==> Yields(ReadText(text, w), ignore, c, o)
    {
      BytesYieldSame(text, w, ignore, depth, fd, rs, Meaning(s, rs, false, ignore));
    }
  }

  // ----- Loops with quotation marks -----

  lemma OpenedAt(np: Np, words: Words, rs: seq<bool>)
    requires Shaped(np) && OpensLoop(words)
    ensures var r := ParseCommand(np, words, rs).np;
            r.lpndx > np.lpndx ==> LpTop(r).topoffs == np.foffs + np.loffs
  {
    hide FeedItef, CmdEnabled;
    var fed := FeedWhile(np, if words[0] == KwWhile then LoopWhile else LoopUntil, words[1..]);
    assert fed == FeedLoop(np, words);
    ItefKeepsLoops(fed.np, fed.words);
  }

  lemma ItefKeepsLoops(np: Np, words: Words)
    requires Shaped(np)
    ensures var r := FeedItef(np, words).np; r.lp == np.lp && r.lpndx == np.lpndx
  {
    hide CmdEnabled;
  }

  /** What a new loop will go back to.  The line there has the loop and the commands behind it
      exactly if the command that opens the loop has no quotation mark before a comment. */
  lemma LoopGoesBack(text: string, w: NshText.World, ignore: bool, c: Config)
    requires Shaped(c.np) && 0 <= c.pos <= |text| && LineCommands(LineAt(text, c.pos)) != []
    requires OpensLoop(WordsOf(NshText.Args(LineCommands(LineAt(text, c.pos))[0], w)))
    requires Advance(text, w, ignore, c).np.lpndx > c.np.lpndx
    ensures var top := LpTop(Advance(text, w, ignore, c).np).topoffs;
            var commands := LineCommands(LineAt(text, c.pos));
            && c.pos <= top <= LineEnd(text, c.pos) && Below(text, top) == Below(text, c.pos)
            && (top == c.pos <==> !NshLine.QuoteFirst(commands[0]))
            && (LineCommands(LineAt(text, top)) == commands <==> !NshLine.QuoteFirst(commands[0]))
  {
    hide NshText.Chop, ParseCommand, NshLine.QuoteFirst, NshText.Args, WordsOf, LineLength, NshLine.Behind;
    var line := LineAt(text, c.pos);
    var commands := LineCommands(line);
    var np := LoadedAt(text, c);
    OpenedAt(np, WordsOf(NshText.Args(commands[0], w)), c.rs);
    var k := NshLine.Behind(line);
    assert line[0..] == line;
    assert NshLine.NotedAt(line, 0) == k;
    NshLine.NotedIsRight(line, 0);
    NshLine.BehindBound(line);
    LineFrom(text, c.pos, k);
    assert commands[0..] == commands;
  }
}
