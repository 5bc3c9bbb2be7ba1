/**
  The script driver: nsh_script reads a line and hands it to nsh_parse, which feeds the
  commands of the line one by one to nsh_parse_command.  A script file is a sequence of
  commands, each marked when it ends its line; file offsets count commands.
*/
module NshScript {
  import opened NshControl
  import opened Iteration

  datatype Cmd = Cmd(words: Words, eol: bool)

  type File = seq<Cmd>

  /** The offset of the line after the one that holds offset `pos`. */
  function NextLine(file: File, pos: nat): (r: nat)
    requires pos < |file|
    ensures pos < r <= |file|
    ensures forall i :: pos <= i < r - 1 ==> !file[i].eol
    ensures r < |file| ==> file[r - 1].eol
    decreases |file| - pos
  {
    if file[pos].eol || pos + 1 == |file| then pos + 1 else NextLine(file, pos + 1)
  }

  datatype Status = Running | Finished | Starved | Stopped

  /** `bol` says that a line is to be read next; otherwise `pos` is inside the line in the buffer. */
  datatype Config = Config(np: Np, pos: int, bol: bool, rs: seq<bool>, trace: seq<Event>, status: Status)

  /** The state in which the command at `pos` is parsed: nsh_script records the offset of a
      line it reads, nsh_parse the offset of the command inside the line. */
  function Loaded(file: File, c: Config): (np: Np)
    requires 0 <= c.pos < |file|
    requires Shaped(c.np)
    ensures Shaped(np)
    ensures np.foffs + np.loffs == c.pos
  {
    if c.bol then c.np.(foffs := c.pos, loffs := 0, fpos := NextLine(file, c.pos), jump := false)
    else c.np.(loffs := c.pos - c.np.foffs)
  }

  /** Only a command that jumps moves the read position of the script. */
  lemma SeekJumps(np: Np, words: Words, rs: seq<bool>)
    requires Shaped(np) && !np.jump
    ensures var r := ParseCommand(np, words, rs).np; !r.jump ==> r.fpos == np.fpos
  {
    hide FeedItef, SaveResult, Execute, CmdEnabled;
  }

  /** One command, with words `words`, at the current position of a script.  `ignore` is the
      option set by `set +e`. */
  function NextWords(file: File, ignore: bool, c: Config, words: Words): (r: Config)
    requires Shaped(c.np) && 0 <= c.pos < |file|
    ensures Shaped(r.np) && |r.np.ie| == |c.np.ie| && |r.np.lp| == |c.np.lp|
  {
    var s := ParseCommand(Loaded(file, c), words, c.rs);
    var c' := c.(np := s.np, rs := s.rs, trace := c.trace + s.events);
    if s.starved then c'.(status := Starved)
    else if !s.ok && !ignore then c'.(status := Stopped)
    else if !s.ok || s.np.jump || file[c.pos].eol || c.pos + 1 == |file| then
      c'.(pos := s.np.fpos, bol := true)
    else c'.(pos := c.pos + 1, bol := false)
  }

  /** One command of a script. */
  function Next(file: File, ignore: bool, c: Config): (r: Config)
    ensures Shaped(c.np) ==> Shaped(r.np) && |r.np.ie| == |c.np.ie| && |r.np.lp| == |c.np.lp|
  {
    if c.status != Running || !Shaped(c.np) then c
    else if c.pos < 0 || c.pos >= |file| then c.(status := Finished)
    else NextWords(file, ignore, c, file[c.pos].words)
  }

  function Machine(file: File, ignore: bool): (step: Config -> Config)
  {
    c => Next(file, ignore, c)
  }

  /** The parser state of a new session, all of it zero, for any nesting limit. */
  function Start(depth: nat, fd: int): (np: Np)
    requires depth >= 1
    ensures Shaped(np)
  {
    Np(seq(depth, _ => Itef(ItefNormal, false, false, false)), 0,
       seq(depth, _ => Loop(LoopNormal, false, 0, 0)), 0, false, false, fd, 0, 0, 0)
  }

  /** A script that has just been opened, and the results its commands will report. */
  function Init(depth: nat, fd: int, rs: seq<bool>): Config
    requires depth >= 1
  {
    Config(Start(depth, fd), 0, true, rs, [], Running)
  }

  /** A script opened on descriptor `fd` in a session that may already be in use. */
  function Opened(np: Np, fd: int, rs: seq<bool>): Config {
    Config(np.(fd := fd, fpos := 0), 0, true, rs, [], Running)
  }

  /** The state after `n` commands. */
  function Run(file: File, ignore: bool, c: Config, n: nat): (r: Config)
  {
    Iterate(Machine(file, ignore), c, n)
  }

  lemma RunNext(file: File, ignore: bool, c: Config, n: nat)
    ensures Run(file, ignore, c, n + 1) == Next(file, ignore, Run(file, ignore, c, n))
  {
    hide Next;
    var step := Machine(file, ignore);
    IterateAdds(step, c, n, 1);
    assert Iterate(step, Run(file, ignore, c, n), 1) == Iterate(step, step(Run(file, ignore, c, n)), 0);
  }
}
