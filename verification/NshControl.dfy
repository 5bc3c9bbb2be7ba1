/**
  The control part of the NuttShell parser: if-then-else-fi and while/until-do-done are
  not parsed into a tree.  Every command is fed to two bounded stacks, and `done` loops by
  seeking the script file back to an offset saved on the loop stack.

  This module gives each operation as a function on the parser state; class `Parser` of
  `NshParser` holds the state in fields and arrays, as the C structure does, and every method
  is proved to do what the function says.
*/
module NshControl {

  /** A word of a command, told apart from the words that the parser compares it with. */
  datatype Word =
    | KwWhile | KwUntil | KwDo | KwDone
    | KwIf | KwNot | KwThen | KwElse | KwFi
    | KwBreak
    | Text(text: string)

  /** The words of one command; no words at all is a blank or comment line. */
  type Words = seq<Word>

  datatype ItefState = ItefNormal | ItefIf | ItefThen | ItefElse
  datatype Itef = Itef(state: ItefState, ifcond: bool, disabled: bool, inverted: bool)

  datatype LoopState = LoopNormal | LoopWhile | LoopUntil | LoopDo
  datatype Loop = Loop(state: LoopState, enable: bool, iendx: nat, topoffs: int)

  /** The parser state; `fpos` is the read position of the script file `fd`. */
  datatype Np = Np(
    ie: seq<Itef>, iendx: nat,
    lp: seq<Loop>, lpndx: nat,
    fail: bool, jump: bool,
    fd: int, foffs: int, loffs: int, fpos: int)

  /** Every index, and every if index saved with a loop frame, names a slot. */
  predicate Shaped(np: Np) {
    && np.iendx < |np.ie|
    && np.lpndx < |np.lp|
    && forall i :: 0 <= i < |np.lp| ==> np.lp[i].iendx < |np.ie|
  }

  /** The fields that only the script driver writes, and the stack sizes, are the same. */
  predicate Kept(np: Np, r: Np) {
    |r.ie| == |np.ie| && |r.lp| == |np.lp| && r.fd == np.fd && r.foffs == np.foffs && r.loffs == np.loffs
  }

  /** The script is neither moved nor told to jump. */
  predicate Stays(np: Np, r: Np) {
    r.jump == np.jump && r.fpos == np.fpos
  }

  function IeTop(np: Np): Itef requires Shaped(np) { np.ie[np.iendx] }
  function LpTop(np: Np): Loop requires Shaped(np) { np.lp[np.lpndx] }

  predicate Waiting(state: LoopState) { state == LoopWhile || state == LoopUntil }

  /** nsh_loop_enabled, nsh_itef_enabled and nsh_cmdenabled look at the top frames only. */
  predicate LoopEnabled(np: Np)
    requires Shaped(np)
  {
    LpTop(np).state == LoopDo ==> LpTop(np).enable
  }

  predicate BranchActive(f: Itef) {
    match f.state
    case ItefThen => !f.ifcond
    case ItefElse => f.ifcond
    case _ => true
  }

  predicate ItefEnabled(np: Np)
    requires Shaped(np)
  {
    !IeTop(np).disabled && BranchActive(IeTop(np))
  }

  predicate CmdEnabled(np: Np)
    requires Shaped(np)
  {
    LoopEnabled(np) && ItefEnabled(np)
  }

  /** What a feeder leaves: the new state, whether it accepted, and the words still to run. */
  datatype Fed = Fed(np: Np, ok: bool, words: Words)

  function LoopError(np: Np): (r: Fed)
    requires Shaped(np)
    ensures Shaped(r.np) && Kept(np, r.np)
  {
    Fed(np.(jump := false, lpndx := 0,
            lp := np.lp[0 := np.lp[0].(state := LoopNormal, enable := true, topoffs := 0)]), false, [])
  }

  function ItefError(np: Np): (r: Fed)
    requires Shaped(np)
    ensures Shaped(r.np) && Kept(np, r.np)
    ensures Stays(np, r.np)
  {
    Fed(np.(iendx := 0, ie := np.ie[0 := Itef(ItefNormal, false, false, false)]), false, [])
  }

  function FeedWhile(np: Np, state: LoopState, rest: Words): (r: Fed)
    requires Shaped(np)
    ensures Shaped(r.np) && Kept(np, r.np)
  {
    if rest == [] || rest[0] == Text("") then LoopError(np)
    else if IeTop(np).state == ItefIf || Waiting(LpTop(np).state) || np.fd < 0 || np.foffs < 0 then LoopError(np)
    else if np.lpndx >= |np.lp| - 1 then LoopError(np)
    else
      var frame := Loop(state, CmdEnabled(np), np.iendx, np.foffs + np.loffs);
      Fed(np.(jump := false, lpndx := np.lpndx + 1, lp := np.lp[np.lpndx + 1 := frame]), true, rest)
  }

  function FeedDo(np: Np, rest: Words): (r: Fed)
    requires Shaped(np)
    ensures Shaped(r.np) && Kept(np, r.np)
  {
    if !Waiting(LpTop(np).state) then LoopError(np)
    else Fed(np.(lp := np.lp[np.lpndx := LpTop(np).(state := LoopDo)]), true, rest)
  }

  function FeedDone(np: Np, rest: Words): (r: Fed)
    requires Shaped(np)
    ensures Shaped(r.np) && Kept(np, r.np)
  {
    if rest != [] then LoopError(np)
    else if LpTop(np).state != LoopDo then LoopError(np)
    else if np.lpndx < 1 then LoopError(np)
    else
      var top := LpTop(np);
      var left := np.lp[np.lpndx := top.(state := LoopNormal, enable := true)];
      if top.enable then
        Fed(np.(fpos := top.topoffs, jump := true, lp := left, lpndx := np.lpndx - 1), true, [])
      else
        Fed(np.(lp := left, lpndx := np.lpndx - 1), true, [])
  }

  /** nsh_loop */
  function FeedLoop(np: Np, words: Words): (r: Fed)
    requires Shaped(np)
    ensures Shaped(r.np) && Kept(np, r.np)
  {
    if words == [] then Fed(np, true, words)
    else if words[0] == KwWhile then FeedWhile(np, LoopWhile, words[1..])
    else if words[0] == KwUntil then FeedWhile(np, LoopUntil, words[1..])
    else if words[0] == KwDo then FeedDo(np, words[1..])
    else if words[0] == KwDone then FeedDone(np, words[1..])
    else if Waiting(LpTop(np).state) then LoopError(np)
    else Fed(np, true, words)
  }

  function FeedIf(np: Np, rest: Words): (r: Fed)
    requires Shaped(np)
    ensures Shaped(r.np) && Kept(np, r.np)
    ensures Stays(np, r.np)
  {
    var inverted := rest != [] && rest[0] == KwNot;
    var cmd := if inverted then rest[1..] else rest;
    if cmd == [] || cmd[0] == Text("") then ItefError(np)
    else if IeTop(np).state == ItefIf then ItefError(np)
    else if np.iendx >= |np.ie| - 1 then ItefError(np)
    else
      var frame := Itef(ItefIf, false, !CmdEnabled(np), inverted);
      Fed(np.(iendx := np.iendx + 1, ie := np.ie[np.iendx + 1 := frame]), true, cmd)
  }

  function SetIe(np: Np, state: ItefState): (r: Np)
    requires Shaped(np)
    ensures Shaped(r) && Kept(np, r)
    ensures Stays(np, r)
  {
    np.(ie := np.ie[np.iendx := IeTop(np).(state := state)])
  }

  function FeedFi(np: Np, rest: Words): (r: Fed)
    requires Shaped(np)
    ensures Shaped(r.np) && Kept(np, r.np)
    ensures Stays(np, r.np)
  {
    if rest != [] then ItefError(np)
    else if IeTop(np).state != ItefThen && IeTop(np).state != ItefElse then ItefError(np)
    else if np.iendx < 1 then ItefError(np)
    else Fed(np.(iendx := np.iendx - 1), true, [])
  }

  /** nsh_itef */
  function FeedItef(np: Np, words: Words): (r: Fed)
    requires Shaped(np)
    ensures Shaped(r.np) && Kept(np, r.np)
    ensures Stays(np, r.np)
  {
    if words == [] then Fed(np, true, words)
    else if words[0] == KwIf then FeedIf(np, words[1..])
    else if words[0] == KwThen then
      if IeTop(np).state != ItefIf then ItefError(np) else Fed(SetIe(np, ItefThen), true, words[1..])
    else if words[0] == KwElse then
      if IeTop(np).state != ItefThen then ItefError(np) else Fed(SetIe(np, ItefElse), true, words[1..])
    else if words[0] == KwFi then FeedFi(np, words[1..])
    else if IeTop(np).state == ItefIf then ItefError(np)
    else Fed(np, true, words)
  }

  /** nsh_saveresult: the new state, and whether the caller sees success. */
  function SaveResult(np: Np, failed: bool): (r: (Np, bool))
    requires Shaped(np)
    ensures Shaped(r.0) && Kept(np, r.0)
    ensures Stays(np, r.0)
  {
    if LpTop(np).state == LoopWhile then
      (np.(fail := false, lp := np.lp[np.lpndx := LpTop(np).(enable := !failed)]), true)
    else if LpTop(np).state == LoopUntil then
      (np.(fail := false, lp := np.lp[np.lpndx := LpTop(np).(enable := failed)]), true)
    else if IeTop(np).state == ItefIf then
      (np.(fail := false, ie := np.ie[np.iendx := IeTop(np).(ifcond := IeTop(np).inverted != failed)]), true)
    else
      (np.(fail := failed), !failed)
  }

  /** cmd_break; the saved index may name any slot of the if stack. */
  function Break(np: Np): (r: Np)
    requires Shaped(np)
    ensures Shaped(r) && Kept(np, r)
    ensures Stays(np, r)
  {
    if LpTop(np).state == LoopDo then
      np.(iendx := LpTop(np).iendx, lp := np.lp[np.lpndx := LpTop(np).(enable := false)])
    else np
  }

  /** An executed command and the value that `$?` has when it starts (true is failure). */
  datatype Event = Event(argv: Words, status: bool)

  /** The state after one command, what it returned and executed, and the command results
      left over.  A run is cut off (`starved`) when a command needs a result and none is left. */
  datatype Step = Step(np: Np, ok: bool, rs: seq<bool>, events: seq<Event>, starved: bool)

  /** nsh_execute: a command reports the next result, `break` is run by the parser itself. */
  function Execute(np: Np, argv: Words, rs: seq<bool>): (r: Step)
    requires Shaped(np) && argv != []
    ensures Shaped(r.np) && Kept(np, r.np)
    ensures Stays(np, r.np)
  {
    if argv[0] == KwBreak then
      var (np', ok) := SaveResult(Break(np), false);
      Step(np', ok, rs, [Event(argv, np.fail)], false)
    else if rs == [] then Step(np, true, rs, [], true)
    else
      var (np', ok) := SaveResult(np, rs[0]);
      Step(np', ok, rs[1..], [Event(argv, np.fail)], false)
  }

  /** nsh_parse_command */
  function ParseCommand(np: Np, words: Words, rs: seq<bool>): (r: Step)
    requires Shaped(np)
    ensures Shaped(r.np) && Kept(np, r.np)
  {
    var fl := FeedLoop(np, words);
    if !fl.ok then
      var (np', ok) := SaveResult(fl.np, true);
      Step(np', ok, rs, [], false)
    else
      var fi := FeedItef(fl.np, fl.words);
      if !fi.ok then
        var (np', ok) := SaveResult(fi.np, true);
        Step(np', ok, rs, [], false)
      else if fi.words == [] || !CmdEnabled(fi.np) then
        Step(fi.np, true, rs, [], false)
      else
        Execute(fi.np, fi.words, rs)
  }
}
