/**
  The parser as the shell holds it: a structure whose fields and two stacks are updated in
  place.  Each method does what the function of the same name in `NshControl` says, and
  `Script` runs the machine of `NshScript`.
*/
module NshParser {
  import opened NshControl
  import opened NshScript
  import opened Iteration

  class Parser {
    const ie: array<Itef>
    var iendx: nat
    const lp: array<Loop>
    var lpndx: nat
    var fail: bool
    var jump: bool
    var fd: int
    var foffs: int
    var loffs: int
    var fpos: int

    ghost function State(): Np
      reads this, ie, lp
    {
      Np(ie[..], iendx, lp[..], lpndx, fail, jump, fd, foffs, loffs, fpos)
    }

    ghost predicate Valid()
      reads this, ie, lp
    {
      Shaped(State())
    }

    constructor (depth: nat)
      requires depth >= 1
      ensures Valid() && State() == Start(depth, 0)
      ensures fresh(ie) && fresh(lp)
    {
      ie := new Itef[depth](_ => Itef(ItefNormal, false, false, false));
      lp := new Loop[depth](_ => Loop(LoopNormal, false, 0, 0));
      iendx, lpndx := 0, 0;
      fail, jump := false, false;
      fd, foffs, loffs, fpos := 0, 0, 0, 0;
    }

    method LoopEnabled() returns (r: bool)
      requires Valid()
      ensures r == NshControl.LoopEnabled(State())
    {
      if lp[lpndx].state == LoopDo {
        return lp[lpndx].enable;
      }
      return true;
    }

    method ItefEnabled() returns (r: bool)
      requires Valid()
      ensures r == NshControl.ItefEnabled(State())
    {
      r := !ie[iendx].disabled;
      if r {
        match ie[iendx].state
        case ItefNormal =>
        case ItefIf =>
        case ItefThen => r := !ie[iendx].ifcond;
        case ItefElse => r := ie[iendx].ifcond;
      }
    }

    method CmdEnabled() returns (r: bool)
      requires Valid()
      ensures r == NshControl.CmdEnabled(State())
    {
      r := LoopEnabled();
      if r {
        r := ItefEnabled();
      }
    }

    /** The error exit of nsh_loop. */
    method LoopError()
      requires Valid()
      modifies this, lp
      ensures Valid() && State() == NshControl.LoopError(old(State())).np
    {
      jump := false;
      lpndx := 0;
      lp[0] := lp[0].(state := LoopNormal, enable := true, topoffs := 0);
    }

    method OpenLoop(state: LoopState, rest: Words) returns (ok: bool)
      requires Valid()
      modifies this, lp
      ensures Valid()
      ensures var r := FeedWhile(old(State()), state, rest); State() == r.np && ok == r.ok && (ok ==> r.words == rest)
    {
      if rest == [] || rest[0] == Text("")
      || ie[iendx].state == ItefIf || Waiting(lp[lpndx].state) || fd < 0 || foffs < 0
      || lpndx >= lp.Length - 1 {
        LoopError();
        return false;
      }
      var enable := CmdEnabled();
      var offset := foffs + loffs;
      jump := false;
      lpndx := lpndx + 1;
      lp[lpndx] := Loop(state, enable, iendx, offset);
      return true;
    }

    method CloseLoop(rest: Words) returns (ok: bool)
      requires Valid()
      modifies this, lp
      ensures Valid()
      ensures var r := FeedDone(old(State()), rest); State() == r.np && ok == r.ok && r.words == []
    {
      if rest != [] || lp[lpndx].state != LoopDo || lpndx < 1 {
        LoopError();
        return false;
      }
      if lp[lpndx].enable {
        fpos := lp[lpndx].topoffs;
        jump := true;
      } else {
        lp[lpndx] := lp[lpndx].(enable := true);
      }
      lp[lpndx] := lp[lpndx].(state := LoopNormal);
      lpndx := lpndx - 1;
      return true;
    }

    method FeedLoop(words: Words) returns (ok: bool, rest: Words)
      requires Valid()
      modifies this, lp
      ensures Valid() && Fed(State(), ok, rest) == NshControl.FeedLoop(old(State()), words)
    {
      ok, rest := true, words;
      if words != [] {
        match words[0]
        case KwWhile =>
          ok := OpenLoop(LoopWhile, words[1..]);
          rest := if ok then words[1..] else [];
        case KwUntil =>
          ok := OpenLoop(LoopUntil, words[1..]);
          rest := if ok then words[1..] else [];
        case KwDo =>
          if !Waiting(lp[lpndx].state) {
            LoopError();
            return false, [];
          }
          lp[lpndx] := lp[lpndx].(state := LoopDo);
          rest := words[1..];
        case KwDone =>
          ok := CloseLoop(words[1..]);
          rest := [];
        case _ =>
          if Waiting(lp[lpndx].state) {
            LoopError();
            return false, [];
          }
      }
    }

    /** The error exit of nsh_itef. */
    method ItefError()
      requires Valid()
      modifies this, ie
      ensures Valid() && State() == NshControl.ItefError(old(State())).np
    {
      iendx := 0;
      ie[0] := Itef(ItefNormal, false, false, false);
    }

    method OpenIf(words: Words) returns (ok: bool, rest: Words)
      requires Valid()
      modifies this, ie
      ensures Valid() && Fed(State(), ok, rest) == FeedIf(old(State()), words)
    {
      var inverted := words != [] && words[0] == KwNot;
      rest := if inverted then words[1..] else words;
      if rest == [] || rest[0] == Text("") || ie[iendx].state == ItefIf || iendx >= ie.Length - 1 {
        ItefError();
        return false, [];
      }
      var enabled := CmdEnabled();
      iendx := iendx + 1;
      ie[iendx] := Itef(ItefIf, false, !enabled, inverted);
      ok := true;
    }

    method FeedItef(words: Words) returns (ok: bool, rest: Words)
      requires Valid()
      modifies this, ie
      ensures Valid() && Fed(State(), ok, rest) == NshControl.FeedItef(old(State()), words)
    {
      ok, rest := true, words;
      if words != [] {
        match words[0]
        case KwIf =>
          ok, rest := OpenIf(words[1..]);
        case KwThen =>
          if ie[iendx].state != ItefIf {
            ItefError();
            return false, [];
          }
          ie[iendx] := ie[iendx].(state := ItefThen);
          rest := words[1..];
        case KwElse =>
          if ie[iendx].state != ItefThen {
            ItefError();
            return false, [];
          }
          ie[iendx] := ie[iendx].(state := ItefElse);
          rest := words[1..];
        case KwFi =>
          if words[1..] != [] || (ie[iendx].state != ItefThen && ie[iendx].state != ItefElse) || iendx < 1 {
            ItefError();
            return false, [];
          }
          iendx := iendx - 1;
          rest := [];
        case _ =>
          if ie[iendx].state == ItefIf {
            ItefError();
            return false, [];
          }
      }
    }

    method SaveResult(failed: bool) returns (ok: bool)
      requires Valid()
      modifies this, ie, lp
      ensures Valid() && (State(), ok) == NshControl.SaveResult(old(State()), failed)
    {
      if lp[lpndx].state == LoopWhile {
        fail := false;
        lp[lpndx] := lp[lpndx].(enable := !failed);
        return true;
      } else if lp[lpndx].state == LoopUntil {
        fail := false;
        lp[lpndx] := lp[lpndx].(enable := failed);
        return true;
      } else if ie[iendx].state == ItefIf {
        fail := false;
        ie[iendx] := ie[iendx].(ifcond := ie[iendx].inverted != failed);
        return true;
      } else {
        fail := failed;
        return !failed;
      }
    }

    method Break()
      requires Valid()
      modifies this, lp
      ensures Valid() && State() == NshControl.Break(old(State()))
    {
      if lp[lpndx].state == LoopDo {
        iendx := lp[lpndx].iendx;
        lp[lpndx] := lp[lpndx].(enable := false);
      }
    }

    /** One command; `rs` are the results that the commands to come will report. */
    method ParseCommand(words: Words, rs: seq<bool>)
      returns (ok: bool, left: seq<bool>, events: seq<Event>, starved: bool)
      requires Valid()
      modifies this, ie, lp
      ensures Valid()
      ensures Step(State(), ok, left, events, starved) == NshControl.ParseCommand(old(State()), words, rs)
    {
      hide NshControl.FeedLoop, NshControl.FeedItef, NshControl.SaveResult, NshControl.Break, NshControl.CmdEnabled;
      left, events, starved := rs, [], false;
      var argv;
      ok, argv := FeedLoop(words);
      if !ok {
        ok := SaveResult(true);
        return;
      }
      ok, argv := FeedItef(argv);
      if !ok {
        ok := SaveResult(true);
        return;
      }
      var enabled := CmdEnabled();
      if argv == [] || !enabled {
        return;
      }
      var status := fail;
      if argv[0] == KwBreak {
        Break();
        ok := SaveResult(false);
      } else if rs == [] {
        starved := true;
        return;
      } else {
        ok := SaveResult(rs[0]);
        left := rs[1..];
      }
      events := [Event(argv, status)];
    }

    /** The configuration that the machine is in after a line, or where it ended. */
    ghost function After(c: Config, ok: bool, ignore: bool, left: seq<bool>, events: seq<Event>, starved: bool): Config
      reads this, ie, lp
    {
      var d := c.(np := State(), rs := left, trace := c.trace + events);
      if starved then d.(status := Starved)
      else if !ok && !ignore then d.(status := Stopped)
      else d.(pos := fpos, bol := true)
    }

    /** The command at offset `k`, inside a line that ends at offset `end`. */
    method LineCommand(file: File, ignore: bool, k: int, end: int, rs: seq<bool>, ghost c: Config)
      returns (ok: bool, left: seq<bool>, events: seq<Event>, starved: bool)
      requires Valid() && 0 <= k < |file| && fpos == end == NextLine(file, k) && !jump
      requires c.status == Running && c.pos == k && c.rs == rs && Shaped(c.np)
      requires State().(loffs := k - foffs) == Loaded(file, c)
      modifies this, ie, lp
      ensures Valid() && foffs == old(foffs) && fd == old(fd)
      ensures var d := Next(file, ignore, c); var e := After(c, ok, ignore, left, events, starved);
              if !starved && ok && !jump && k + 1 != end then
                d == e.(pos := k + 1, bol := false) && fpos == end
              else if e.status == Running then d == e
              else d == e.(pos := d.pos, bol := d.bol)
    {
      hide NshControl.ParseCommand;
      loffs := k - foffs;
      SeekJumps(State(), file[k].words, rs);
      ok, left, events, starved := ParseCommand(file[k].words, rs);
    }

    /** nsh_parse: the commands of the line in the buffer, which `file` holds from `foffs`
        up to `fpos`.  The ghost `c` is the machine's configuration before the line. */
    method ParseLine(file: File, ignore: bool, rs: seq<bool>, ghost c: Config)
      returns (ok: bool, left: seq<bool>, events: seq<Event>, starved: bool, ghost n: nat)
      requires Valid() && 0 <= foffs < |file| && fpos == NextLine(file, foffs)
      requires c.status == Running && c.bol && c.pos == foffs && c.rs == rs && Shaped(c.np)
      requires State().(jump := false, loffs := 0) == Loaded(file, c)
      modifies this, ie, lp
      ensures Valid() && n > 0 && fd == old(fd)
      ensures var d := Run(file, ignore, c, n); var e := After(c, ok, ignore, left, events, starved);
              if e.status == Running then d == e else d == e.(pos := d.pos, bol := d.bol)
    {
      hide NextWords, Next, Run, Loaded, NextLine;
      FirstInLine(file, c);
      ok, left, events, starved, n := true, rs, [], false, 0;
      jump := false;
      var k := foffs;
      var end := fpos;
      ghost var cur := c;
      RunZero(file, ignore, c);
      while !jump
        invariant Valid() && 0 <= old(foffs) == foffs <= k < end == NextLine(file, k)
        invariant ok && !starved && fd == old(fd)
        invariant !jump ==> fpos == end && cur == Run(file, ignore, c, n)
        invariant !jump ==> Shaped(cur.np) && cur.status == Running && cur.pos == k
        invariant !jump ==> State().(loffs := k - foffs) == Loaded(file, cur)
        invariant !jump ==> cur.rs == left && cur.trace == c.trace + events
        invariant jump ==> n > 0 && Run(file, ignore, c, n) == After(c, ok, ignore, left, events, starved)
        decreases end - k, if jump then 0 else 1
      {
        var more;
        ghost var before := cur;
        RunNext(file, ignore, c, n);
        ok, left, more, starved := LineCommand(file, ignore, k, end, left, cur);
        events := events + more;
        n := n + 1;
        cur := Run(file, ignore, c, n);
        assert c.trace + events == before.trace + more;
        if starved || k + 1 == end || !ok {
          return;
        }
        if !jump {
          NextInLine(file, cur, k);
          k := k + 1;
        }
      }
    }

    /** One turn of the loop of nsh_script: note the offset, read a line and parse it. */
    method ScriptLine(file: File, ignore: bool, rs: seq<bool>, ghost c: Config)
      returns (status: Status, left: seq<bool>, events: seq<Event>, ghost n: nat)
      requires Valid() && c.status == Running && c.bol && c.pos == fpos && c.rs == rs && c.np == State()
      modifies this, ie, lp
      ensures Valid() && n > 0 && fd == old(fd)
      ensures var d := Run(file, ignore, c, n);
              && State() == d.np && left == d.rs && c.trace + events == d.trace && status == d.status
              && (status == Running ==> d.bol && d.pos == fpos)
    {
      hide NextWords, Run;
      if fpos < 0 || fpos >= |file| {
        status, left, events, n := Finished, rs, [], 1;
        RunZero(file, ignore, c);
        RunNext(file, ignore, c, 0);
        assert c.trace + [] == c.trace;
      } else {
        foffs, loffs := fpos, 0;
        fpos := NextLine(file, foffs);
        var ok, starved;
        ok, left, events, starved, n := ParseLine(file, ignore, rs, c);
        status := if starved then Starved else if !ok && !ignore then Stopped else Running;
      }
    }

    /** nsh_script, for at most `lines` turns; `stream` is what opening the file gave. */
    method Script(stream: int, file: File, ignore: bool, rs: seq<bool>, lines: nat)
      returns (status: Status, left: seq<bool>, trace: seq<Event>, ghost n: nat)
      requires Valid()
      modifies this, ie, lp
      ensures Valid() && fd == old(fd)
      ensures stream < 0 ==> State() == old(State()) && status == Stopped && left == rs && trace == []
      ensures stream >= 0 ==>
                var d := Run(file, ignore, Opened(old(State()), stream, rs), n);
                && State() == d.np.(fd := fd) && left == d.rs && trace == d.trace && status == d.status
                && (status == Running ==> n >= lines)
    {
      hide Run;
      status, left, trace, n := Stopped, rs, [], 0;
      var savestream := fd;
      if stream < 0 {
        return;
      }
      fd, fpos := stream, 0;
      status := Running;
      ghost var c := Opened(old(State()), stream, rs);
      ghost var cur := c;
      RunZero(file, ignore, c);
      var turn := 0;
      while status == Running && turn < lines
        invariant Valid() && fd == stream && turn <= n && turn <= lines
        invariant cur == Run(file, ignore, c, n)
        invariant cur.status == status && State() == cur.np && left == cur.rs && trace == cur.trace
        invariant status == Running ==> cur.bol && cur.pos == fpos
        decreases lines - turn
      {
        var events;
        ghost var m;
        status, left, events, m := ScriptLine(file, ignore, left, cur);
        trace := trace + events;
        turn := turn + 1;
        RunMore(file, ignore, c, n, m);
        n, cur := n + m, Run(file, ignore, cur, m);
      }
      fd := savestream;
    }
  }

  lemma RunMore(file: File, ignore: bool, c: Config, m: nat, n: nat)
    ensures Run(file, ignore, c, m + n) == Run(file, ignore, Run(file, ignore, c, m), n)
  {
    hide Next;
    IterateAdds(Machine(file, ignore), c, m, n);
  }

  lemma FirstInLine(file: File, c: Config)
    requires 0 <= c.pos < |file| && Shaped(c.np) && c.bol
    ensures Loaded(file, c) == c.np.(foffs := c.pos, loffs := 0, fpos := NextLine(file, c.pos), jump := false)
    ensures c.pos < NextLine(file, c.pos) <= |file|
  {
  }

  /** Behind a command that does not end its line. */
  lemma NextInLine(file: File, d: Config, k: nat)
    requires k < |file| && k + 1 != NextLine(file, k) && Shaped(d.np) && d.pos == k + 1 && !d.bol
    ensures k + 1 < |file| && NextLine(file, k + 1) == NextLine(file, k)
    ensures Loaded(file, d) == d.np.(loffs := k + 1 - d.np.foffs)
  {
  }

  lemma RunZero(file: File, ignore: bool, c: Config)
    ensures Run(file, ignore, c, 0) == c
  {
  }
}
