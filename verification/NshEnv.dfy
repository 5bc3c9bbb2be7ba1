/**
  The commands `set`, `unset` and `export`: NSH variables live in the session's store,
  exported ones in the environment, and `$name` looks in the store first.
*/
module NshEnv {
  import opened Basics
  import opened NshVars

  // ----- What the commands do to the two maps -----

  datatype Vars = Vars(nsh: map<string, string>, env: map<string, string>)

  /** nsh_envexpand for a name other than `?`. */
  function Visible(v: Vars, name: string): string {
    if name in v.nsh then v.nsh[name] else if name in v.env then v.env[name] else ""
  }

  /** No name is bound in both places. */
  ghost predicate Apart(v: Vars) {
    v.nsh.Keys !! v.env.Keys
  }

  /** A variable that was exported is set where it is. */
  function SetVar(v: Vars, name: string, value: string): Vars {
    if name in v.env then v.(env := v.env[name := value]) else v.(nsh := v.nsh[name := value])
  }

  function UnsetVar(v: Vars, name: string): Vars {
    Vars(v.nsh - {name}, v.env - {name})
  }

  /** Without a value, that of the NSH variable is taken, or else the empty string. */
  function ExportVar(v: Vars, name: string, value: Option<string>): Vars {
    var text := if value.Some? then value.value else if name in v.nsh then v.nsh[name] else "";
    Vars(v.nsh - {name}, v.env[name := text])
  }

  datatype Cmd = Set(name: string, value: string) | Unset(name: string) | Export(name: string, given: Option<string>)

  function Do(v: Vars, cmd: Cmd): Vars {
    match cmd
    case Set(name, value) => SetVar(v, name, value)
    case Unset(name) => UnsetVar(v, name)
    case Export(name, value) => ExportVar(v, name, value)
  }

  function DoAll(v: Vars, cmds: seq<Cmd>): Vars {
    if cmds == [] then v else Do(DoAll(v, cmds[..|cmds| - 1]), cmds[|cmds| - 1])
  }

  /** What `$name` was last made by a series of commands, if any of them made it anything.
      A bare `export` of a name that is not an NSH variable makes it empty. */
  function LastMade(v: Vars, cmds: seq<Cmd>, name: string): Option<string> {
    if cmds == [] then None
    else
      var init, cmd := cmds[..|cmds| - 1], cmds[|cmds| - 1];
      if cmd.name != name then LastMade(v, init, name)
      else
        match cmd
        case Set(_, value) => Some(value)
        case Unset(_) => Some("")
        case Export(_, Some(value)) => Some(value)
        case Export(_, None) => if name in DoAll(v, init).nsh then LastMade(v, init, name) else Some("")
  }

  /** From a session without NSH variables, whatever the environment: no name is ever bound
      in both places, and `$name` yields what it was last made. */
  lemma {:induction false} ScopesStayApart(v: Vars, cmds: seq<Cmd>, name: string)
    requires Apart(v)
    ensures Apart(DoAll(v, cmds))
    ensures var last := LastMade(v, cmds, name);
            Visible(DoAll(v, cmds), name) == if last.Some? then last.value else Visible(v, name)
  {
    if cmds != [] {
      ScopesStayApart(v, cmds[..|cmds| - 1], name);
    }
  }

  /** A bare `export` leaves the visible value alone exactly when the name is an NSH variable
      or its value is empty anyway: exporting twice empties a variable. */
  lemma ExportKeepsValue(v: Vars, name: string)
    requires Apart(v)
    ensures Visible(ExportVar(v, name, None), name) == Visible(v, name) <==> name in v.nsh || Visible(v, name) == ""
    ensures forall other :: other != name ==> Visible(ExportVar(v, name, None), other) == Visible(v, other)
  {
  }

  /** Whether a name was last exported or unset. */
  function LastExported(before: bool, cmds: seq<Cmd>, name: string): bool {
    if cmds == [] then before
    else
      var init, cmd := cmds[..|cmds| - 1], cmds[|cmds| - 1];
      if cmd.name != name || cmd.Set? then LastExported(before, init, name) else cmd.Export?
  }

  /** A name that was exported stays in the environment, whatever it is set to, until it is
      unset, and no other name gets there. */
  lemma {:induction false} ExportedStays(v: Vars, cmds: seq<Cmd>, name: string)
    ensures name in DoAll(v, cmds).env <==> LastExported(name in v.env, cmds, name)
  {
    if cmds != [] {
      ExportedStays(v, cmds[..|cmds| - 1], name);
    }
  }

  // ----- The same on the session's own state -----

  /** The strings of the store, in order, and the environment. */
  datatype Raw = Raw(bs: seq<Binding>, env: map<string, string>)

  function RawVisible(r: Raw, name: string): string {
    var own := Lookup(r.bs, name);
    if own.Some? then own.value else if name in r.env then r.env[name] else ""
  }

  function RawSet(r: Raw, name: string, value: string): Raw
    requires NUL !in name && NUL !in value
  {
    if name in r.env then r.(env := r.env[name := value])
    else r.(bs := Put(r.bs, name, value))
  }

  function RawUnset(r: Raw, name: string): Raw {
    Raw(Drop(r.bs, name), r.env - {name})
  }

  function RawExport(r: Raw, name: string, given: Option<string>): Raw {
    var own := Lookup(r.bs, name);
    var text := if given.Some? then given.value else if own.Some? then own.value else "";
    Raw(Drop(r.bs, name), r.env[name := text])
  }

  predicate Proper(cmd: Cmd) {
    Name(cmd.name) && (cmd.Set? ==> NUL !in cmd.value)
  }

  function RawDo(r: Raw, cmd: Cmd): Raw
    requires Proper(cmd)
  {
    match cmd
    case Set(name, value) => RawSet(r, name, value)
    case Unset(name) => RawUnset(r, name)
    case Export(name, given) => RawExport(r, name, given)
  }

  function RawDoAll(r: Raw, cmds: seq<Cmd>): Raw
    requires forall i :: 0 <= i < |cmds| ==> Proper(cmds[i])
  {
    if cmds == [] then r else RawDo(RawDoAll(r, cmds[..|cmds| - 1]), cmds[|cmds| - 1])
  }

  ghost function ToVars(r: Raw): Vars
    requires Functional(r.bs)
  {
    Vars(ToMap(r.bs), r.env)
  }

  /** On names without `=` the commands do to the strings what they do to the maps. */
  lemma RawDoIsDo(r: Raw, cmd: Cmd)
    requires WellFormed(r.bs) && Proper(cmd)
    ensures Functional(r.bs) && WellFormed(RawDo(r, cmd).bs) && Functional(RawDo(r, cmd).bs)
    ensures ToVars(RawDo(r, cmd)) == Do(ToVars(r), cmd)
    ensures RawVisible(r, cmd.name) == Visible(ToVars(r), cmd.name)
  {
    hide Drop, Lookup, First;
    LookupIsMap(r.bs, cmd.name);
    UnsetIsMap(r.bs, cmd.name);
    if cmd.Set? {
      SetIsMap(r.bs, cmd.name, cmd.value);
    }
  }

  /** So after any of them, from a new session: what holds of the maps holds of the session. */
  lemma {:induction false} RawRunIsRun(env: map<string, string>, cmds: seq<Cmd>)
    requires forall i :: 0 <= i < |cmds| ==> Proper(cmds[i])
    ensures var r := RawDoAll(Raw([], env), cmds);
            && WellFormed(r.bs) && Functional(r.bs)
            && ToVars(r) == DoAll(Vars(map[], env), cmds)
            && forall name :: Name(name) ==> Safe(r.bs, name) && RawVisible(r, name) == Visible(ToVars(r), name)
  {
    hide RawDo, Do, Drop, Lookup, First, Visible, RawVisible;
    if cmds == [] {
      assert ToMap([]) == map[];
    } else {
      RawRunIsRun(env, cmds[..|cmds| - 1]);
      RawDoIsDo(RawDoAll(Raw([], env), cmds[..|cmds| - 1]), cmds[|cmds| - 1]);
    }
    var r := RawDoAll(Raw([], env), cmds);
    forall name | Name(name) ensures Safe(r.bs, name) && RawVisible(r, name) == Visible(ToVars(r), name) {
      NameIsSafe(r.bs, name);
      RawDoIsDo(r, Cmd.Unset(name));
    }
  }

  // ----- The commands -----

  predicate IsSpace(c: char) {
    c == ' ' || '\t' <= c <= '\r'
  }

  function TrimLeft(s: string): (t: string)
    ensures forall c :: c in t ==> c in s
  {
    if s != [] && IsSpace(s[0]) then TrimLeft(s[1..]) else s
  }

  function TrimRight(s: string): (t: string)
    ensures forall c :: c in t ==> c in s
  {
    if s != [] && IsSpace(s[|s| - 1]) then TrimRight(s[..|s| - 1]) else s
  }

  function Trim(s: string): (t: string)
    ensures forall c :: c in t ==> c in s
  {
    TrimRight(TrimLeft(s))
  }

  /** A blank, or one of the five control characters from tab to carriage return. */
  predicate White(c: char) {
    c == ' ' || 9 <= c as int <= 13
  }

  predicate Spaces(s: string) {
    forall i :: 0 <= i < |s| ==> White(s[i])
  }

  lemma {:induction false} TrimLeftMargin(s: string) returns (margin: string)
    ensures s == margin + TrimLeft(s) && Spaces(margin)
  {
    margin := [];
    if s != [] && IsSpace(s[0]) {
      var m := TrimLeftMargin(s[1..]);
      margin := [s[0]] + m;
    }
  }

  lemma {:induction false} TrimRightMargin(s: string) returns (margin: string)
    ensures s == TrimRight(s) + margin && Spaces(margin)
    ensures TrimRight(s) != [] ==> s != [] && TrimRight(s)[0] == s[0]
  {
    margin := [];
    if s != [] && IsSpace(s[|s| - 1]) {
      var m := TrimRightMargin(s[..|s| - 1]);
      margin := m + [s[|s| - 1]];
    }
  }

  /** Only spaces are taken away, and none is left at either end. */
  lemma TrimTakesMargins(s: string) returns (left: string, right: string)
    ensures s == left + Trim(s) + right && Spaces(left) && Spaces(right)
    ensures var t := Trim(s); t != [] ==> !White(t[0]) && !White(t[|t| - 1])
  {
    left := TrimLeftMargin(s);
    right := TrimRightMargin(TrimLeft(s));
    LeftEnd(s);
    RightEnd(TrimLeft(s));
  }

  lemma {:induction false} LeftEnd(s: string)
    ensures TrimLeft(s) != [] ==> !White(TrimLeft(s)[0])
  {
    if s != [] && IsSpace(s[0]) { LeftEnd(s[1..]); }
  }

  lemma {:induction false} RightEnd(s: string)
    ensures var t := TrimRight(s); t != [] ==> !White(t[|t| - 1])
  {
    if s != [] && IsSpace(s[|s| - 1]) { RightEnd(s[..|s| - 1]); }
  }

  /** nsh_trimspaces */
  method TrimSpaces(s: string) returns (t: string)
    ensures t == Trim(s)
    ensures forall c :: c in t ==> c in s
  {
    var i := 0;
    while i < |s| && IsSpace(s[i])
      invariant i <= |s| && TrimLeft(s[i..]) == TrimLeft(s)
    {
      assert s[i..][1..] == s[i + 1..];
      i := i + 1;
    }
    var j := |s|;
    assert s[i..j] == s[i..];
    while j > i && IsSpace(s[j - 1])
      invariant i <= j <= |s| && TrimRight(s[i..j]) == Trim(s)
    {
      assert s[i..j][..j - i - 1] == s[i..j - 1];
      j := j - 1;
    }
    t := s[i..j];
  }

  /** The options of `set`: `+` sets them, `-` clears them. */
  datatype Flags = Flags(ignore: bool, silent: bool)

  function SetFlag(flags: Flags, letter: char, on: bool): Flags {
    if letter == 'e' then flags.(ignore := on) else if letter == 'x' then flags.(silent := on) else flags
  }

  /** The options in `letters` up to a space, taken one by one until one is unknown. */
  function SetOptions(flags: Flags, letters: string, on: bool): (r: (Flags, bool))
    ensures r.1 <==> forall i :: 0 <= i < Span(letters, ' ') ==> letters[i] == 'e' || letters[i] == 'x'
    decreases letters
  {
    if letters == [] || letters[0] == ' ' then (flags, true)
    else if letters[0] != 'e' && letters[0] != 'x' then (flags, false)
    else SetOptions(SetFlag(flags, letters[0], on), letters[1..], on)
  }

  /** An option argument: a sign and at least one letter. */
  predicate OptionArg(s: string) {
    |s| >= 2 && (s[0] == '+' || s[0] == '-')
  }

  function OptionsOf(flags: Flags, arg: string): (Flags, bool) {
    if OptionArg(arg) then SetOptions(flags, arg[1..], arg[0] == '+') else (flags, false)
  }

  /** The letters in front of a blank and of the first that is no option. */
  function Taken(letters: string): (k: nat)
    ensures k <= |letters|
    ensures forall i :: 0 <= i < k ==> letters[i] == 'e' || letters[i] == 'x'
    ensures k < |letters| ==> letters[k] != 'e' && letters[k] != 'x'
  {
    if letters == [] || (letters[0] != 'e' && letters[0] != 'x') then 0 else 1 + Taken(letters[1..])
  }

  lemma {:induction false} OptionsSet(flags: Flags, letters: string, on: bool)
    ensures var (r, ok) := SetOptions(flags, letters, on);
            var taken := letters[..Taken(letters)];
            && r.ignore == (if 'e' in taken then on else flags.ignore)
            && r.silent == (if 'x' in taken then on else flags.silent)
    decreases letters
  {
    if letters != [] && (letters[0] == 'e' || letters[0] == 'x') {
      OptionsSet(SetFlag(flags, letters[0], on), letters[1..], on);
      assert letters[..Taken(letters)] == [letters[0]] + letters[1..][..Taken(letters[1..])];
    }
  }

  /** `+e` lets errors pass and `-e` does not, `+x` is silent and `-x` is not; in `ex` both letters
      count, up to one that is no option. */
  lemma OptionsTakeEffect(flags: Flags, arg: string)
    requires |arg| >= 2 && (arg[0] == '+' || arg[0] == '-')
    ensures var r := OptionsOf(flags, arg).0;
            var taken := arg[1..][..Taken(arg[1..])];
            && ('e' in taken ==> r.ignore == (arg[0] == '+')) && ('e' !in taken ==> r.ignore == flags.ignore)
            && ('x' in taken ==> r.silent == (arg[0] == '+')) && ('x' !in taken ==> r.silent == flags.silent)
  {
    OptionsSet(flags, arg[1..], arg[0] == '+');
  }

  class Session {
    const store: Store
    var env: map<string, string>
    var flags: Flags
    var fail: bool

    ghost predicate Valid()
      reads this, store, store.varp
    {
      store.Valid()
    }

    ghost function State(): Raw
      reads this, store
    {
      Raw(store.bindings, env)
    }

    constructor (env: map<string, string>)
      ensures Valid() && State() == Raw([], env)
      ensures fresh(store)
    {
      this.env := env;
      flags := Flags(false, true);
      fail := false;
      store := new Store();
    }

    /** nsh_envexpand */
    method EnvExpand(name: string) returns (value: string)
      requires Valid() && Safe(store.bindings, name)
      ensures value == if name == "?" then (if fail then "1" else "0") else RawVisible(State(), name)
    {
      if name == "?" {
        return if fail then "1" else "0";
      }
      var own := store.GetVar(name);
      if own.Some? {
        return own.value;
      }
      if name in env {
        return env[name];
      }
      return "";
    }

    /** The option part of `set`. */
    method ParseOptions(arg: string) returns (ok: bool)
      modifies this`flags
      ensures (flags, ok) == OptionsOf(old(flags), arg)
    {
      if |arg| < 2 || (arg[0] != '+' && arg[0] != '-') {
        return false;
      }
      var i := 1;
      while i < |arg| && arg[i] != ' '
        invariant 1 <= i <= |arg|
        invariant SetOptions(flags, arg[i..], arg[0] == '+') == SetOptions(old(flags), arg[1..], arg[0] == '+')
      {
        if arg[i] != 'e' && arg[i] != 'x' {
          return false;
        }
        flags := SetFlag(flags, arg[i], arg[0] == '+');
        assert arg[i..][1..] == arg[i + 1..];
        i := i + 1;
      }
      return true;
    }

    /** cmd_set; `envOk` is what the environment says to a change of an exported variable. */
    method CmdSet(argv: seq<string>, envOk: bool) returns (ok: bool)
      requires Valid() && 1 <= |argv| <= 4
      requires forall i :: 0 <= i < |argv| ==> NUL !in argv[i]
      requires |argv| >= 3 ==> Safe(store.bindings, argv[|argv| - 2])
      modifies this, store, store.varp
      ensures Valid() && fail == old(fail)
      ensures flags == if |argv| == 2 || |argv| == 4 then OptionsOf(old(flags), argv[1]).0 else old(flags)
      ensures var opts := |argv| == 2 || |argv| == 4 ==> OptionsOf(old(flags), argv[1]).1;
              if |argv| < 3 || !opts then State() == old(State()) && ok == opts
              else
                var name := argv[|argv| - 2];
                && ok == (name in old(env) ==> envOk)
                && State() == if ok then RawSet(old(State()), name, Trim(argv[|argv| - 1])) else old(State())
    {
      ok := true;
      if |argv| == 1 {
        return;
      }
      if |argv| == 2 || |argv| == 4 {
        ok := ParseOptions(argv[1]);
      }
      if ok && |argv| >= 3 {
        var name := argv[|argv| - 2];
        var value := TrimSpaces(argv[|argv| - 1]);
        if name !in env {
          store.SetVar(name, value);
        } else if envOk {
          env := env[name := value];
        } else {
          ok := false;
        }
      }
    }

    /** cmd_unset */
    method CmdUnset(name: string, envOk: bool) returns (ok: bool)
      requires Valid() && Safe(store.bindings, name)
      modifies this, store, store.varp
      ensures Valid() && ok == envOk && flags == old(flags) && fail == old(fail)
      ensures State() == if ok then RawUnset(old(State()), name) else old(State()).(bs := Drop(old(State()).bs, name))
    {
      store.UnsetVar(name);
      if envOk {
        env := env - {name};
      }
      ok := envOk;
    }

    /** cmd_export */
    method CmdExport(name: string, given: Option<string>, envOk: bool) returns (ok: bool)
      requires Valid() && Safe(store.bindings, name)
      modifies this, store, store.varp
      ensures Valid() && ok == envOk && flags == old(flags) && fail == old(fail)
      ensures State() == if ok then RawExport(old(State()), name, given) else old(State())
    {
      var value := "";
      if given.Some? {
        value := given.value;
      } else {
        var own := store.GetVar(name);
        if own.Some? {
          value := own.value;
        }
      }
      ok := envOk;
      if ok {
        env := env[name := value];
        store.UnsetVar(name);
      }
    }
  }
}
