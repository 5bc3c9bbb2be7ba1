/**
  How a command line becomes arguments: escapes, the search for closing marks, one pass of
  `$` and back-quote substitution, and splitting at separators.  This module gives the
  meaning on strings; `NshLine` gives the scanners that work in the line buffer.
*/
module NshText {
  import opened Basics

  /** The character at `i` stands behind a back-slash that is not itself escaped. */
  predicate Escaped(s: string, i: nat)
    requires i <= |s|
  {
    i > 0 && s[i - 1] == '\\' && !Escaped(s, i - 1)
  }

  /** The first unescaped `c` at or behind `i`, or the end of the string. */
  function Seek(s: string, i: nat, c: char): (r: nat)
    requires i <= |s|
    ensures i <= r <= |s|
    ensures r < |s| ==> s[r] == c && !Escaped(s, r)
    ensures forall k :: i <= k < r ==> s[k] != c || Escaped(s, k)
    decreases |s| - i
  {
    if i == |s| || (s[i] == c && !Escaped(s, i)) then i else Seek(s, i + 1, c)
  }

  /** The first unescaped `$` or back-quote, or the end of the string. */
  function Special(s: string, i: nat): (r: nat)
    requires i <= |s|
    ensures i <= r <= |s|
    ensures r < |s| ==> (s[r] == '$' || s[r] == '`') && !Escaped(s, r)
    ensures forall k :: i <= k < r ==> (s[k] != '$' && s[k] != '`') || Escaped(s, k)
    decreases |s| - i
  {
    if i == |s| || ((s[i] == '$' || s[i] == '`') && !Escaped(s, i)) then i else Special(s, i + 1)
  }

  /** What `$name` and a back-quoted command stand for. */
  datatype World = World(env: string -> string, cmd: string -> string)

  function Append(s: string, t: Option<string>): Option<string> {
    match t case None => None case Some(u) => Some(s + u)
  }

  /** One pass of substitution: literal text is kept in order, `${name}` and a back-quoted
      command are replaced in place, a bare `$name` goes to the end of the text, and a
      missing closing mark loses everything.  What is put in is not looked at again. */
  function Expand(s: string, w: World): Option<string>
    decreases |s|
  {
    var p := Special(s, 0);
    if p == |s| then Some(s)
    else if s[p] == '`' then
      var text := s[p + 1..];
      var r := Seek(text, 0, '`');
      if r == |text| then None else Append(s[..p] + w.cmd(text[..r]), Expand(text[r + 1..], w))
    else if p + 1 < |s| && s[p + 1] == '{' then
      var text := s[p + 2..];
      var r := Seek(text, 0, '}');
      if r == |text| then None else Append(s[..p] + w.env(text[..r]), Expand(text[r + 1..], w))
    else
      Some(s[..p] + w.env(s[p + 1..]))
  }

  lemma AppendTwice(a: string, b: string, t: Option<string>)
    ensures Append(a, Append(b, t)) == Append(a + b, t)
  {
    assert t.Some? ==> a + (b + t.value) == (a + b) + t.value;
  }

  lemma ExpandEnd(s: string, w: World)
    requires Special(s, 0) == |s|
    ensures Expand(s, w) == Some(s)
  {
  }

  /** What the text behind a mark stands for. */
  function Value(mark: char, text: string, w: World): string {
    if mark == '`' then w.cmd(text) else w.env(text)
  }

  predicate Marked(s: string, p: nat) {
    p < |s| && p == Special(s, 0) && (s[p] == '`' || (p + 1 < |s| && s[p + 1] == '{'))
  }

  /** A marked-off stretch `text` of `s`, up to the closing mark at `r`. */
  lemma ExpandMarked(s: string, w: World, p: nat, text: string, r: nat)
    requires Marked(s, p)
    requires text == s[if s[p] == '`' then p + 1 else p + 2..]
    requires r == Seek(text, 0, if s[p] == '`' then '`' else '}')
    ensures Expand(s, w) ==
            if r == |text| then None else Append(s[..p] + Value(s[p], text[..r], w), Expand(text[r + 1..], w))
  {
    hide Special, Seek, Escaped, Append;
  }

  lemma ExpandUnmarked(s: string, w: World)
    requires Special(s, 0) < |s| && !Marked(s, Special(s, 0))
    ensures var p := Special(s, 0);
            Expand(s, w) == Append(s[..p] + Value(s[p], s[p + 1..], w), Expand([], w))
  {
    var p := Special(s, 0);
    var t := s[..p] + w.env(s[p + 1..]);
    assert t + [] == t;
  }

  lemma {:induction false} EscapedPrefix(s: string, t: string, i: nat)
    requires i <= |s|
    ensures Escaped(s + t, i) == Escaped(s, i)
  {
    if i > 0 {
      EscapedPrefix(s, t, i - 1);
    }
  }

  /** Escapes are undone once, after substitution. */
  function Dequote(s: string): (t: string)
    ensures |t| <= |s|
    ensures forall c :: c in t ==> c in s
  {
    if s == [] then []
    else if s[0] != '\\' then [s[0]] + Dequote(s[1..])
    else if |s| == 1 then []
    else [s[1]] + Dequote(s[2..])
  }

  /** Only a text without back-slashes stays as it is. */
  lemma {:induction false} DequoteKeeps(s: string)
    ensures Dequote(s) == s <==> '\\' !in s
  {
    if s != [] && s[0] != '\\' {
      DequoteKeeps(s[1..]);
      assert s == [s[0]] + s[1..];
    }
  }

  function Expanded(s: string, w: World): string {
    var t := Expand(s, w);
    if t.None? then "" else Dequote(t.value)
  }

  // ----- Arguments -----

  predicate Separator(c: char) {
    c == ' ' || c == '\t' || c == '\n'
  }

  /** Where an argument ends: at an unescaped terminator outside back-quotes. */
  function ArgEnd(s: string, i: nat, backquote: bool, quoted: bool): (r: nat)
    requires i <= |s|
    ensures i <= r <= |s|
    decreases |s| - i
  {
    if i == |s| then i
    else if Escaped(s, i) || s[i] == '\\' then ArgEnd(s, i + 1, backquote, quoted)
    else if s[i] == '`' then ArgEnd(s, i + 1, !backquote, quoted)
    else if !backquote && Terminates(s[i], quoted) then i
    else ArgEnd(s, i + 1, backquote, quoted)
  }

  predicate Terminates(c: char, quoted: bool) {
    if quoted then c == '"' else Separator(c)
  }

  function SkipSeparators(s: string): (t: string)
    ensures |t| <= |s|
    ensures t != [] ==> !Separator(t[0])
  {
    if s != [] && Separator(s[0]) then SkipSeparators(s[1..]) else s
  }

  /** The next argument of a line and what is left of the line. */
  function NextArg(s: string, w: World): (r: (Option<string>, string))
    ensures |r.1| <= |s|
    ensures r.0.Some? ==> |r.1| < |s|
  {
    var t := SkipSeparators(s);
    if t == [] then (None, s)
    else if t[0] == '>' then
      if |t| > 1 && t[1] == '>' then (Some(">>"), t[2..]) else (Some(">"), t[1..])
    else if t[0] == '#' then (None, t)
    else
      var quoted := t[0] == '"';
      var text := if quoted then t[1..] else t;
      var e := ArgEnd(text, 0, false, quoted);
      (Some(Expanded(text[..e], w)), if e < |text| then text[e + 1..] else [])
  }

  function Args(s: string, w: World): seq<string>
    decreases |s|
  {
    var (arg, rest) := NextArg(s, w);
    if arg.None? then [] else [arg.value] + Args(rest, w)
  }

  // ----- Lines -----

  /** What a scan of a line knows about a character: it is outside quotation marks, inside
      them, or inside and behind a back-slash. */
  datatype Mode = Outside | Inside | InsideEscaped

  datatype Pieces = Pieces(done: seq<string>, last: Option<string>)

  function Longer(c: char, p: Pieces): Pieces {
    if p.done != [] then p.(done := [[c] + p.done[0]] + p.done[1..])
    else if p.last.Some? then p.(last := Some([c] + p.last.value))
    else p
  }

  /** The commands of a line, read once from left to right: `;` outside quotation marks
      separates, `#` or a newline there ends the search, and a mark that is not closed
      loses the last command. */
  function Chop(s: string, mode: Mode): Pieces {
    if s == [] then Pieces([], if mode == Outside then Some([]) else None)
    else
      match mode
      case Outside =>
        if s[0] == ';' then
          var p := Chop(s[1..], Outside);
          p.(done := [[]] + p.done)
        else if s[0] == '#' || s[0] == '\n' then Pieces([], Some(s))
        else Longer(s[0], Chop(s[1..], if s[0] == '"' then Inside else Outside))
      case Inside =>
        Longer(s[0], Chop(s[1..], if s[0] == '"' then Outside else if s[0] == '\\' then InsideEscaped else Inside))
      case InsideEscaped =>
        Longer(s[0], Chop(s[1..], Inside))
  }

  function Joined(pieces: seq<string>, last: string): string {
    if pieces == [] then last else pieces[0] + ";" + Joined(pieces[1..], last)
  }

  /** Joined with semicolons again, the commands of a line are the line. */
  lemma {:induction false} ChopJoins(s: string, mode: Mode)
    requires Chop(s, mode).last.Some?
    ensures var p := Chop(s, mode); Joined(p.done, p.last.value) == s
  {
    if s != [] && !(mode == Outside && (s[0] == '#' || s[0] == '\n')) {
      var next := if mode == Outside then (if s[0] == '"' then Inside else Outside)
                  else if mode == Inside then
                    (if s[0] == '"' then Outside else if s[0] == '\\' then InsideEscaped else Inside)
                  else Inside;
      ChopJoins(s[1..], next);
      var p := Chop(s[1..], next);
      if mode == Outside && s[0] == ';' {
        assert Joined([[]] + p.done, p.last.value) == [] + ";" + Joined(p.done, p.last.value);
      } else {
        LongerJoins(s[0], p);
      }
      assert [s[0]] + s[1..] == s;
    }
  }

  lemma LongerJoins(c: char, p: Pieces)
    requires p.last.Some?
    ensures var q := Longer(c, p); q.last.Some? && Joined(q.done, q.last.value) == [c] + Joined(p.done, p.last.value)
  {
    if p.done != [] {
      assert ([[c] + p.done[0]] + p.done[1..])[1..] == p.done[1..];
    }
  }

  /** A text put in front of the first command. */
  function Stretch(s: string, p: Pieces): Pieces {
    if s == [] then p else Longer(s[0], Stretch(s[1..], p))
  }

  lemma {:induction false} StretchLast(s: string, t: string)
    ensures Stretch(s, Pieces([], Some(t))) == Pieces([], Some(s + t))
  {
    if s == [] {
      assert s + t == t;
    } else {
      StretchLast(s[1..], t);
      assert [s[0]] + (s[1..] + t) == s + t;
    }
  }

  lemma {:induction false} StretchAdds(s: string, t: string, p: Pieces)
    ensures Stretch(s + t, p) == Stretch(s, Stretch(t, p))
  {
    if s == [] {
      assert s + t == t;
    } else {
      assert (s + t)[1..] == s[1..] + t;
      StretchAdds(s[1..], t, p);
    }
  }

  lemma {:induction false} StretchKeeps(s: string, p: Pieces)
    ensures var q := Stretch(s, p);
            && |q.done| == |p.done| && q.last.Some? == p.last.Some?
            && if p.done != [] then q.done[0] == s + p.done[0] && q.done[1..] == p.done[1..] && q.last == p.last
               else p.last.Some? ==> q.last == Some(s + p.last.value)
  {
    if s == [] {
      assert p.done != [] ==> s + p.done[0] == p.done[0];
      assert p.last.Some? ==> s + p.last.value == p.last.value;
    } else {
      StretchKeeps(s[1..], p);
      assert p.done != [] ==> [s[0]] + (s[1..] + p.done[0]) == s + p.done[0];
      assert p.last.Some? ==> [s[0]] + (s[1..] + p.last.value) == s + p.last.value;
    }
  }

  predicate LineMark(c: char) {
    c == '"' || c == '#' || c == ';' || c == '\n'
  }

  /** Up to the next mark a line is plain text. */
  lemma {:induction false} ChopPlain(s: string, t: string)
    requires forall i :: 0 <= i < |s| ==> !LineMark(s[i])
    ensures Chop(s + t, Outside) == Stretch(s, Chop(t, Outside))
  {
    if s == [] {
      assert s + t == t;
    } else {
      assert (s + t)[1..] == s[1..] + t;
      ChopPlain(s[1..], t);
    }
  }

  /** A quoted stretch goes to the next unescaped quotation mark. */
  lemma {:induction false} ChopInside(s: string, i: nat)
    requires i <= Seek(s, 0, '"') < |s|
    ensures var r := Seek(s, 0, '"');
            Chop(s[i..], if Escaped(s, i) then InsideEscaped else Inside) ==
            Stretch(s[i..r + 1], Chop(s[r + 1..], Outside))
    decreases |s| - i
  {
    var r := Seek(s, 0, '"');
    assert s[i..][1..] == s[i + 1..];
    if i == r {
      assert s[i..r + 1] == ['"'];
      assert Stretch(['"'], Chop(s[r + 1..], Outside)) == Longer('"', Stretch([], Chop(s[r + 1..], Outside)));
    } else {
      ChopInside(s, i + 1);
      assert s[i..r + 1][0] == s[i] && s[i..r + 1][1..] == s[i + 1..r + 1];
    }
  }

  lemma {:induction false} ChopUnclosed(s: string, i: nat)
    requires i <= |s| == Seek(s, 0, '"')
    ensures Chop(s[i..], if Escaped(s, i) then InsideEscaped else Inside) == Pieces([], None)
    decreases |s| - i
  {
    if i < |s| {
      assert s[i..][1..] == s[i + 1..];
      ChopUnclosed(s, i + 1);
    }
  }

  /** The commands that are passed on when command `i` of the line succeeds or not as
      `results` says, and whether the line succeeds. */
  function Obey(p: Pieces, results: nat -> bool, i: nat): (seq<string>, bool)
    decreases |p.done|
  {
    if p.done == [] then
      if p.last.None? then ([], false) else ([p.last.value], results(i))
    else if !results(i) then ([p.done[0]], false)
    else
      var (rest, ok) := Obey(p.(done := p.done[1..]), results, i + 1);
      ([p.done[0]] + rest, ok)
  }

  function Commands(p: Pieces): seq<string> {
    p.done + (if p.last.Some? then [p.last.value] else [])
  }

  /** Commands are passed on in order up to the first that fails; the line succeeds when all
      of them do and no quotation mark is left open. */
  lemma {:induction false} ObeyStops(p: Pieces, results: nat -> bool, i: nat)
    ensures var (passed, ok) := Obey(p, results, i);
            && passed <= Commands(p)
            && (forall j :: i <= j < i + |passed| - 1 ==> results(j))
            && (ok <==> passed == Commands(p) && p.last.Some? && results(i + |p.done|))
            && (!ok ==> (passed == p.done && p.last.None?) || (passed != [] && !results(i + |passed| - 1)))
    decreases |p.done|
  {
    if p.done != [] && results(i) {
      var q := p.(done := p.done[1..]);
      ObeyStops(q, results, i + 1);
      var (rest, ok) := Obey(q, results, i + 1);
      assert Commands(p) == [p.done[0]] + Commands(q);
    }
  }
}
