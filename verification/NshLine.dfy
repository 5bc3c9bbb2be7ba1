/**
  The scanners of the command line, working in the line buffer: they end strings by writing
  NULs into it and close gaps by shifting it.  Each is proved to compute what `NshText` says.
*/
module NshLine {
  import opened Basics
  import opened NshText

  /** A string starts at `i` and is ended by the NUL at `end`. */
  ghost predicate CString(buf: array<char>, i: int, end: int)
    reads buf
  {
    0 <= i <= end < buf.Length && buf[end] == NUL && forall k :: i <= k < end ==> buf[k] != NUL
  }

  /** strcspn(buf + i, "`$") */
  method Cspn(buf: array<char>, i: nat, ghost end: nat) returns (r: nat)
    requires CString(buf, i, end)
    ensures i <= r <= end
    ensures r < end ==> buf[r] == '$' || buf[r] == '`'
    ensures forall k :: i <= k < r ==> buf[k] != '$' && buf[k] != '`'
  {
    r := i;
    while buf[r] != NUL && buf[r] != '$' && buf[r] != '`'
      invariant i <= r <= end
      invariant forall k :: i <= k < r ==> buf[k] != '$' && buf[k] != '`'
      decreases end - r
    {
      r := r + 1;
    }
  }

  /** Whether the character at `ptr` is quoted: the back-slashes in front of it are counted
      back to `working`. */
  method IsQuoted(buf: array<char>, working: nat, ptr: nat, ghost end: nat) returns (quoted: bool)
    requires CString(buf, working, end) && working <= ptr <= end
    ensures quoted == Escaped(buf[working..end], ptr - working)
  {
    ghost var s := buf[working..end];
    var len := ptr - working;
    var bcount := 0;
    quoted := false;
    while bcount < len && buf[ptr - 1 - bcount] == '\\'
      invariant 0 <= bcount <= len
      invariant Escaped(s, len) == (quoted != Escaped(s, len - bcount))
    {
      assert s[len - bcount - 1] == buf[ptr - 1 - bcount];
      quoted := !quoted;
      bcount := bcount + 1;
    }
    if bcount < len {
      assert s[len - bcount - 1] == buf[ptr - 1 - bcount];
    }
  }

  /** The first interesting character that is not quoted. */
  method FindSpecial(buf: array<char>, working: nat, ghost end: nat) returns (ptr: nat)
    requires CString(buf, working, end)
    ensures working <= ptr <= end
    ensures ptr - working == Special(buf[working..end], 0)
  {
    ghost var s := buf[working..end];
    ptr := Cspn(buf, working, end);
    while ptr > working && buf[ptr] != NUL
      invariant working <= ptr <= end
      invariant ptr < end ==> buf[ptr] == '$' || buf[ptr] == '`'
      invariant forall k :: 0 <= k < ptr - working ==> (s[k] != '$' && s[k] != '`') || Escaped(s, k)
      decreases end - ptr
    {
      var quoted := IsQuoted(buf, working, ptr, end);
      if !quoted {
        break;
      }
      var next := Cspn(buf, ptr + 1, end);
      ptr := next;
    }
    SpecialIs(s, ptr - working, 0);
  }

  lemma {:induction false} SpecialIs(s: string, r: nat, i: nat)
    requires i <= r <= |s|
    requires r < |s| ==> (s[r] == '$' || s[r] == '`') && !Escaped(s, r)
    requires forall k :: i <= k < r ==> (s[k] != '$' && s[k] != '`') || Escaped(s, k)
    ensures Special(s, i) == r
    decreases r - i
  {
    if i < r { SpecialIs(s, r, i + 1); }
  }

  /** nsh_strchr: the first unescaped `ch`, or the end. */
  method Strchr(buf: array<char>, i: nat, ch: char, ghost end: nat) returns (found: bool, r: nat)
    requires CString(buf, i, end) && ch != '\\' && ch != NUL
    ensures i <= r <= end && r - i == Seek(buf[i..end], 0, ch)
    ensures found == (r < end)
  {
    ghost var s := buf[i..end];
    var quoted := false;
    r := i;
    while true
      invariant i <= r <= end && quoted == Escaped(s, r - i)
      invariant forall k :: 0 <= k < r - i ==> s[k] != ch || Escaped(s, k)
      decreases end - r
    {
      if buf[r] == '\\' && !quoted {
        assert s[r - i] == '\\';
        quoted := true;
      } else if buf[r] == ch && !quoted {
        SeekIs(s, r - i, 0, ch);
        return true, r;
      } else if buf[r] == NUL {
        SeekIs(s, r - i, 0, ch);
        return false, r;
      } else {
        quoted := false;
      }
      r := r + 1;
    }
  }

  lemma {:induction false} SeekIs(s: string, r: nat, i: nat, c: char)
    requires i <= r <= |s|
    requires r < |s| ==> s[r] == c && !Escaped(s, r)
    requires forall k :: i <= k < r ==> s[k] != c || Escaped(s, k)
    ensures Seek(s, i, c) == r
    decreases r - i
  {
    if i < r { SeekIs(s, r, i + 1, c); }
  }

  /** The shift loop of nsh_dequote: the string behind `ptr` is moved down over it. */
  method CloseGap(buf: array<char>, ptr: nat, ghost end: nat)
    requires CString(buf, ptr, end) && ptr < end
    modifies buf
    ensures CString(buf, ptr, end - 1)
    ensures buf[ptr..end - 1] == old(buf[ptr..end])[1..]
    ensures forall k :: 0 <= k < ptr || end <= k < buf.Length ==> buf[k] == old(buf[k])
  {
    ghost var was := buf[..];
    var dest, src := ptr, ptr + 1;
    while true
      invariant ptr <= dest && src == dest + 1 <= end
      invariant forall k :: 0 <= k < ptr || dest <= k < buf.Length ==> buf[k] == was[k]
      invariant forall k :: ptr <= k < dest ==> buf[k] == was[k + 1]
      decreases end - src
    {
      var ch := buf[src];
      src := src + 1;
      buf[dest] := ch;
      dest := dest + 1;
      if ch == NUL {
        break;
      }
    }
    assert dest == end;
    assert buf[ptr..end - 1] == was[ptr..end][1..];
  }

  /** What is still to come of a dequoted string, when the next character is quoted or not. */
  function DequoteFrom(s: string, quoted: bool): string {
    if quoted && s != [] then [s[0]] + Dequote(s[1..]) else Dequote(s)
  }

  lemma DequoteStep(s: string, quoted: bool)
    requires s != []
    ensures s[0] == '\\' && !quoted ==> DequoteFrom(s, quoted) == DequoteFrom(s[1..], true)
    ensures s[0] != '\\' || quoted ==> DequoteFrom(s, quoted) == [s[0]] + DequoteFrom(s[1..], false)
  {
    if s[0] == '\\' && !quoted && |s| > 1 {
      assert s[1..][1..] == s[2..];
    }
  }

  lemma DequoteStart(s: string)
    ensures DequoteFrom(s, false) == Dequote(s)
  {
  }

  lemma DequoteNothing(quoted: bool)
    ensures DequoteFrom([], quoted) == []
  {
  }

  /** nsh_dequote: the string shrinks in place and is ended again. */
  method DequoteInPlace(buf: array<char>, cmdline: nat, ghost end: nat) returns (ghost stop: nat)
    requires CString(buf, cmdline, end)
    modifies buf
    ensures cmdline <= stop <= end && CString(buf, cmdline, stop)
    ensures buf[cmdline..stop] == Dequote(old(buf[cmdline..end]))
    ensures buf[..cmdline] == old(buf[..cmdline]) && buf[end..] == old(buf[end..])
  {
    hide Dequote, DequoteFrom;
    var quoted := false;
    var ptr := cmdline;
    stop := end;
    ghost var done: string := [];
    DequoteStart(buf[cmdline..end]);
    while buf[ptr] != NUL
      invariant cmdline <= ptr <= stop <= end && CString(buf, ptr, stop)
      invariant done == buf[cmdline..ptr] && NUL !in done
      invariant done + DequoteFrom(buf[ptr..stop], quoted) == Dequote(old(buf[cmdline..end]))
      invariant forall k :: 0 <= k < cmdline || end <= k < buf.Length ==> buf[k] == old(buf[k])
      decreases stop - ptr, if quoted then 0 else 1
    {
      ghost var rest := buf[ptr..stop];
      DequoteStep(rest, quoted);
      if buf[ptr] == '\\' && !quoted {
        ghost var before := buf[..ptr];
        CloseGap(buf, ptr, stop);
        stop := stop - 1;
        quoted := true;
        assert buf[cmdline..ptr] == before[cmdline..];
      } else {
        quoted := false;
        done := done + [buf[ptr]];
        ptr := ptr + 1;
        assert buf[ptr..stop] == rest[1..];
      }
    }
    DequoteNothing(quoted);
    assert buf[ptr..stop] == [];
    assert forall k :: cmdline <= k < ptr ==> buf[k] == done[k - cmdline];
    buf[ptr] := NUL;
  }

  /** nsh_dequote on a string of its own. */
  method DequoteCopy(s: string) returns (t: string)
    requires NUL !in s
    ensures t == Dequote(s)
  {
    var buf := new char[|s| + 1](i => if 0 <= i < |s| then s[i] else NUL);
    assert buf[0..|s|] == s;
    ghost var stop := DequoteInPlace(buf, 0, |s|);
    t := ReadString(buf, 0, stop);
  }

  /** The string at `i`, up to its NUL. */
  method ReadString(buf: array<char>, i: nat, ghost end: nat) returns (s: string)
    requires CString(buf, i, end)
    ensures s == buf[i..end] && NUL !in s
  {
    var k := i;
    while buf[k] != NUL
      invariant i <= k <= end
      decreases end - k
    {
      k := k + 1;
    }
    s := buf[i..k];
  }

  /** Values and command output are C strings. */
  ghost predicate NulFree(w: World) {
    forall x: string :: NUL !in w.env(x) && NUL !in w.cmd(x)
  }

  function Gathered(argument: Option<string>): string {
    if argument.Some? then argument.value else []
  }

  /** A marked-off name or command: from `ptr`, which is ended by a NUL at the closing mark. */
  method CloseMark(buf: array<char>, ptr: nat, ch: char, ghost end: nat) returns (found: bool, text: string, next: nat)
    requires CString(buf, ptr, end) && ch != '\\' && ch != NUL
    modifies buf
    ensures found == (Seek(old(buf[ptr..end]), 0, ch) < end - ptr)
    ensures found ==>
              var r := Seek(old(buf[ptr..end]), 0, ch);
              && text == old(buf[ptr..end])[..r] && NUL !in text && next == ptr + r + 1 <= end
              && CString(buf, next, end) && buf[next..end] == old(buf[ptr..end])[r + 1..]
    ensures buf[..ptr] == old(buf[..ptr]) && buf[end..] == old(buf[end..])
  {
    ghost var s := buf[ptr..end];
    var rptr;
    found, rptr := Strchr(buf, ptr, ch, end);
    text, next := [], ptr;
    if found {
      buf[rptr] := NUL;
      assert CString(buf, ptr, rptr);
      text := ReadString(buf, ptr, rptr);
      next := rptr + 1;
      assert text == s[..rptr - ptr];
      assert buf[next..end] == s[rptr - ptr + 1..];
    }
  }

  /** A back-quote or `${` at `ptr`, whose text is in `inner`. */
  method SubstituteMarked(buf: array<char>, ptr: nat, start: nat, close: char, ghost s: string, ghost p: nat,
                          ghost end: nat, w: World)
    returns (found: bool, text: string, next: nat)
    requires ptr < start && CString(buf, start, end) && Marked(s, p)
    requires start - ptr == (if s[p] == '`' then 1 else 2) && close == (if s[p] == '`' then '`' else '}')
    requires p + (start - ptr) <= |s| && buf[start..end] == s[p + (start - ptr)..]
    modifies buf
    ensures found ==> start < next <= end && CString(buf, next, end)
    ensures Expand(s, w) == if found then Append(s[..p] + Value(s[p], text, w), Expand(buf[next..end], w)) else None
    ensures buf[..start] == old(buf[..start]) && buf[end..] == old(buf[end..])
  {
    hide Expand, Special, Seek, Append, Value;
    ghost var inner := buf[start..end];
    found, text, next := CloseMark(buf, start, close, end);
    ExpandMarked(s, w, p, inner, Seek(inner, 0, close));
  }

  /** A bare `$` at `ptr`, whose name reaches to the end. */
  method SubstituteBare(buf: array<char>, ptr: nat, ghost s: string, ghost p: nat, ghost end: nat, w: World)
    returns (text: string, next: nat)
    requires CString(buf, ptr + 1, end) && p < |s| && p == Special(s, 0) && !Marked(s, p)
    requires buf[ptr + 1..end] == s[p + 1..]
    ensures next == end && text == s[p + 1..] && NUL !in text
    ensures Expand(s, w) == Append(s[..p] + Value(s[p], text, w), Expand(buf[next..end], w))
  {
    hide Expand, Special, Append, Value;
    text := ReadString(buf, ptr + 1, end);
    next := ptr + 1 + |text|;
    assert buf[next..end] == [];
    ExpandUnmarked(s, w);
  }

  /** The special character at `ptr`: the text before it with the value put in, and where
      the text goes on. */
  method Substitute(buf: array<char>, working: nat, ptr: nat, ghost end: nat, w: World)
    returns (found: bool, piece: string, next: nat)
    requires CString(buf, working, end) && NulFree(w)
    requires working <= ptr < end && ptr - working == Special(buf[working..end], 0)
    modifies buf
    ensures found ==> ptr < next <= end && CString(buf, next, end) && NUL !in piece
    ensures Expand(old(buf[working..end]), w) == if found then Append(piece, Expand(buf[next..end], w)) else None
    ensures buf[..working] == old(buf[..working]) && buf[end..] == old(buf[end..])
  {
    hide Expand, Special, Seek, Append, Value, NulFree;
    ghost var s := buf[working..end];
    ghost var p := ptr - working;
    var mark := buf[ptr];
    buf[ptr] := NUL;
    var before := ReadString(buf, working, ptr);
    assert before == s[..p] && mark == s[p];
    var text;
    if mark == '`' || buf[ptr + 1] == '{' {
      var skip, close := if mark == '`' then 1 else 2, if mark == '`' then '`' else '}';
      assert buf[ptr + skip..end] == s[p + skip..];
      found, text, next := SubstituteMarked(buf, ptr, ptr + skip, close, s, p, end, w);
    } else {
      assert buf[ptr + 1..end] == s[p + 1..];
      text, next := SubstituteBare(buf, ptr, s, p, end, w);
      found := true;
    }
    ValueIsString(mark, text, w);
    piece := before + Value(mark, text, w);
  }

  lemma ValueIsString(mark: char, text: string, w: World)
    requires NulFree(w)
    ensures NUL !in Value(mark, text, w)
  {
  }

  /** nsh_argexpand */
  method ArgExpand(buf: array<char>, cmdline: nat, ghost end: nat, w: World) returns (arg: string)
    requires CString(buf, cmdline, end) && NulFree(w)
    modifies buf
    ensures arg == Expanded(old(buf[cmdline..end]), w)
    ensures buf[..cmdline] == old(buf[..cmdline]) && buf[end..] == old(buf[end..])
  {
    hide Expand, Dequote, Special;
    ghost var s := buf[cmdline..end];
    var working := cmdline;
    var argument: Option<string> := None;
    AppendNothing(Expand(s, w));
    while true
      invariant cmdline <= working <= end && CString(buf, working, end)
      invariant argument.None? ==> working == cmdline && buf[cmdline..end] == s
      invariant NUL !in Gathered(argument)
      invariant Expand(s, w) == Append(Gathered(argument), Expand(buf[working..end], w))
      invariant buf[..cmdline] == old(buf[..cmdline]) && buf[end..] == old(buf[end..])
      decreases end - working
    {
      var ptr := FindSpecial(buf, working, end);
      if buf[ptr] == NUL {
        ExpandEnd(buf[working..end], w);
        if argument.Some? {
          var tail := ReadString(buf, working, end);
          arg := DequoteCopy(argument.value + tail);
        } else {
          ghost var stop := DequoteInPlace(buf, cmdline, end);
          arg := ReadString(buf, cmdline, stop);
        }
        return;
      }
      var found, piece, next := Substitute(buf, working, ptr, end, w);
      if !found {
        return "";
      }
      AppendTwice(Gathered(argument), piece, Expand(buf[next..end], w));
      argument := Some(Gathered(argument) + piece);
      working := next;
    }
  }

  lemma AppendNothing(t: Option<string>)
    ensures Append([], t) == t
  {
    assert t.Some? ==> [] + t.value == t.value;
  }

  // ----- Arguments -----

  /** The loop of nsh_argument that looks for the end of an argument. */
  method FindArgEnd(buf: array<char>, pbegin: nat, term: bool, ghost end: nat) returns (pend: nat)
    requires CString(buf, pbegin, end)
    ensures pbegin <= pend <= end && pend - pbegin == ArgEnd(buf[pbegin..end], 0, false, term)
  {
    ghost var s := buf[pbegin..end];
    var quoted, backquote := false, false;
    pend := pbegin;
    while buf[pend] != NUL
      invariant pbegin <= pend <= end
      invariant pend > pbegin ==> quoted == Escaped(s, pend - pbegin - 1)
      invariant pend == pbegin ==> !quoted
      invariant ArgEnd(s, pend - pbegin, backquote, term) == ArgEnd(s, 0, false, term)
      decreases end - pend
    {
      ghost var i := pend - pbegin;
      assert s[i] == buf[pend];
      if pend > pbegin && buf[pend - 1] == '\\' && !quoted {
        assert Escaped(s, i);
        quoted := true;
      } else {
        assert !Escaped(s, i);
        quoted := false;
        if buf[pend] == '\\' {
        } else if buf[pend] == '`' {
          backquote := !backquote;
        } else if !backquote && Terminates(buf[pend], term) {
          return;
        }
      }
      pend := pend + 1;
    }
  }

  method SkipBlanks(buf: array<char>, save: nat, ghost end: nat) returns (pbegin: nat)
    requires CString(buf, save, end)
    ensures save <= pbegin <= end && buf[pbegin..end] == SkipSeparators(buf[save..end])
  {
    pbegin := save;
    while buf[pbegin] != NUL && Separator(buf[pbegin])
      invariant save <= pbegin <= end
      invariant SkipSeparators(buf[pbegin..end]) == SkipSeparators(buf[save..end])
      decreases end - pbegin
    {
      assert buf[pbegin..end][1..] == buf[pbegin + 1..end];
      pbegin := pbegin + 1;
    }
    assert pbegin < end ==> buf[pbegin..end][0] == buf[pbegin];
  }

  /** The argument that starts at `pbegin`, which is ended in the buffer and expanded. */
  method TakeArgument(buf: array<char>, pbegin: nat, term: bool, ghost end: nat, w: World)
    returns (value: string, pend: nat)
    requires CString(buf, pbegin, end) && NulFree(w)
    modifies buf
    ensures pbegin <= pend <= end && CString(buf, pend, end)
    ensures var text := old(buf[pbegin..end]);
            var e := ArgEnd(text, 0, false, term);
            value == Expanded(text[..e], w) && buf[pend..end] == if e < |text| then text[e + 1..] else []
  {
    hide Expanded, ArgEnd;
    ghost var text := buf[pbegin..end];
    pend := FindArgEnd(buf, pbegin, term, end);
    ghost var stop := pend;
    if buf[pend] != NUL {
      buf[pend] := NUL;
      pend := pend + 1;
    }
    assert buf[pbegin..stop] == text[..stop - pbegin];
    ghost var tail := buf[stop..];
    value := ArgExpand(buf, pbegin, stop, w);
    assert buf[stop..] == tail;
    assert forall k :: stop <= k < buf.Length ==> buf[k] == tail[k - stop];
    assert buf[pend..end] == if stop < end then text[stop - pbegin + 1..] else [];
  }

  /** nsh_argument: the next argument, ended in the buffer, and where to go on. */
  method Argument(buf: array<char>, save: nat, ghost end: nat, w: World) returns (arg: Option<string>, next: nat)
    requires CString(buf, save, end) && NulFree(w)
    modifies buf
    ensures save <= next <= end && CString(buf, next, end)
    ensures (arg, buf[next..end]) == NextArg(old(buf[save..end]), w)
  {
    hide Expanded, ArgEnd, SkipSeparators, NulFree;
    var pbegin := SkipBlanks(buf, save, end);
    ghost var t := buf[pbegin..end];
    if buf[pbegin] == NUL {
      return None, save;
    }
    assert t[0] == buf[pbegin];
    if buf[pbegin] == '>' {
      if buf[pbegin + 1] == '>' {
        assert buf[pbegin + 2..end] == t[2..];
        return Some(">>"), pbegin + 2;
      } else {
        assert buf[pbegin + 1..end] == t[1..];
        return Some(">"), pbegin + 1;
      }
    } else if buf[pbegin] == '#' {
      return None, pbegin;
    }
    var term := buf[pbegin] == '"';
    if term {
      pbegin := pbegin + 1;
    }
    assert buf[pbegin..end] == if term then t[1..] else t;
    var value;
    value, next := TakeArgument(buf, pbegin, term, end, w);
    arg := Some(value);
  }

  /** All the arguments of a command. */
  method Arguments(buf: array<char>, ghost end: nat, w: World) returns (argv: seq<string>)
    requires CString(buf, 0, end) && NulFree(w)
    modifies buf
    ensures argv == Args(old(buf[0..end]), w)
  {
    argv := [];
    var save := 0;
    while true
      invariant 0 <= save <= end && CString(buf, save, end)
      invariant argv + Args(buf[save..end], w) == Args(old(buf[0..end]), w)
      decreases end - save
    {
      ghost var rest := buf[save..end];
      var arg, next := Argument(buf, save, end, w);
      if arg.None? {
        assert argv + [] == argv;
        return;
      }
      assert argv + ([arg.value] + Args(buf[next..end], w)) == (argv + [arg.value]) + Args(buf[next..end], w);
      argv := argv + [arg.value];
      save := next;
    }
  }

  // ----- Lines -----

  predicate NoMark(s: string) {
    forall i :: 0 <= i < |s| ==> !LineMark(s[i])
  }

  /** strcspn(buf + i, "\"#;\n") */
  method FindLineMark(buf: array<char>, i: nat, ghost end: nat) returns (ptr: nat)
    requires CString(buf, i, end)
    ensures i <= ptr <= end && (ptr < end ==> LineMark(buf[ptr]))
    ensures ptr < end ==> buf[ptr] == '"' || buf[ptr] == '#' || buf[ptr] == ';' || buf[ptr] == '\n'
    ensures NoMark(buf[i..ptr])
  {
    ptr := i;
    while buf[ptr] != NUL && !LineMark(buf[ptr])
      invariant i <= ptr <= end
      invariant forall k :: i <= k < ptr ==> !LineMark(buf[k])
      decreases end - ptr
    {
      ptr := ptr + 1;
    }
  }

  /** The first command of `s` reaches at least up to `a`. */
  ghost predicate Reaches(s: string, a: nat) {
    a <= |s| && Chop(s, Outside) == Stretch(s[..a], Chop(s[a..], Outside))
  }

  lemma Onward(s: string, a: nat, b: nat)
    requires a <= b <= |s| && Reaches(s, a)
    requires Chop(s[a..], Outside) == Stretch(s[a..b], Chop(s[b..], Outside))
    ensures Reaches(s, b)
  {
    StretchAdds(s[..a], s[a..b], Chop(s[b..], Outside));
    assert s[..a] + s[a..b] == s[..b];
  }

  lemma Parts(s: string, a: nat, b: nat)
    requires a <= b <= |s|
    ensures s[a..] == s[a..b] + s[b..]
    ensures s[..b] == s[..a] + s[a..b]
    ensures s == s[..a] + (s[a..b] + s[b..])
  {
  }

  lemma OnwardOver(x: string, y: string, z: string)
    requires NoMark(y) && Chop(x + (y + z), Outside) == Stretch(x, Chop(y + z, Outside))
    ensures Chop(x + (y + z), Outside) == Stretch(x + y, Chop(z, Outside))
  {
    hide Chop, Stretch, LineMark;
    ChopPlain(y, z);
    StretchAdds(x, y, Chop(z, Outside));
  }

  lemma OnwardPlain(s: string, a: nat, b: nat)
    requires a <= b <= |s| && Reaches(s, a)
    requires NoMark(s[a..b])
    ensures Reaches(s, b)
  {
    hide Chop, Stretch, NoMark;
    Parts(s, a, b);
    OnwardOver(s[..a], s[a..b], s[b..]);
  }

  lemma SliceOfSlice(t: string, lo: nat, i: nat, j: nat, hi: nat)
    requires lo <= i <= j <= hi <= |t|
    ensures t[lo..hi][i - lo..j - lo] == t[i..j]
    ensures j < hi ==> t[lo..hi][j - lo] == t[j]
  {
    var x, y := t[lo..hi][i - lo..j - lo], t[i..j];
    assert |x| == |y| && forall k :: 0 <= k < |y| ==> x[k] == y[k];
  }

  lemma ChopQuotedPart(t: string, r: nat)
    requires r == Seek(t, 0, '"')
    ensures r < |t| ==> Chop(['"'] + t, Outside) == Stretch(['"'] + t[..r + 1], Chop(t[r + 1..], Outside))
    ensures r == |t| ==> Chop(['"'] + t, Outside) == Pieces([], None)
  {
    assert (['"'] + t)[1..] == t[0..] == t;
    if r < |t| {
      ChopInside(t, 0);
      assert t[0..r + 1] == t[..r + 1];
      assert (['"'] + t[..r + 1])[1..] == t[..r + 1];
    } else {
      ChopUnclosed(t, 0);
    }
  }

  lemma OnwardQuoted(s: string, a: nat, r: nat)
    requires a < |s| && s[a] == '"' && Reaches(s, a)
    requires r == Seek(s[a + 1..], 0, '"')
    ensures a + 1 + r < |s| ==> Reaches(s, a + r + 2)
    ensures a + 1 + r == |s| ==> Chop(s, Outside) == Pieces([], None)
  {
    hide Chop, Stretch, Seek;
    var t := s[a + 1..];
    assert s[a..] == ['"'] + t;
    ChopQuotedPart(t, r);
    if r < |t| {
      assert ['"'] + t[..r + 1] == s[a..a + r + 2];
      assert t[r + 1..] == s[a + r + 2..];
      Onward(s, a, a + r + 2);
    } else {
      StretchKeeps(s[..a], Pieces([], None));
    }
  }

  /** What is left of a line at its end, a comment or a newline is one command. */
  lemma ChopLast(t: string)
    requires t == [] || t[0] == '#' || t[0] == '\n'
    ensures Chop(t, Outside) == Pieces([], Some(t))
  {
  }

  lemma ChopSemicolon(t: string)
    requires t != [] && t[0] == ';'
    ensures var p := Chop(t[1..], Outside); Chop(t, Outside) == p.(done := [[]] + p.done)
  {
  }

  /** The last command of a line, or one that a semicolon ends. */
  lemma FirstCommand(s: string, a: nat)
    requires Reaches(s, a)
    ensures a == |s| || s[a] == '#' || s[a] == '\n' ==> Chop(s, Outside) == Pieces([], Some(s))
    ensures a < |s| && s[a] == ';' ==>
              var p, q := Chop(s, Outside), Chop(s[a + 1..], Outside);
              p.done != [] && p.done[0] == s[..a] && p.(done := p.done[1..]) == q
  {
    hide Chop, Stretch;
    if a < |s| && s[a] == ';' {
      assert s[a..][1..] == s[a + 1..];
      ChopSemicolon(s[a..]);
      StretchKeeps(s[..a], Chop(s[a..], Outside));
      assert s[..a] + [] == s[..a];
    } else if a == |s| || s[a] == '#' || s[a] == '\n' {
      ChopLast(s[a..]);
      StretchLast(s[..a], s[a..]);
      assert s[..a] + s[a..] == s;
    }
  }

  /** The command up to a semicolon is ended there. */
  method CutCommand(buf: array<char>, start: nat, ptr: nat, ghost end: nat) returns (cmd: string)
    requires CString(buf, start, end) && start <= ptr < end
    modifies buf
    ensures CString(buf, ptr + 1, end)
    ensures var s, a := old(buf[start..end]), ptr - start; cmd == s[..a] && buf[ptr + 1..end] == s[a + 1..]
  {
    ghost var s := buf[start..end];
    buf[ptr] := NUL;
    cmd := ReadString(buf, start, ptr);
    assert cmd == s[..ptr - start];
  }

  /** The first quotation mark, comment, semicolon or newline, or the end of the text. */
  function MarkAt(s: string): (k: nat)
    ensures k <= |s| && (k < |s| ==> LineMark(s[k])) && forall i :: 0 <= i < k ==> !LineMark(s[i])
  {
    if s == [] || LineMark(s[0]) then 0 else 1 + MarkAt(s[1..])
  }

  predicate QuoteFirst(s: string) {
    MarkAt(s) < |s| && s[MarkAt(s)] == '"'
  }

  /** The place behind the last quoted part of the first command of a text. */
  function Behind(s: string): (k: nat)
    ensures k <= |s|
    decreases |s|
  {
    if !QuoteFirst(s) then 0
    else
      var a := MarkAt(s);
      var b := a + Seek(s[a + 1..], 0, '"') + 2;
      if b > |s| then 0 else b + Behind(s[b..])
  }

  lemma MarkIs(s: string, k: nat)
    requires k < |s| && LineMark(s[k]) && NoMark(s[..k])
    ensures MarkAt(s) == k
  {
    assert forall i :: 0 <= i < k ==> s[i] == s[..k][i];
  }

  lemma QuoteBefore(s: string, a: nat)
    requires a < |s| && LineMark(s[a]) && s[a] != '"'
    ensures QuoteFirst(s[..a]) == QuoteFirst(s)
  {
    var k := MarkAt(s);
    if k < a {
      assert s[..a][..k] == s[..k];
      MarkIs(s[..a], k);
    }
  }

  /** Plain text up to the next mark. */
  method ScanPlain(buf: array<char>, start: nat, working: nat, ghost end: nat) returns (ptr: nat)
    requires CString(buf, start, end) && start <= working <= end
    requires Reaches(buf[start..end], working - start)
    ensures working <= ptr <= end && (ptr < end ==> LineMark(buf[ptr]))
    ensures var s, a := buf[start..end], ptr - start;
            && Reaches(s, a)
            && (ptr < end ==> s[a] == buf[ptr]) && NoMark(s[working - start..a])
  {
    hide Reaches, Chop, Stretch, LineMark, NoMark;
    ptr := FindLineMark(buf, working, end);
    ghost var s := buf[start..end];
    SliceOfSlice(buf[..], start, working, ptr, end);
    assert buf[..][start..end] == s && buf[..][working..ptr] == buf[working..ptr];
    OnwardPlain(s, working - start, ptr - start);
  }

  /** A quoted part, up to its closing mark. */
  method ScanQuoted(buf: array<char>, start: nat, ptr: nat, ghost end: nat) returns (found: bool, working: nat)
    requires CString(buf, start, end) && start <= ptr < end && buf[ptr] == '"'
    requires Reaches(buf[start..end], ptr - start)
    ensures var s := buf[start..end];
            if found then
              && ptr < working <= end && Seek(s[ptr - start + 1..], 0, '"') == working - ptr - 2
              && Reaches(s, working - start)
            else Chop(s, Outside) == Pieces([], None)
  {
    hide Reaches, Chop, Stretch, Seek;
    ghost var s, a := buf[start..end], ptr - start;
    SliceOfSlice(buf[..], start, ptr + 1, end, end);
    assert buf[..][start..end] == s && buf[..][ptr + 1..end] == buf[ptr + 1..end];
    var tmp;
    found, tmp := Strchr(buf, ptr + 1, '"', end);
    OnwardQuoted(s, a, tmp - ptr - 1);
    working := tmp + 1;
  }

  /**
    One command of a line: where it ends, and where the scan went on behind the last quotation
    mark in it, which is what the parser takes for the beginning of the command.
  */
  method ScanCommand(buf: array<char>, start: nat, ghost end: nat) returns (closed: bool, ptr: nat, working: nat)
    requires CString(buf, start, end)
    ensures closed ==> start <= working <= ptr <= end && (ptr < end ==> LineMark(buf[ptr]) && buf[ptr] != '"')
    ensures var s := buf[start..end];
            if closed then
              && Reaches(s, ptr - start)
              && working == start + Behind(s)
            else Chop(s, Outside) == Pieces([], None)
  {
    hide Reaches, Chop, Stretch, LineMark, Behind, NoMark, Seek;
    ghost var s := buf[start..end];
    working := start;
    StretchStart(s);
    assert s[0..] == s;
    while true
      invariant start <= working <= end
      invariant Reaches(s, working - start)
      invariant Behind(s) == working - start + Behind(s[working - start..])
      decreases end - working
    {
      ptr := ScanPlain(buf, start, working, end);
      if buf[ptr] != '"' {
        BehindPlain(s, working - start, ptr - start);
        closed := true;
        return;
      }
      ghost var was := working;
      var found;
      found, working := ScanQuoted(buf, start, ptr, end);
      if !found {
        return false, ptr, working;
      }
      BehindQuoted(s, was - start, ptr - start);
    }
  }

  lemma BehindPlain(s: string, i: nat, a: nat)
    requires i <= a <= |s| && NoMark(s[i..a]) && (a < |s| ==> LineMark(s[a]) && s[a] != '"')
    ensures Behind(s[i..]) == 0
  {
    if a < |s| {
      assert s[i..][..a - i] == s[i..a];
      MarkIs(s[i..], a - i);
    } else {
      assert s[i..] == s[i..a];
    }
  }

  lemma BehindQuoted(s: string, i: nat, a: nat)
    requires i <= a < |s| && NoMark(s[i..a]) && s[a] == '"' && Seek(s[a + 1..], 0, '"') < |s| - a - 1
    ensures var b := a + Seek(s[a + 1..], 0, '"') + 2; Behind(s[i..]) == b - i + Behind(s[b..])
  {
    hide Seek, MarkAt, Behind, NoMark;
    var t := s[i..];
    SliceOfTail(s, i, a - i);
    MarkIs(t, a - i);
    SliceOfTail(s, i, a - i + 1);
    BehindQuote(t);
    SliceOfTail(s, i, a - i + Seek(s[a + 1..], 0, '"') + 2);
  }

  /** One quoted part. */
  lemma BehindQuote(s: string)
    requires QuoteFirst(s)
    ensures var b := MarkAt(s) + Seek(s[MarkAt(s) + 1..], 0, '"') + 2;
            Behind(s) == if b > |s| then 0 else b + Behind(s[b..])
  {
    hide Seek, MarkAt, LineMark, QuoteFirst;
  }

  // ----- Where commands begin -----

  /** Where command `j` of a line begins: behind the commands before it and their semicolons. */
  function At(p: Pieces, j: nat): nat
    requires j <= |p.done|
  {
    if j == 0 then 0 else At(p, j - 1) + |p.done[j - 1]| + 1
  }

  /** The commands of a line from `j` on. */
  function From(p: Pieces, j: nat): Pieces
    requires j <= |p.done|
  {
    p.(done := p.done[j..])
  }

  lemma {:induction false} ChopFirst(s: string, mode: Mode)
    requires Chop(s, mode).done != []
    ensures var p := Chop(s, mode); var a := |p.done[0]|;
            a < |s| && s[..a] == p.done[0] && s[a] == ';' && Chop(s[a + 1..], Outside) == From(p, 1)
  {
    if mode == Outside && s[0] == ';' {
      assert s[..0] == [];
    } else {
      var next := if mode == Outside then (if s[0] == '"' then Inside else Outside)
                  else if mode == Inside then
                    (if s[0] == '"' then Outside else if s[0] == '\\' then InsideEscaped else Inside)
                  else Inside;
      ChopFirst(s[1..], next);
      FirstLonger(s, Chop(s[1..], next));
    }
  }

  lemma FirstLonger(s: string, p: Pieces)
    requires s != [] && p.done != []
    requires var a := |p.done[0]|;
             a < |s| - 1 && s[1..][..a] == p.done[0] && s[1..][a] == ';' && Chop(s[1..][a + 1..], Outside) == From(p, 1)
    ensures var q := Longer(s[0], p); var a := |p.done[0]| + 1;
            q.done != [] && q.done[0] == s[..a] && s[a] == ';' && Chop(s[a + 1..], Outside) == From(q, 1)
  {
    hide Chop;
    var a := |p.done[0]|;
    assert s[..a + 1] == [s[0]] + s[1..][..a];
    assert s[1..][a + 1..] == s[a + 2..];
    assert Longer(s[0], p).done[1..] == p.done[1..];
  }

  /** Reading a line from the beginning of a command on gives that command and those behind it. */
  lemma {:induction false} ChopFrom(line: string, j: nat)
    requires j <= |Chop(line, Outside).done|
    ensures var p := Chop(line, Outside); At(p, j) <= |line| && Chop(line[At(p, j)..], Outside) == From(p, j)
  {
    hide Chop;
    var p := Chop(line, Outside);
    if j == 0 {
      assert line[0..] == line;
    } else {
      ChopFrom(line, j - 1);
      var k := At(p, j - 1);
      ChopFirst(line[k..], Outside);
      assert line[k..][|p.done[j - 1]| + 1..] == line[At(p, j)..];
      assert p.done[j - 1..][1..] == p.done[j..];
    }
  }

  lemma LastIsLine(s: string)
    requires Chop(s, Outside).done == [] && Chop(s, Outside).last.Some?
    ensures Chop(s, Outside).last.value == s
  {
    ChopJoins(s, Outside);
  }

  /** A quotation mark is the first mark of a command as it is of the rest of the line. */
  lemma CommandAt(line: string, j: nat)
    requires j < |Commands(Chop(line, Outside))|
    ensures var p := Chop(line, Outside); var cmd := Commands(p)[j];
            && At(p, j) + |cmd| <= |line| && cmd == line[At(p, j)..At(p, j) + |cmd|]
            && QuoteFirst(cmd) == QuoteFirst(line[At(p, j)..])
  {
    hide Chop, QuoteFirst, LineMark;
    var p := Chop(line, Outside);
    ChopFrom(line, j);
    var s := line[At(p, j)..];
    if j < |p.done| {
      ChopFirst(s, Outside);
      var a := |p.done[j]|;
      SemicolonMarks();
      QuoteBefore(s, a);
      assert s[..a] == line[At(p, j)..At(p, j) + a];
    } else {
      assert From(p, j).done == [];
      LastIsLine(s);
      assert s == line[At(p, j)..At(p, j) + |s|];
    }
  }

  lemma SemicolonMarks()
    ensures LineMark(';')
  {
  }

  lemma {:induction false} BehindStretch(s: string)
    requires Commands(Chop(s, Outside)) != []
    ensures Behind(s) > 0 <==> QuoteFirst(s)
    ensures Reaches(s, Behind(s))
    decreases |s|
  {
    hide Chop, Stretch, Seek, MarkAt, LineMark, Behind;
    if QuoteFirst(s) {
      var a := MarkAt(s);
      var r := Seek(s[a + 1..], 0, '"');
      StretchToMark(s);
      OnwardQuoted(s, a, r);
      BehindQuote(s);
      var b := a + r + 2;
      StretchKeeps(s[..b], Chop(s[b..], Outside));
      BehindStretch(s[b..]);
      var k := Behind(s[b..]);
      BehindBound(s[b..]);
      SliceOfTail(s, b, k);
      Onward(s, b, b + k);
    } else {
      BehindNone(s);
      StretchStart(s);
    }
  }

  lemma BehindNone(s: string)
    requires !QuoteFirst(s)
    ensures Behind(s) == 0
  {
  }

  lemma SliceOfTail(s: string, b: nat, k: nat)
    requires b + k <= |s|
    ensures s[b..][..k] == s[b..b + k] && s[b..][k..] == s[b + k..]
  {
  }

  lemma StretchToMark(s: string)
    ensures Reaches(s, MarkAt(s))
  {
    hide Chop, Stretch, LineMark;
    var a := MarkAt(s);
    assert s[..a] + s[a..] == s;
    ChopPlain(s[..a], s[a..]);
  }

  /** What the parser notes as the beginning of command `j`, and goes back to when the command
      opens a loop: the place behind its last quotation mark. */
  function NotedAt(line: string, j: nat): nat
    requires j <= |Chop(line, Outside).done|
  {
    ChopFrom(line, j);
    var k := At(Chop(line, Outside), j);
    k + Behind(line[k..])
  }

  /** Reading the line again from there gives command `j` and those behind it exactly if no
      quotation mark comes before a comment or the end of the command. */
  lemma NotedIsRight(line: string, j: nat)
    requires j < |Commands(Chop(line, Outside))|
    ensures var p, k := Chop(line, Outside), NotedAt(line, j); var quoted := QuoteFirst(Commands(p)[j]);
            && At(p, j) <= k <= |line| && (k == At(p, j) <==> !quoted)
            && (Commands(Chop(line[k..], Outside)) == Commands(p)[j..] <==> !quoted)
  {
    hide Chop, Stretch, QuoteFirst, Behind;
    var p := Chop(line, Outside);
    ChopFrom(line, j);
    CommandAt(line, j);
    var a := At(p, j);
    var s := line[a..];
    BehindStretch(s);
    var k := Behind(s);
    BehindBound(s);
    assert s[k..] == line[a + k..];
    assert Commands(From(p, j)) == Commands(p)[j..];
    if k > 0 {
      StretchShows(s[..k], Chop(s[k..], Outside));
    } else {
      assert s[0..] == s;
    }
  }

  lemma StretchShows(s: string, p: Pieces)
    requires s != [] && Commands(Stretch(s, p)) != []
    ensures Commands(Stretch(s, p)) != Commands(p)
  {
    hide Stretch;
    StretchKeeps(s, p);
    var q := Stretch(s, p);
    assert |Commands(q)[0]| > |Commands(p)[0]|;
  }

  lemma BehindBound(s: string)
    ensures Behind(s) <= |s|
  {
  }

  /** The input `while t "a"`: the loop would go back behind the mark, to an empty command. */
  lemma QuotedTest()
    ensures var line := "while t \"a\"";
            && Commands(Chop(line, Outside)) == [line] && NotedAt(line, 0) == |line|
            && Commands(Chop(line[|line|..], Outside)) == [[]]
  {
    hide Chop, Stretch, MarkAt, LineMark, Behind, Seek;
    var line := "while t \"a\"";
    assert line[8] == '"' && line[9..] == "a\"" && line[11..] == [] && line[..11] == line && line[0..] == line;
    WordsBefore(line);
    SeekTwo();
    StretchToMark(line);
    OnwardQuoted(line, 8, 1);
    ChopLast([]);
    StretchLast(line, []);
    assert line + [] == line;
    assert Chop(line, Outside) == Pieces([], Some(line));
    BehindQuote(line);
    BehindBound(line);
    assert line[|line|..] == [];
  }

  lemma WordsBefore(line: string)
    requires line == "while t \"a\""
    ensures MarkAt(line) == 8
  {
    assert NoMark(line[..8]);
    MarkIs(line, 8);
  }

  lemma SeekTwo()
    ensures Seek("a\"", 0, '"') == 1
  {
    var text := "a\"";
    assert text[0] == 'a' && text[1] == '"' && !Escaped(text, 0) && !Escaped(text, 1);
    assert Seek(text, 0, '"') == Seek(text, 1, '"');
  }

  /**
    nsh_parse: the commands of a line are passed on one by one, with what the parser notes as
    the beginning of each.
  */
  method ParseLine(buf: array<char>, ghost end: nat, results: nat -> bool)
    returns (passed: seq<string>, ok: bool, loffs: seq<nat>)
    requires CString(buf, 0, end)
    modifies buf
    ensures (passed, ok) == Obey(Chop(old(buf[0..end]), Outside), results, 0)
    ensures Noted(old(buf[0..end]), passed, loffs)
  {
    hide Reaches, Chop, Stretch, Obey, LineMark, Behind, Noted;
    passed, loffs := [], [];
    var start := 0;
    ghost var line := buf[0..end];
    ghost var p := Chop(line, Outside);
    NotedNone(line);
    ghost var total := Obey(p, results, 0);
    ghost var todo := total;
    assert passed + todo.0 == total.0 && line[0..] == line;
    while true
      invariant 0 <= start <= end && CString(buf, start, end) && line[start..] == buf[start..end]
      invariant todo == Obey(Chop(line[start..], Outside), results, |passed|) && total == (passed + todo.0, todo.1)
      invariant |passed| <= |p.done| && start == At(p, |passed|)
      invariant Noted(line, passed, loffs)
      decreases end - start
    {
      ghost var s := line[start..];
      ChopFrom(line, |passed|);
      var closed, ptr, working := ScanCommand(buf, start, end);
      if !closed {
        ObeyLast(None, results, |passed|);
        assert passed + [] == passed;
        return passed, false, loffs;
      }
      ghost var a := ptr - start;
      assert ptr < end ==> s[a] == buf[ptr];
      if buf[ptr] == ';' {
        FirstCommand(s, a);
        ObeySemicolon(s, a, results, |passed|);
        var cmd := CutCommand(buf, start, ptr, end);
        assert s[a + 1..] == line[ptr + 1..];
        ok := results(|passed|);
        ghost var next := Obey(Chop(line[ptr + 1..], Outside), results, |passed| + 1);
        assert passed + ([cmd] + next.0) == (passed + [cmd]) + next.0;
        NotedMore(line, passed, loffs, cmd, working);
        passed, loffs := passed + [cmd], loffs + [working];
        if !ok {
          return;
        }
        start, todo := ptr + 1, next;
      } else {
        MarkEnds(buf[ptr], s, a);
        ObeyRest(s, a, results, |passed|);
        var cmd := ReadString(buf, start, end);
        ok := results(|passed|);
        NotedMore(line, passed, loffs, cmd, working);
        passed, loffs := passed + [cmd], loffs + [working];
        return;
      }
    }
  }

  ghost predicate Noted(line: string, passed: seq<string>, loffs: seq<nat>) {
    && |passed| == |loffs| <= |Chop(line, Outside).done| + 1
    && forall i :: 0 <= i < |passed| ==> loffs[i] == NotedAt(line, i)
  }

  lemma NotedNone(line: string)
    ensures Noted(line, [], [])
  {
  }

  lemma NotedMore(line: string, passed: seq<string>, loffs: seq<nat>, cmd: string, loff: nat)
    requires Noted(line, passed, loffs) && |passed| <= |Chop(line, Outside).done| && loff == NotedAt(line, |passed|)
    ensures Noted(line, passed + [cmd], loffs + [loff])
  {
    hide NotedAt, Chop;
  }

  lemma MarkEnds(c: char, s: string, a: nat)
    requires a <= |s| && (a < |s| ==> s[a] == c && LineMark(c)) && c != '"' && c != ';'
    ensures a == |s| || s[a] == '#' || s[a] == '\n'
  {
  }

  lemma ObeyLast(last: Option<string>, results: nat -> bool, i: nat)
    ensures Obey(Pieces([], last), results, i) == if last.None? then ([], false) else ([last.value], results(i))
  {
  }

  lemma ObeyFirst(p: Pieces, results: nat -> bool, i: nat)
    requires p.done != []
    ensures var next := Obey(p.(done := p.done[1..]), results, i + 1);
            Obey(p, results, i) == if results(i) then ([p.done[0]] + next.0, next.1) else ([p.done[0]], false)
  {
  }

  /** The rest of a line up to its end, a comment or a newline. */
  lemma ObeyRest(s: string, a: nat, results: nat -> bool, i: nat)
    requires Reaches(s, a)
    requires a == |s| || s[a] == '#' || s[a] == '\n'
    ensures Obey(Chop(s, Outside), results, i) == ([s], results(i))
  {
    hide Chop, Stretch, Obey;
    FirstCommand(s, a);
    ObeyLast(Some(s), results, i);
  }

  /** The command up to a semicolon, and then what is behind it, unless the command fails. */
  lemma ObeySemicolon(s: string, a: nat, results: nat -> bool, i: nat)
    requires a < |s| && s[a] == ';' && Reaches(s, a)
    ensures var next := Obey(Chop(s[a + 1..], Outside), results, i + 1);
            Obey(Chop(s, Outside), results, i) == if results(i) then ([s[..a]] + next.0, next.1) else ([s[..a]], false)
  {
    hide Chop, Stretch, Obey;
    FirstCommand(s, a);
    ObeyFirst(Chop(s, Outside), results, i);
  }

  lemma StretchStart(s: string)
    ensures Reaches(s, 0)
  {
    assert s[0..] == s;
  }
}
