/**
  Every list of arguments can be written on one line and is read back unchanged, whatever
  characters it holds: with each character behind a back-slash nothing is substituted, and
  inside quotation marks nothing separates.
*/
module NshQuoting {
  import opened Basics
  import opened NshText

  function Escape(s: string): (e: string)
    ensures |e| == 2 * |s|
  {
    if s == [] then [] else ['\\', s[0]] + Escape(s[1..])
  }

  function Quote(s: string): string {
    "\"" + Escape(s) + "\""
  }

  function Write(args: seq<string>): string {
    if args == [] then [] else Quote(args[0]) + " " + Write(args[1..])
  }

  lemma {:induction false} EscapeChars(s: string, k: nat)
    requires k < |s|
    ensures Escape(s)[2 * k] == '\\' && Escape(s)[2 * k + 1] == s[k]
  {
    if k > 0 {
      EscapeChars(s[1..], k - 1);
      assert Escape(s)[2 * k] == Escape(s[1..])[2 * (k - 1)];
      assert Escape(s)[2 * k + 1] == Escape(s[1..])[2 * (k - 1) + 1];
    }
  }

  /** In an escaped text the back-slashes are unescaped and everything else is escaped. */
  lemma {:induction false} EscapeAlternates(s: string, k: nat)
    requires k <= |s|
    ensures !Escaped(Escape(s), 2 * k)
    ensures k < |s| ==> Escape(s)[2 * k] == '\\' && Escaped(Escape(s), 2 * k + 1)
  {
    if k > 0 {
      EscapeAlternates(s, k - 1);
      EscapeChars(s, k - 1);
    }
    if k < |s| {
      EscapeChars(s, k);
    }
  }

  lemma {:induction false} NoSpecial(s: string, k: nat)
    requires k <= |s|
    ensures Special(Escape(s), 2 * k) == |Escape(s)|
    decreases |s| - k
  {
    if k < |s| {
      EscapeAlternates(s, k);
      NoSpecial(s, k + 1);
      assert Special(Escape(s), 2 * k) == Special(Escape(s), 2 * k + 1);
    }
  }

  lemma {:induction false} DequoteEscape(s: string)
    ensures Dequote(Escape(s)) == s
  {
    if s != [] {
      DequoteEscape(s[1..]);
      assert Escape(s)[2..] == Escape(s[1..]);
    }
  }

  /** Nothing in an escaped text is substituted, and undoing the escapes gives it back. */
  lemma ExpandEscape(s: string, w: World)
    ensures Expanded(Escape(s), w) == s
  {
    NoSpecial(s, 0);
    DequoteEscape(s);
  }

  /** No character of an escaped text ends an argument. */
  lemma {:induction false} ScanEscape(s: string, rest: string, k: nat, quoted: bool)
    requires k <= |s|
    ensures ArgEnd(Escape(s) + rest, 2 * k, false, quoted) == ArgEnd(Escape(s) + rest, 2 * |s|, false, quoted)
    decreases |s| - k
  {
    if k < |s| {
      EscapeAlternates(s, k);
      EscapedPrefix(Escape(s), rest, 2 * k);
      EscapedPrefix(Escape(s), rest, 2 * k + 1);
      ScanEscape(s, rest, k + 1, quoted);
    }
  }

  lemma EndOfEscape(s: string, rest: string, quoted: bool)
    requires rest != [] ==> Terminates(rest[0], quoted)
    ensures ArgEnd(Escape(s) + rest, 0, false, quoted) == 2 * |s|
  {
    ScanEscape(s, rest, 0, quoted);
    EscapeAlternates(s, |s|);
    EscapedPrefix(Escape(s), rest, 2 * |s|);
  }

  /** A non-empty text with every character escaped is one argument, up to a separator or
      the end of the line. */
  lemma BareArg(s: string, rest: string, w: World)
    requires s != [] && (rest != [] ==> Separator(rest[0]))
    ensures NextArg(Escape(s) + rest, w) == (Some(s), if rest == [] then [] else rest[1..])
  {
    var line := Escape(s) + rest;
    assert line[0] == '\\' by { EscapeChars(s, 0); }
    EndOfEscape(s, rest, false);
    assert line[..2 * |s|] == Escape(s);
    ExpandEscape(s, w);
    assert rest != [] ==> line[2 * |s| + 1..] == rest[1..];
  }

  lemma QuotedArg(s: string, rest: string, w: World)
    ensures NextArg(Quote(s) + rest, w) == (Some(s), rest)
  {
    var line := Quote(s) + rest;
    var tail := "\"" + rest;
    assert line[0] == '"' && line[1..] == Escape(s) + tail;
    EndOfEscape(s, tail, true);
    assert line[1..][..2 * |s|] == Escape(s);
    assert line[1..][2 * |s| + 1..] == rest;
    ExpandEscape(s, w);
  }

  lemma SkipOne(s: string, w: World)
    ensures NextArg(" " + s, w).0 == NextArg(s, w).0
    ensures NextArg(s, w).0.Some? ==> NextArg(" " + s, w).1 == NextArg(s, w).1
  {
    assert (" " + s)[1..] == s;
    assert SkipSeparators(" " + s) == SkipSeparators(s);
  }

  lemma ArgsSkipOne(s: string, w: World)
    ensures Args(" " + s, w) == Args(s, w)
  {
    SkipOne(s, w);
  }

  /** Every list of arguments, empty ones included, is read back from the line it is
      written on. */
  lemma {:induction false} ArgsWrite(args: seq<string>, w: World)
    ensures Args(Write(args), w) == args
  {
    if args != [] {
      var rest := Write(args[1..]);
      assert Write(args) == Quote(args[0]) + (" " + rest);
      QuotedArg(args[0], " " + rest, w);
      ArgsSkipOne(rest, w);
      ArgsWrite(args[1..], w);
    }
  }

  // ----- And the line is one command -----

  lemma {:induction false} ChopEscape(s: string, rest: string)
    ensures Chop(Escape(s) + rest, Inside) == Stretch(Escape(s), Chop(rest, Inside))
  {
    if s == [] {
      assert Escape(s) + rest == rest;
    } else {
      var line := Escape(s) + rest;
      var tail := Escape(s[1..]) + rest;
      assert line[0] == '\\' && line[1..][0] == s[0] && line[1..][1..] == tail;
      ChopEscape(s[1..], rest);
      assert Chop(line, Inside) == Longer('\\', Longer(s[0], Chop(tail, Inside)));
      assert Escape(s)[1..][0] == s[0] && Escape(s)[1..][1..] == Escape(s[1..]);
    }
  }

  lemma ChopQuote(s: string, rest: string)
    ensures Chop(Quote(s) + rest, Outside) == Stretch(Quote(s), Chop(rest, Outside))
  {
    var line := Quote(s) + rest;
    var tail := "\"" + rest;
    assert line[0] == '"' && line[1..] == Escape(s) + tail;
    ChopEscape(s, tail);
    assert tail[1..] == rest;
    assert Quote(s) == "\"" + (Escape(s) + "\"");
    StretchAdds(Escape(s), "\"", Chop(rest, Outside));
    assert Quote(s)[1..] == Escape(s) + "\"";
    assert Stretch("\"", Chop(rest, Outside)) == Longer('"', Stretch([], Chop(rest, Outside)));
  }

  /** Whatever the arguments hold, their line is a single command. */
  lemma {:induction false} WriteIsOneCommand(args: seq<string>)
    ensures Chop(Write(args), Outside) == Pieces([], Some(Write(args)))
  {
    if args != [] {
      var rest := Write(args[1..]);
      WriteIsOneCommand(args[1..]);
      assert Write(args) == Quote(args[0]) + (" " + rest);
      ChopQuote(args[0], " " + rest);
      assert (" " + rest)[1..] == rest;
      StretchLast(Quote(args[0]), " " + rest);
    }
  }
}
