/**
  Substitution as a whole: every text is a list of pieces, literal text, `${name}` and
  back-quoted commands, and a tail; it expands to the values of the pieces, put together.
*/
module NshTemplate {
  import opened Basics
  import opened NshText

  datatype Piece = Literal(text: string) | Name(text: string) | Command(text: string)

  /** How a text may end: as it is, with a bare `$name`, or with a mark that is not closed. */
  datatype Tail = Plain(text: string) | Bare(name: string) | Open(mark: char, text: string)

  /** The mark `c` is not in the text, except escaped, and the text does not end in the middle
      of an escape. */
  predicate Closed(text: string, c: char) {
    Seek(text, 0, c) == |text| && !Escaped(text, |text|)
  }

  predicate Proper(p: Piece) {
    match p
    case Literal(text) => Special(text, 0) == |text| && !Escaped(text, |text|)
    case Name(text) => Closed(text, '}')
    case Command(text) => Closed(text, '`')
  }

  predicate ProperTail(t: Tail) {
    match t
    case Plain(text) => Special(text, 0) == |text|
    case Bare(name) => name == [] || name[0] != '{'
    case Open(mark, text) => (mark == '`' || mark == '}') && Seek(text, 0, mark) == |text|
  }

  function Shown(p: Piece): string {
    match p
    case Literal(text) => text
    case Name(text) => "${" + (text + "}")
    case Command(text) => "`" + (text + "`")
  }

  function ShownTail(t: Tail): string {
    match t
    case Plain(text) => text
    case Bare(name) => "$" + name
    case Open(mark, text) => (if mark == '`' then "`" else "${") + text
  }

  function Render(pieces: seq<Piece>, tail: Tail): string {
    if pieces == [] then ShownTail(tail) else Shown(pieces[0]) + Render(pieces[1..], tail)
  }

  function ValueOf(p: Piece, w: World): string {
    match p
    case Literal(text) => text
    case Name(text) => w.env(text)
    case Command(text) => w.cmd(text)
  }

  /** A mark that is not closed loses everything. */
  function Result(pieces: seq<Piece>, tail: Tail, w: World): Option<string> {
    if pieces != [] then Append(ValueOf(pieces[0], w), Result(pieces[1..], tail, w))
    else
      match tail
      case Plain(text) => Some(text)
      case Bare(name) => Some(w.env(name))
      case Open(_, _) => None
  }

  ghost predicate AllProper(pieces: seq<Piece>) {
    forall i :: 0 <= i < |pieces| ==> Proper(pieces[i])
  }

  // ----- Escapes do not reach from one piece into the next -----

  lemma {:induction false} EscapedBehind(s: string, t: string, i: nat)
    requires !Escaped(s, |s|) && i <= |t|
    ensures Escaped(s + t, |s| + i) == Escaped(t, i)
  {
    if i == 0 {
      EscapedPrefix(s, t, |s|);
    } else {
      EscapedBehind(s, t, i - 1);
      assert (s + t)[|s| + i - 1] == t[i - 1];
    }
  }

  lemma {:induction false} SpecialBehind(s: string, t: string, i: nat)
    requires !Escaped(s, |s|) && i <= |t|
    ensures Special(s + t, |s| + i) == |s| + Special(t, i)
    decreases |t| - i
  {
    EscapedBehind(s, t, i);
    if i < |t| {
      assert (s + t)[|s| + i] == t[i];
      SpecialBehind(s, t, i + 1);
    }
  }

  lemma {:induction false} SpecialPast(s: string, t: string, i: nat)
    requires i <= |s| && Special(s, i) == |s|
    ensures Special(s + t, i) == Special(s + t, |s|)
    decreases |s| - i
  {
    if i < |s| {
      EscapedPrefix(s, t, i);
      assert (s + t)[i] == s[i];
      SpecialPast(s, t, i + 1);
    }
  }

  /** The mark behind a text in which it only stands escaped. */
  lemma {:induction false} SeekPast(s: string, c: char, t: string, i: nat)
    requires i <= |s| && Seek(s, i, c) == |s| && !Escaped(s, |s|)
    ensures Seek(s + ([c] + t), i, c) == |s|
    decreases |s| - i
  {
    EscapedPrefix(s, [c] + t, i);
    if i < |s| {
      assert (s + ([c] + t))[i] == s[i];
      SeekPast(s, c, t, i + 1);
    }
  }

  // ----- One piece -----

  /** Literal text is kept, escapes and all. */
  lemma ExpandLiteral(s: string, t: string, w: World)
    requires Proper(Literal(s))
    ensures Expand(s + t, w) == Append(s, Expand(t, w))
  {
    hide Expand, Special, Seek, Append, Escaped;
    var p, all := Special(t, 0), s + t;
    var q := |s| + p;
    SpecialPast(s, t, 0);
    SpecialBehind(s, t, 0);
    if p == |t| {
      ExpandEnd(t, w);
      ExpandEnd(all, w);
      AppendSome(s, t);
    } else {
      assert all[q] == t[p] && all[..q] == s + t[..p] && all[q + 1..] == t[p + 1..];
      assert p + 1 < |t| ==> all[q + 1] == t[p + 1] && all[q + 2..] == t[p + 2..];
      if Marked(t, p) {
        var inner := t[if t[p] == '`' then p + 1 else p + 2..];
        var r := Seek(inner, 0, if t[p] == '`' then '`' else '}');
        ExpandMarked(t, w, p, inner, r);
        ExpandMarked(all, w, q, inner, r);
        LiteralFront(s, t[..p], if r < |inner| then Value(t[p], inner[..r], w) else [],
                     if r < |inner| then Expand(inner[r + 1..], w) else None, r < |inner|);
      } else {
        ExpandUnmarked(t, w);
        ExpandUnmarked(all, w);
        LiteralFront(s, t[..p], Value(t[p], t[p + 1..], w), Expand([], w), true);
      }
    }
  }

  lemma AppendSome(s: string, t: string)
    ensures Append(s, Some(t)) == Some(s + t)
  {
  }

  lemma LiteralFront(s: string, a: string, v: string, o: Option<string>, found: bool)
    ensures found ==> Append(s + a + v, o) == Append(s, Append(a + v, o))
    ensures Append(s, None) == None
  {
    assert s + a + v == s + (a + v);
    AppendTwice(s, a + v, o);
  }

  lemma StartsSpecial(s: string)
    requires s != [] && (s[0] == '$' || s[0] == '`')
    ensures Special(s, 0) == 0
  {
  }

  /** What is between marks is looked up, and what it gives is not looked at again. */
  lemma ExpandBetween(open: string, text: string, c: char, t: string, w: World)
    requires (open == "`" && c == '`') || (open == "${" && c == '}')
    requires Closed(text, c)
    ensures Expand(open + (text + [c]) + t, w) == Append(Value(open[0], text, w), Expand(t, w))
  {
    hide Expand, Special, Seek, Append, Escaped, Value;
    var inner := text + ([c] + t);
    var s := open + inner;
    BetweenMarks(open, text, c, t);
    StartsSpecial(s);
    SeekPast(text, c, t, 0);
    ExpandMarked(s, w, 0, inner, |text|);
    assert s[..0] + Value(open[0], text, w) == Value(open[0], text, w);
  }

  lemma BetweenMarks(open: string, text: string, c: char, t: string)
    requires 1 <= |open| <= 2
    ensures var inner := text + ([c] + t);
            var s := open + inner;
            && open + (text + [c]) + t == s && s[|open|..] == inner
            && inner[..|text|] == text && inner[|text| + 1..] == t
            && s[0] == open[0] && (|open| == 2 ==> s[1] == open[1])
  {
  }

  lemma ExpandPiece(p: Piece, t: string, w: World)
    requires Proper(p)
    ensures Expand(Shown(p) + t, w) == Append(ValueOf(p, w), Expand(t, w))
  {
    hide Expand, Special, Seek, Append, Escaped;
    match p
    case Literal(text) => ExpandLiteral(text, t, w);
    case Name(text) => ExpandBetween("${", text, '}', t, w);
    case Command(text) => ExpandBetween("`", text, '`', t, w);
  }

  lemma ExpandTail(tail: Tail, w: World)
    requires ProperTail(tail)
    ensures Expand(ShownTail(tail), w) == Result([], tail, w)
  {
    hide Seek, Special;
    var s := ShownTail(tail);
    match tail
    case Plain(_) =>
    case Bare(name) =>
      StartsSpecial(s);
      assert s[1..] == name && s[..0] + w.env(name) == w.env(name);
    case Open(mark, text) =>
      StartsSpecial(s);
      assert s[if mark == '`' then 1 else 2..] == text;
  }

  // ----- The whole text -----

  /** A rendered text expands to the values of its pieces, whatever the values hold. */
  lemma {:induction false} ExpandRendered(pieces: seq<Piece>, tail: Tail, w: World)
    requires AllProper(pieces) && ProperTail(tail)
    ensures Expand(Render(pieces, tail), w) == Result(pieces, tail, w)
  {
    hide Expand, Proper, ProperTail, Shown, ShownTail;
    if pieces == [] {
      ExpandTail(tail, w);
    } else {
      ExpandPiece(pieces[0], Render(pieces[1..], tail), w);
      ExpandRendered(pieces[1..], tail, w);
    }
  }

  // ----- Undoing escapes -----

  lemma EscapedFirst(s: string)
    requires s != []
    ensures Escaped(s, 1) == (s[0] == '\\') && (|s| > 1 && s[0] == '\\' ==> !Escaped(s, 2))
  {
    assert !Escaped(s, 0);
  }

  /** Escapes are undone part by part where no escape reaches from one into the next. */
  lemma {:induction false} DequoteBoth(s: string, t: string)
    requires !Escaped(s, |s|)
    ensures Dequote(s + t) == Dequote(s) + Dequote(t)
    decreases |s|
  {
    hide Escaped, Dequote;
    if s == [] {
      assert s + t == t;
      DequoteNone();
    } else {
      EscapedFirst(s);
      var n := if s[0] == '\\' then 2 else 1;
      RestUnescaped(s, n);
      DequoteFirst(s, n);
      DequoteFirst(s + t, n);
      DequoteBoth(s[n..], t);
      assert (s + t)[n..] == s[n..] + t;
    }
  }

  lemma RestUnescaped(s: string, n: nat)
    requires n <= |s| && !Escaped(s, n)
    ensures Escaped(s[n..], |s| - n) == Escaped(s, |s|)
  {
    hide Escaped;
    assert s == s[..n] + s[n..];
    EscapedPrefix(s[..n], s[n..], n);
    EscapedBehind(s[..n], s[n..], |s| - n);
  }

  lemma DequoteNone()
    ensures Dequote([]) == []
  {
  }

  lemma DequoteFirst(s: string, n: nat)
    requires s != [] && n == (if s[0] == '\\' then 2 else 1) <= |s|
    ensures Dequote(s) == [s[n - 1]] + Dequote(s[n..])
  {
  }

  /** A value that does not end in the middle of an escape. */
  ghost predicate Settled(p: Piece, w: World) {
    !Escaped(ValueOf(p, w), |ValueOf(p, w)|)
  }

  ghost predicate AllSettled(pieces: seq<Piece>, w: World) {
    forall i :: 0 <= i < |pieces| ==> pieces[i].Literal? || Settled(pieces[i], w)
  }

  /** The values of the pieces, each with its escapes undone. */
  function Undone(pieces: seq<Piece>, tail: Tail, w: World): string
    requires !tail.Open?
  {
    if pieces != [] then Dequote(ValueOf(pieces[0], w)) + Undone(pieces[1..], tail, w)
    else Dequote(if tail.Plain? then tail.text else w.env(tail.name))
  }

  lemma {:induction false} DequoteResult(pieces: seq<Piece>, tail: Tail, w: World)
    requires AllProper(pieces) && AllSettled(pieces, w) && !tail.Open?
    ensures var r := Result(pieces, tail, w); r.Some? && Dequote(r.value) == Undone(pieces, tail, w)
  {
    hide Escaped, Special, Dequote;
    if pieces != [] {
      DequoteResult(pieces[1..], tail, w);
      DequoteBoth(ValueOf(pieces[0], w), Result(pieces[1..], tail, w).value);
    }
  }

  /** An argument loses the escapes of its literal text and of the values put in alike; a value
      comes through as it is exactly if there is no back-slash in it. */
  lemma ArgumentIs(pieces: seq<Piece>, tail: Tail, w: World)
    requires AllProper(pieces) && ProperTail(tail) && AllSettled(pieces, w)
    ensures Expanded(Render(pieces, tail), w) == if tail.Open? then "" else Undone(pieces, tail, w)
    ensures forall i :: 0 <= i < |pieces| ==>
              var v := ValueOf(pieces[i], w); Dequote(v) == v <==> '\\' !in v
  {
    hide Expand, Dequote, Proper, ProperTail, Settled;
    ExpandRendered(pieces, tail, w);
    if tail.Open? {
      OpenResult(pieces, tail, w);
    } else {
      DequoteResult(pieces, tail, w);
    }
    forall i | 0 <= i < |pieces|
      ensures var v := ValueOf(pieces[i], w); Dequote(v) == v <==> '\\' !in v
    {
      DequoteKeeps(ValueOf(pieces[i], w));
    }
  }

  lemma {:induction false} OpenResult(pieces: seq<Piece>, tail: Tail, w: World)
    requires tail.Open?
    ensures Result(pieces, tail, w) == None
  {
    if pieces != [] {
      OpenResult(pieces[1..], tail, w);
    }
  }

  /** Every text is rendered from some pieces, so this says what every text expands to. */
  lemma {:induction false} EveryTextIsRendered(s: string) returns (pieces: seq<Piece>, tail: Tail)
    ensures AllProper(pieces) && ProperTail(tail) && Render(pieces, tail) == s
    decreases |s|
  {
    hide Special, Seek, Escaped, Proper;
    var p := Special(s, 0);
    if p == |s| {
      return [], Plain(s);
    }
    var mark := if s[p] == '`' then '`' else '}';
    var text := s[p + 1..];
    if s[p] == '$' {
      if text == [] || text[0] != '{' {
        pieces, tail := [], Bare(text);
      } else {
        pieces, tail := MarkedText(mark, text[1..]);
        assert s[p..] == "${" + text[1..];
      }
    } else {
      pieces, tail := MarkedText(mark, text);
    }
    assert s[p..] == Render(pieces, tail);
    LiteralInFront(s, p, pieces, tail);
    pieces := [Literal(s[..p])] + pieces;
  }

  /** What stands behind an opening mark: it is closed somewhere, or not at all. */
  lemma {:induction false} MarkedText(mark: char, text: string) returns (pieces: seq<Piece>, tail: Tail)
    requires mark == '`' || mark == '}'
    ensures AllProper(pieces) && ProperTail(tail)
    ensures Render(pieces, tail) == (if mark == '`' then "`" else "${") + text
    decreases |text|
  {
    var r := Seek(text, 0, mark);
    if r == |text| {
      return [], Open(mark, text);
    }
    pieces, tail := EveryTextIsRendered(text[r + 1..]);
    var piece := if mark == '`' then Command(text[..r]) else Name(text[..r]);
    ClosedThere(text, mark);
    assert text == text[..r] + ([mark] + text[r + 1..]);
    assert ([piece] + pieces)[1..] == pieces;
    pieces := [piece] + pieces;
  }

  lemma ClosedThere(text: string, c: char)
    requires Seek(text, 0, c) < |text|
    ensures Closed(text[..Seek(text, 0, c)], c)
  {
    var r := Seek(text, 0, c);
    var s := text[..r];
    assert text == s + text[r..];
    EscapedPrefix(s, text[r..], r);
    forall i | 0 <= i < r ensures s[i] != c || Escaped(s, i) {
      EscapedPrefix(s, text[r..], i);
    }
  }

  lemma LiteralInFront(s: string, p: nat, pieces: seq<Piece>, tail: Tail)
    requires p == Special(s, 0) < |s| && s[p..] == Render(pieces, tail)
    ensures Proper(Literal(s[..p])) && Render([Literal(s[..p])] + pieces, tail) == s
  {
    var t := s[..p];
    assert s == t + s[p..];
    EscapedPrefix(t, s[p..], p);
    forall i | 0 <= i < p ensures (t[i] != '$' && t[i] != '`') || Escaped(t, i) {
      EscapedPrefix(t, s[p..], i);
    }
    assert ([Literal(t)] + pieces)[1..] == pieces;
  }
}
