/**
  The run-length encoder of the bitmap converter: pixels are matched to a palette and equal
  neighbours are counted, up to 255 of them at a time.
*/
module Rle {

  datatype Color = Color(r: int, g: int, b: int)

  // ----- Matching colors -----

  function Distance(c: Color, d: Color): (n: int)
    ensures n >= 0 && (n == 0 <==> c == d)
  {
    var x, y, z := c.r - d.r, c.g - d.g, c.b - d.b;
    SquareSign(x);
    SquareSign(y);
    SquareSign(z);
    x * x + y * y + z * z
  }

  lemma SquareSign(x: int)
    ensures x * x >= 0 && (x * x == 0 <==> x == 0)
  {
  }

  /** The first palette entry that is nearest to a color. */
  ghost predicate Nearest(palette: seq<Color>, c: Color, i: int) {
    && 0 <= i < |palette|
    && (forall j :: 0 <= j < |palette| ==> Distance(c, palette[i]) <= Distance(c, palette[j]))
    && (forall j :: 0 <= j < i ==> Distance(c, palette[i]) < Distance(c, palette[j]))
  }

  ghost function Best(palette: seq<Color>, c: Color): (i: nat)
    requires palette != []
    ensures Nearest(palette, c, i)
  {
    var last := |palette| - 1;
    if last == 0 then 0
    else
      var i := Best(palette[..last], c);
      if Distance(c, palette[last]) < Distance(c, palette[i]) then last else i
  }

  /** The index of a color in the palette. */
  method IndexOf(palette: seq<Color>, c: Color) returns (found: bool, i: nat)
    ensures found <==> c in palette
    ensures found ==> i < |palette| && palette[i] == c && c !in palette[..i]
  {
    i := 0;
    while i < |palette|
      invariant i <= |palette| && c !in palette[..i]
    {
      if palette[i] == c {
        return true, i;
      }
      i := i + 1;
    }
    found := false;
  }

  /** quantize: an exact match if there is one, and otherwise the index of the closest. */
  method Quantize(c: Color, palette: seq<Color>) returns (index: nat)
    requires palette != []
    ensures Nearest(palette, c, index) && index == Best(palette, c)
  {
    var found;
    found, index := IndexOf(palette, c);
    if found {
      return;
    }
    var best := palette[0];
    ghost var at := 0;
    for k := 1 to |palette|
      invariant 0 <= at < k && best == palette[at]
      invariant forall j :: 0 <= j < k ==> Distance(c, best) <= Distance(c, palette[j])
      invariant forall j :: 0 <= j < at ==> Distance(c, best) < Distance(c, palette[j])
    {
      if Distance(c, palette[k]) < Distance(c, best) {
        best, at := palette[k], k;
      }
    }
    found, index := IndexOf(palette, best);
    assert best in palette && best !in palette[..index];
    assert forall j :: 0 <= j < index ==> palette[j] in palette[..index];
  }

  // ----- Runs -----

  datatype Run = Run(repeats: int, color: int)

  function Repeat(n: nat, color: int): (s: seq<int>)
    ensures |s| == n && forall i :: 0 <= i < n ==> s[i] == color
  {
    seq(n, _ => color)
  }

  predicate Legal(runs: seq<Run>) {
    forall i :: 0 <= i < |runs| ==> 1 <= runs[i].repeats <= 255
  }

  function Decode(runs: seq<Run>): seq<int>
    requires Legal(runs)
  {
    if runs == [] then []
    else Repeat(runs[0].repeats, runs[0].color) + Decode(runs[1..])
  }

  /** How many equal pixels a row starts with, at most `limit`. */
  function Lead(row: seq<int>, limit: nat): (n: nat)
    ensures n <= limit && n <= |row|
    ensures forall i :: 0 <= i < n ==> row[i] == row[0]
    ensures row != [] && limit > 0 ==> n > 0
    ensures n < limit && n < |row| ==> n > 0 && row[n] != row[0]
  {
    if row == [] || limit == 0 then 0
    else if |row| > 1 && limit > 1 && row[1] == row[0] then 1 + Lead(row[1..], limit - 1)
    else 1
  }

  /** The greedy encoding: as long a run as possible, and then the rest. */
  function Encode(row: seq<int>): (runs: seq<Run>)
    ensures Legal(runs)
    decreases |row|
  {
    if row == [] then []
    else
      var n := Lead(row, 255);
      [Run(n, row[0])] + Encode(row[n..])
  }

  lemma DecodeNone()
    ensures Decode([]) == []
  {
  }

  lemma DecodeMore(run: Run, runs: seq<Run>)
    requires 1 <= run.repeats <= 255 && Legal(runs)
    ensures Legal([run] + runs) && Decode([run] + runs) == Repeat(run.repeats, run.color) + Decode(runs)
  {
    assert ([run] + runs)[1..] == runs;
  }

  lemma LeadRepeats(row: seq<int>, limit: nat)
    requires row != []
    ensures Repeat(Lead(row, limit), row[0]) + row[Lead(row, limit)..] == row
  {
  }

  lemma {:induction false} DecodeEncode(row: seq<int>)
    ensures Decode(Encode(row)) == row
    decreases |row|
  {
    hide Decode;
    if row == [] {
      DecodeNone();
    } else {
      var n := Lead(row, 255);
      DecodeEncode(row[n..]);
      DecodeMore(Run(n, row[0]), Encode(row[n..]));
      LeadRepeats(row, 255);
    }
  }

  // ----- No shorter list of runs -----

  lemma EncodeLength(row: seq<int>)
    ensures row == [] ==> |Encode(row)| == 0
    ensures row != [] ==> |Encode(row)| == 1 + |Encode(row[Lead(row, 255)..])|
  {
  }

  /** Dropping pixels from the front does not make the encoding longer. */
  lemma {:induction false} EncodeSuffix(row: seq<int>, k: nat)
    requires k <= |row|
    ensures |Encode(row[k..])| <= |Encode(row)|
    decreases |row|
  {
    hide Encode, Lead;
    EncodeLength(row);
    EncodeLength(row[k..]);
    if k == 0 {
      assert row[0..] == row;
    } else if k < |row| {
      var n := Lead(row, 255);
      if n <= k {
        EncodeSuffix(row[n..], k - n);
        assert row[n..][k - n..] == row[k..];
      } else {
        var m := Lead(row[k..], 255);
        RunReaches(row, k);
        EncodeSuffix(row[n..], k + m - n);
        SuffixOfSuffix(row, k, n, m);
      }
    }
  }

  /** The run that starts inside the first one reaches at least as far. */
  lemma RunReaches(row: seq<int>, k: nat)
    requires 0 < k < Lead(row, 255)
    ensures Lead(row, 255) - k <= Lead(row[k..], 255) <= |row| - k
  {
    var n := Lead(row, 255);
    forall i | 0 <= i < n - k ensures row[k..][i] == row[k..][0] {
      assert row[k + i] == row[0] && row[k] == row[0];
    }
    LeadReaches(row[k..], 255, n - k);
  }

  lemma SuffixOfSuffix(row: seq<int>, k: nat, n: nat, m: nat)
    requires k <= n <= k + m <= |row|
    ensures row[n..][k + m - n..] == row[k..][m..]
  {
  }

  /** A row that starts with `j` equal pixels leads with at least that many. */
  lemma {:induction false} LeadReaches(row: seq<int>, limit: nat, j: nat)
    requires 0 < j <= |row| && j <= limit && forall i :: 0 <= i < j ==> row[i] == row[0]
    ensures Lead(row, limit) >= j
  {
    if j > 1 {
      LeadReaches(row[1..], limit - 1, j - 1);
    }
  }

  /** No list of legal runs for the same row is shorter. */
  lemma {:induction false} EncodeShortest(runs: seq<Run>)
    requires Legal(runs)
    ensures |Encode(Decode(runs))| <= |runs|
  {
    if runs != [] {
      var row, n := Decode(runs), runs[0].repeats;
      assert row[n..] == Decode(runs[1..]);
      EncodeShortest(runs[1..]);
      LeadReaches(row, 255, n);
      var m := Lead(row, 255);
      EncodeSuffix(row[n..], m - n);
      assert row[n..][m - n..] == row[m..];
    }
  }

  // ----- The encoder -----

  /** What the open run and the pixels still to come will add. */
  ghost predicate Continues(entries: seq<Run>, repeats: int, color: int, rest: seq<int>, all: seq<Run>) {
    && 1 <= repeats <= 255
    && all == entries + Encode(Repeat(repeats, color) + rest)
  }

  /** Reading a pixel on: it lengthens the open run, or closes it. */
  lemma OpenRun(repeats: nat, color: int, c: int, rest: seq<int>)
    requires 1 <= repeats <= 255
    ensures c == color && repeats < 255 ==>
              Repeat(repeats, color) + ([c] + rest) == Repeat(repeats + 1, color) + rest
    ensures c != color || repeats == 255 ==>
              Encode(Repeat(repeats, color) + ([c] + rest)) == [Run(repeats, color)] + Encode(Repeat(1, c) + rest)
  {
    var row := Repeat(repeats, color) + ([c] + rest);
    if c != color || repeats == 255 {
      LeadReaches(row, 255, repeats);
      assert Lead(row, 255) == repeats by {
        if c != color { assert row[repeats] != row[0]; }
      }
      assert row[repeats..] == Repeat(1, c) + rest;
    } else {
      assert row == Repeat(repeats + 1, color) + rest;
    }
  }

  lemma EncodeNone()
    ensures Encode([]) == []
  {
  }

  lemma CloseRun(repeats: nat, color: int)
    requires 1 <= repeats <= 255
    ensures Encode(Repeat(repeats, color) + []) == [Run(repeats, color)]
  {
    var row := Repeat(repeats, color);
    assert row + [] == row;
    LeadReaches(row, 255, repeats);
    assert row[repeats..] == [];
  }

  ghost function Indices(pixels: seq<Color>, palette: seq<Color>): (row: seq<int>)
    requires pixels == [] || palette != []
    ensures |row| == |pixels|
    ensures forall x :: 0 <= x < |row| ==> row[x] == Best(palette, pixels[x])
  {
    if palette == [] then [] else seq(|pixels|, x requires 0 <= x < |pixels| => Best(palette, pixels[x]))
  }

  lemma EncodesRow(pixels: seq<Color>, palette: seq<Color>)
    requires pixels == [] || palette != []
    ensures var runs := Encode(Indices(pixels, palette));
            && Decode(runs) == Indices(pixels, palette)
            && (forall x :: 0 <= x < |pixels| ==>
                              && Nearest(palette, pixels[x], Decode(runs)[x])
                              && (pixels[x] in palette ==> palette[Decode(runs)[x]] == pixels[x]))
            && (forall others :: Legal(others) && Decode(others) == Decode(runs) ==> |runs| <= |others|)
  {
    hide Encode, Decode;
    var row := Indices(pixels, palette);
    DecodeEncode(row);
    forall others | Legal(others) && Decode(others) == row ensures |Encode(row)| <= |others| {
      EncodeShortest(others);
    }
  }

  /**
    encode_row: the runs expand to the nearest color of every pixel, which is its own color
    when the palette has it, and no list of runs that expands to the same row is shorter.
  */
  method EncodeRow(pixels: seq<Color>, palette: seq<Color>) returns (entries: seq<Run>)
    requires pixels == [] || palette != []
    ensures Legal(entries) && |Decode(entries)| == |pixels|
    ensures forall x :: 0 <= x < |pixels| ==>
                          && Nearest(palette, pixels[x], Decode(entries)[x])
                          && (pixels[x] in palette ==> palette[Decode(entries)[x]] == pixels[x])
    ensures forall runs :: Legal(runs) && Decode(runs) == Decode(entries) ==> |entries| <= |runs|
  {
    hide Decode, Best, Indices, Encode, Lead;
    ghost var row := Indices(pixels, palette);
    entries := [];
    var color, repeats, open := 0, 0, false;
    for x := 0 to |pixels|
      invariant !open ==> x == 0 && entries == []
      invariant open ==> Continues(entries, repeats, color, row[x..], Encode(row))
    {
      var c := Quantize(pixels[x], palette);
      assert row[x..] == [c] + row[x + 1..];
      if open {
        OpenRun(repeats, color, c, row[x + 1..]);
      }
      if open && c == color && repeats < 255 {
        repeats := repeats + 1;
      } else {
        if open {
          assert entries + ([Run(repeats, color)] + Encode(Repeat(1, c) + row[x + 1..]))
              == (entries + [Run(repeats, color)]) + Encode(Repeat(1, c) + row[x + 1..]);
          entries := entries + [Run(repeats, color)];
        } else {
          assert row == Repeat(1, c) + row[x + 1..];
          assert entries + Encode(row) == Encode(row);
        }
        repeats := 1;
        color := c;
        open := true;
      }
    }
    EncodeNone();
    if open {
      CloseRun(repeats, color);
      assert row[|row|..] == [];
      entries := entries + [Run(repeats, color)];
    }
    EncodesRow(pixels, palette);
  }
}
