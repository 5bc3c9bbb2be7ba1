/**
  The NSH variables: one packed buffer of NUL-terminated `name=value` strings, searched
  linearly, closed up in place when a variable goes and extended when one comes.
*/
module NshVars {
  import opened Basics

  datatype Binding = Binding(name: string, value: string)

  /** A name the buffer can hold: an `=` would end it early. */
  predicate Name(s: string) {
    NUL !in s && '=' !in s
  }

  predicate Clean(b: Binding) {
    Name(b.name) && NUL !in b.value
  }

  function Pair(b: Binding): string {
    b.name + "=" + b.value
  }

  /** The bytes of a list of bindings. */
  function Encode(bs: seq<Binding>): (s: seq<char>) {
    if bs == [] then [] else Pair(bs[0]) + [NUL] + Encode(bs[1..])
  }

  /** Every string has a name and a value; the name reaches up to the first `=`. */
  ghost predicate AllClean(bs: seq<Binding>) {
    forall i :: 0 <= i < |bs| ==> Clean(bs[i])
  }

  /** And no two have the same name. */
  ghost predicate WellFormed(bs: seq<Binding>) {
    AllClean(bs) && forall i, j :: 0 <= i < j < |bs| ==> bs[i].name != bs[j].name
  }

  // ----- The bytes determine the bindings -----

  /** The length of the text before the first `c`, or of all of it. */
  function Span(s: string, c: char): (n: nat)
    ensures n <= |s|
    ensures forall i :: 0 <= i < n ==> s[i] != c
    ensures n < |s| ==> s[n] == c
  {
    if s == [] || s[0] == c then 0 else 1 + Span(s[1..], c)
  }

  lemma {:induction false} SpanIs(s: string, c: char, n: nat)
    requires n < |s| && s[n] == c && forall i :: 0 <= i < n ==> s[i] != c
    ensures Span(s, c) == n
  {
    if n > 0 {
      SpanIs(s[1..], c, n - 1);
    }
  }

  function Decode(s: seq<char>): (bs: seq<Binding>)
    decreases |s|
  {
    if s == [] then []
    else
      var n := Span(s, NUL);
      var text := s[..n];
      var k := Span(text, '=');
      var value := if k < n then text[k + 1..] else [];
      var rest := if n < |s| then s[n + 1..] else [];
      [Binding(text[..k], value)] + Decode(rest)
  }

  lemma Middle<T>(a: seq<T>, b: seq<T>, c: seq<T>)
    ensures (a + b + c)[|a|..|a| + |b|] == b
    ensures (a + b + c)[|a| + |b|..] == c
    ensures (a + b + c)[..|a|] == a
  {
  }

  /** The first string of a buffer, and the name and value in it. */
  lemma FirstPair(b: Binding, rest: seq<char>)
    requires Clean(b)
    ensures var s := Pair(b) + [NUL] + rest; var n := Span(s, NUL);
            && n == |Pair(b)| && s[..n] == Pair(b) && s[n + 1..] == rest
            && Span(Pair(b), '=') == |b.name|
            && Pair(b)[..|b.name|] == b.name && Pair(b)[|b.name| + 1..] == b.value
  {
    var p := Pair(b);
    var s := p + [NUL] + rest;
    Middle(p, [NUL], rest);
    Middle(b.name, "=", b.value);
    forall i | 0 <= i < |p| ensures s[i] != NUL {
      assert s[i] == p[i];
      assert i < |b.name| ==> p[i] == b.name[i];
      assert i > |b.name| ==> p[i] == b.value[i - |b.name| - 1];
    }
    SpanIs(s, NUL, |p|);
    forall i | 0 <= i < |b.name| ensures p[i] != '=' {
      assert p[i] == b.name[i];
    }
    SpanIs(p, '=', |b.name|);
  }

  lemma {:induction false} DecodeEncode(bs: seq<Binding>)
    requires AllClean(bs)
    ensures Decode(Encode(bs)) == bs
  {
    hide Clean;
    if bs != [] {
      FirstPair(bs[0], Encode(bs[1..]));
      DecodeEncode(bs[1..]);
    }
  }

  // ----- Looking up a name -----

  /** The character at `i`, or the NUL that ends a string. */
  function At(s: string, i: nat): char {
    if i < |s| then s[i] else NUL
  }

  /** nsh_cmpname from character `i` on; None is a comparison that runs past the end of both. */
  function Compared(name: string, text: string, i: nat): Option<bool>
    requires i <= |name|
    decreases |name| - i
  {
    if At(name, i) != At(text, i) then Some(At(name, i) == NUL && At(text, i) == '=')
    else if i == |name| then None
    else Compared(name, text, i + 1)
  }

  /** A string is found for a name exactly if it starts with the name and an `=`, and the
      comparison ends unless the string is the name. */
  lemma {:induction false} ComparedIs(name: string, text: string, i: nat)
    requires NUL !in name && NUL !in text && i <= |name| && i <= |text| && name[..i] == text[..i]
    ensures Compared(name, text, i) == if name == text then None else Some(name + "=" <= text)
    decreases |name| - i
  {
    if At(name, i) == At(text, i) && i < |name| {
      assert i < |text|;
      ComparedIs(name, text, i + 1);
    } else if i == |name| {
      assert name == text[..i];
      assert i < |text| ==> (name + "=" <= text <==> text[i] == '=');
    } else if name + "=" <= text {
      PrefixAt(name, text, i);
    }
  }

  /** As long as the characters agree there are more of them. */
  lemma ComparedGoesOn(name: string, text: string, i: nat)
    requires NUL !in name && NUL !in text && name != text
    requires i <= |name| && i <= |text| && name[..i] == text[..i] && At(name, i) == At(text, i)
    ensures i < |name| && i < |text| && name[..i + 1] == text[..i + 1]
    ensures Compared(name, text, i) == Compared(name, text, i + 1)
  {
    assert name[..|name|] == name && text[..|text|] == text;
  }

  lemma ComparedEnds(name: string, text: string, i: nat)
    requires i <= |name| && At(name, i) != At(text, i)
    ensures Compared(name, text, i) == Some(At(name, i) == NUL && At(text, i) == '=')
  {
  }

  lemma PrefixAt(name: string, text: string, i: nat)
    requires name + "=" <= text && i <= |name|
    ensures i < |text| && text[i] == if i < |name| then name[i] else '='
  {
    assert text[i] == (name + "=")[i];
  }

  predicate Matches(b: Binding, name: string) {
    name + "=" <= Pair(b)
  }

  /** The first string that is found for a name, or the number of strings. */
  function First(bs: seq<Binding>, name: string): (k: nat)
    ensures k <= |bs| && (k < |bs| ==> Matches(bs[k], name))
    ensures forall i :: 0 <= i < k ==> !Matches(bs[i], name)
  {
    if bs == [] || Matches(bs[0], name) then 0 else 1 + First(bs[1..], name)
  }

  /** No comparison on the way runs past the end of a string. */
  ghost predicate Safe(bs: seq<Binding>, name: string) {
    NUL !in name && forall i :: 0 <= i < First(bs, name) ==> Pair(bs[i]) != name
  }

  function Lookup(bs: seq<Binding>, name: string): Option<string> {
    var k := First(bs, name);
    if k < |bs| then Some(bs[k].value) else None
  }

  function Drop(bs: seq<Binding>, name: string): seq<Binding> {
    var k := First(bs, name);
    if k < |bs| then bs[..k] + bs[k + 1..] else bs
  }

  /** The binding that `name=value` is, which has another name if there is an `=` in `name`. */
  function Entry(name: string, value: string): (b: Binding)
    requires NUL !in name && NUL !in value
    ensures Clean(b) && Pair(b) == name + "=" + value
    ensures '=' !in name ==> b == Binding(name, value)
    ensures '=' in name ==> |b.value| > |value|
  {
    var k := Span(name, '=');
    if k == |name| then
      assert '=' !in name;
      Binding(name, value)
    else
      assert name == name[..k] + "=" + name[k + 1..];
      assert name + "=" + value == name[..k] + "=" + (name[k + 1..] + "=" + value);
      assert forall c :: c in name[..k] || c in name[k + 1..] ==> c in name;
      Binding(name[..k], name[k + 1..] + "=" + value)
  }

  /** For a name without `=` only the string of that name is found. */
  lemma NameMatches(b: Binding, name: string)
    requires Clean(b) && Name(name)
    ensures Matches(b, name) <==> b.name == name
    ensures Pair(b) != name
  {
    var text := Pair(b);
    assert text[|b.name|] == '=';
    assert b.name + "=" <= text;
    FirstPair(b, []);
    if Matches(b, name) {
      forall i | 0 <= i <= |name| ensures i < |text| && text[i] == if i < |name| then name[i] else '=' {
        PrefixAt(name, text, i);
      }
      SpanIs(text, '=', |name|);
      assert name == text[..|name|];
    }
  }

  lemma {:induction false} NameIsSafe(bs: seq<Binding>, name: string)
    requires AllClean(bs) && Name(name)
    ensures Safe(bs, name)
    ensures forall i :: 0 <= i < |bs| ==> (Matches(bs[i], name) <==> bs[i].name == name)
  {
    forall i | 0 <= i < |bs| ensures Pair(bs[i]) != name && (Matches(bs[i], name) <==> bs[i].name == name) {
      NameMatches(bs[i], name);
    }
  }

  /** What is found for a name with an `=` has the part before it as its name. */
  lemma FoundName(b: Binding, name: string)
    requires Clean(b) && '=' in name && (Matches(b, name) || Pair(b) == name)
    ensures b.name == name[..Span(name, '=')]
  {
    var k, text := Span(name, '='), Pair(b);
    var j :| 0 <= j < |name| && name[j] == '=';
    assert k <= j;
    forall i | 0 <= i <= k ensures i < |text| && text[i] == name[i] {
      if Matches(b, name) { PrefixAt(name, text, i); }
    }
    SpanIs(text, '=', k);
    FirstPair(b, []);
    assert text[..k] == name[..k];
  }

  /** The strings after `set name value`. */
  function Put(bs: seq<Binding>, name: string, value: string): seq<Binding>
    requires NUL !in name && NUL !in value
  {
    Drop(bs, name) + [Entry(name, value)]
  }

  lemma EntryMatches(name: string, value: string)
    requires NUL !in name && NUL !in value
    ensures Matches(Entry(name, value), name)
  {
    assert name + "=" + value == (name + "=") + value;
  }

  /**
    Setting a variable removes one string that is found for its name.  What is got afterwards is
    the value of the next such string, if there is one, and otherwise `value`, with a part of
    the name in front of it if there is an `=` in the name.
  */
  lemma SetThenGet(bs: seq<Binding>, name: string, value: string)
    requires AllClean(bs) && Safe(bs, name) && NUL !in value
    ensures var rest, after := Drop(bs, name), Put(bs, name, value);
            && (Safe(after, name) <==> Safe(rest, name))
            && Lookup(after, name) == if First(rest, name) < |rest| then Lookup(rest, name)
                                      else Some(Entry(name, value).value)
  {
    hide Matches, Pair, Entry;
    var rest, b := Drop(bs, name), Entry(name, value);
    var all, k := rest + [b], First(rest, name);
    EntryMatches(name, value);
    assert forall i :: 0 <= i < |rest| ==> all[i] == rest[i];
    assert all[|rest|] == b;
    FirstIs(all, name, k);
    assert forall i :: 0 <= i < k ==> all[i] == rest[i];
  }

  /** So every value is got as it was set exactly if there is no `=` in the name and no second
      string that is found for it. */
  lemma GotAsSet(bs: seq<Binding>, name: string)
    requires AllClean(bs) && Safe(bs, name)
    ensures (forall value :: NUL !in value ==> Lookup(Put(bs, name, value), name) == Some(value)) <==>
            '=' !in name && First(Drop(bs, name), name) == |Drop(bs, name)|
  {
    hide Put, Lookup, Drop, First, AllClean;
    var rest := Drop(bs, name);
    if First(rest, name) < |rest| {
      var other := Different(bs, name);
    } else {
      forall value | NUL !in value
        ensures Lookup(Put(bs, name, value), name) == Some(value) <==> '=' !in name
      {
        GetIs(bs, name, value);
      }
      var none := "";
      assert NUL !in none;
      assert Lookup(Put(bs, name, none), name) == Some(none) <==> '=' !in name;
    }
  }

  lemma GetIs(bs: seq<Binding>, name: string, value: string)
    requires AllClean(bs) && Safe(bs, name) && NUL !in value && First(Drop(bs, name), name) == |Drop(bs, name)|
    ensures Lookup(Put(bs, name, value), name) == Some(value) <==> '=' !in name
  {
    hide Put, Lookup, Drop, First, AllClean;
    SetThenGet(bs, name, value);
  }

  lemma Different(bs: seq<Binding>, name: string) returns (value: string)
    requires AllClean(bs) && Safe(bs, name) && First(Drop(bs, name), name) < |Drop(bs, name)|
    ensures NUL !in value && Lookup(Put(bs, name, value), name) != Some(value)
  {
    hide Matches, Pair, Put, First, Drop;
    DropClean(bs, name);
    var found := Drop(bs, name)[First(Drop(bs, name), name)];
    value := found.value + "x";
    SetThenGet(bs, name, value);
    assert |value| > |found.value|;
  }

  lemma DropClean(bs: seq<Binding>, name: string)
    requires AllClean(bs)
    ensures AllClean(Drop(bs, name))
  {
    hide Clean, Matches;
  }

  /** As long as the names are distinct there is no second string. */
  lemma NoSecondString(bs: seq<Binding>, name: string)
    requires WellFormed(bs) && Safe(bs, name)
    ensures var rest := Drop(bs, name);
            Safe(rest, name) && forall i :: 0 <= i < |rest| ==> !Matches(rest[i], name)
  {
    hide Matches, Pair;
    DropLeavesNone(bs, name);
  }

  /** The input on which a name without `=` is not got as it was set: `set a x`, `set a=b c`,
      `set a b=d`, `set a v`.  The second command makes a second string that is found for `a`, and
      the others remove one each. */
  lemma StaleValue()
    ensures var b1 := Put([], "a", "x");
            var b2 := Put(b1, "a=b", "c");
            var b3 := Put(b2, "a", "b=d");
            var b4 := Put(b3, "a", "v");
            && Safe([], "a") && Safe(b1, "a=b") && Safe(b2, "a") && Safe(b3, "a") && Safe(b4, "a")
            && Lookup(Put(b2, "a", "v"), "a") == Some("b=c") && Lookup(b4, "a") == Some("b=d")
  {
    hide Put, Safe, Lookup, First;
    var x, c, d, v := Binding("a", "x"), Binding("a", "b=c"), Binding("a", "b=d"), Binding("a", "v");
    PutA([], "x");
    PutAB(x);
    PutA([x, c], "b=d");
    PutA([x, c], "v");
    PutA([c, d], "v");
    PutA([d, v], "");
    PutA([c, v], "");
    assert [x, c][1..] + [d] == [c, d] && [x, c][1..] + [v] == [c, v] && [c, d][1..] + [v] == [d, v];
    assert [] + [x] == [x];
  }

  lemma PutA(bs: seq<Binding>, value: string)
    requires NUL !in value && forall i :: 0 <= i < |bs| ==> Clean(bs[i]) && bs[i].name == "a"
    ensures Safe(bs, "a")
    ensures Put(bs, "a", value) == (if bs == [] then [] else bs[1..]) + [Binding("a", value)]
    ensures Lookup(bs, "a") == if bs == [] then None else Some(bs[0].value)
  {
    hide Matches, Pair, Clean;
    NameIsSafe(bs, "a");
    assert bs != [] ==> Matches(bs[0], "a");
    assert bs != [] ==> bs[..0] + bs[1..] == bs[1..];
  }

  lemma PutAB(b: Binding)
    requires b == Binding("a", "x")
    ensures Safe([b], "a=b") && Put([b], "a=b", "c") == [b, Binding("a", "b=c")]
  {
    var name := "a=b";
    assert Pair(b) == "a=x" && |Pair(b)| == 3 && Pair(b)[2] == 'x' && name[2] == 'b' && |name + "="| == 4;
    FirstIs([b], name, 1);
    var e := Entry(name, "c");
    assert Span(name, '=') == 1 by { SpanIs(name, '=', 1); }
    assert name[..1] == "a" && name[2..] + "=" + "c" == "b=c";
  }

  lemma FirstNotBefore(bs: seq<Binding>, name: string, k: nat)
    requires k < |bs| && Safe(bs, name) && forall i :: 0 <= i < k ==> !Matches(bs[i], name)
    ensures Pair(bs[k]) != name
  {
    assert Matches(bs[k], name) ==> |Pair(bs[k])| > |name|;
  }

  lemma FirstIs(bs: seq<Binding>, name: string, k: nat)
    requires k <= |bs| && (k < |bs| ==> Matches(bs[k], name)) && forall i :: 0 <= i < k ==> !Matches(bs[i], name)
    ensures First(bs, name) == k
  {
    hide Matches, Pair;
  }

  /** In a well-formed list at most one string is found for a name, and the search is safe
      exactly if no string is the name. */
  lemma DropLeavesNone(bs: seq<Binding>, name: string)
    requires WellFormed(bs) && NUL !in name
    ensures var rest := Drop(bs, name);
            Safe(bs, name) <==> forall i :: 0 <= i < |bs| ==> Pair(bs[i]) != name
    ensures var rest := Drop(bs, name);
            Safe(bs, name) ==> forall i :: 0 <= i < |rest| ==> !Matches(rest[i], name) && Pair(rest[i]) != name
  {
    var k := First(bs, name);
    forall i | k < i < |bs| ensures !Matches(bs[i], name) && Pair(bs[i]) != name {
      if Matches(bs[i], name) || Pair(bs[i]) == name {
        SameName(bs[k], bs[i], name);
      }
    }
  }

  lemma SameName(b: Binding, c: Binding, name: string)
    requires Clean(b) && Clean(c) && NUL !in name && Matches(b, name) && (Matches(c, name) || Pair(c) == name)
    ensures b.name == c.name
  {
    if '=' in name {
      FoundName(b, name);
      FoundName(c, name);
    } else {
      NameMatches(b, name);
      NameMatches(c, name);
    }
  }

  /** The input on which the search is not safe: a value that is what the name has behind `=`. */
  lemma UnsafeLookup()
    ensures var bs := [Binding("a", "b")];
            WellFormed(bs) && !Safe(bs, "a=b") && Compared("a=b", Pair(bs[0]), 0) == None
  {
    var b := Binding("a", "b");
    assert Pair(b) == "a=b";
    ComparedIs("a=b", Pair(b), 0);
    assert !Matches(b, "a=b");
    assert First([b], "a=b") == 1;
  }

  lemma {:induction false} EncodeSplit(bs: seq<Binding>, k: nat)
    requires k <= |bs|
    ensures Encode(bs) == Encode(bs[..k]) + Encode(bs[k..])
  {
    if k == 0 {
      assert bs[0..] == bs;
    } else {
      EncodeSplit(bs[1..], k - 1);
      assert bs[..k][1..] == bs[1..][..k - 1];
      assert bs[1..][k - 1..] == bs[k..];
    }
  }

  /** The offset of binding `k` in the buffer. */
  function Offset(bs: seq<Binding>, k: nat): nat
    requires k <= |bs|
  {
    |Encode(bs[..k])|
  }

  lemma EncodeMore(b: Binding, bs: seq<Binding>)
    ensures Encode([b] + bs) == Pair(b) + [NUL] + Encode(bs)
  {
    assert ([b] + bs)[1..] == bs;
  }

  lemma EncodeAround(bs: seq<Binding>, k: nat)
    requires k < |bs|
    ensures Encode(bs) == Encode(bs[..k]) + (Pair(bs[k]) + [NUL]) + Encode(bs[k + 1..])
    ensures Offset(bs, k + 1) == Offset(bs, k) + |Pair(bs[k])| + 1 <= |Encode(bs)|
  {
    hide Pair, Encode;
    var pair := Pair(bs[k]) + [NUL];
    EncodeSplit(bs, k);
    assert bs[k..] == [bs[k]] + bs[k + 1..];
    EncodeMore(bs[k], bs[k + 1..]);
    assert Encode(bs[..k]) + (pair + Encode(bs[k + 1..])) == Encode(bs[..k]) + pair + Encode(bs[k + 1..]);
    EncodeSplit(bs[..k + 1], k);
    assert bs[..k + 1][..k] == bs[..k];
    assert bs[..k + 1][k..] == [bs[k]] + [];
    EncodeMore(bs[k], []);
    EncodeNone();
  }

  /** Binding `k` stands at its offset, closed by a NUL. */
  lemma PairAt(bs: seq<Binding>, k: nat)
    requires k < |bs|
    ensures var p := Offset(bs, k); var n := |Pair(bs[k])|;
            && Offset(bs, k + 1) == p + n + 1 <= |Encode(bs)|
            && Encode(bs)[p..p + n] == Pair(bs[k])
            && Encode(bs)[p + n] == NUL
  {
    hide Pair, Encode;
    EncodeAround(bs, k);
    var text := Pair(bs[k]) + [NUL];
    Middle(Encode(bs[..k]), text, Encode(bs[k + 1..]));
    var p := Offset(bs, k);
    assert Encode(bs)[p..p + |text|][..|text| - 1] == Encode(bs)[p..p + |text| - 1];
    assert Encode(bs)[p..p + |text|][|text| - 1] == Encode(bs)[p + |text| - 1];
  }

  // ----- The bindings as a map -----

  function Without(bs: seq<Binding>, name: string): seq<Binding> {
    if bs == [] then []
    else if bs[0].name == name then Without(bs[1..], name)
    else [bs[0]] + Without(bs[1..], name)
  }

  lemma {:induction false} WithoutHas(bs: seq<Binding>, name: string)
    ensures forall b :: b in Without(bs, name) <==> b in bs && b.name != name
  {
    if bs != [] {
      WithoutHas(bs[1..], name);
      assert forall b :: b in bs <==> b == bs[0] || b in bs[1..];
    }
  }

  /** No name is bound to two values. */
  ghost predicate Functional(bs: seq<Binding>) {
    forall b, c :: b in bs && c in bs && b.name == c.name ==> b == c
  }

  ghost function ToMap(bs: seq<Binding>): map<string, string>
    requires Functional(bs)
  {
    map b | b in bs :: b.name := b.value
  }

  /** Removing a name from the list removes it from the map. */
  lemma {:induction false} MapWithout(bs: seq<Binding>, name: string)
    requires Functional(bs)
    ensures Functional(Without(bs, name))
    ensures ToMap(Without(bs, name)) == ToMap(bs) - {name}
  {
    hide Without;
    WithoutHas(bs, name);
    var m, r := ToMap(Without(bs, name)), ToMap(bs) - {name};
    forall x ensures x in m <==> x in r {
    }
  }

  lemma {:induction false} MapSet(bs: seq<Binding>, b: Binding)
    requires Functional(bs)
    ensures Functional(Without(bs, b.name) + [b])
    ensures ToMap(Without(bs, b.name) + [b]) == ToMap(bs)[b.name := b.value]
  {
    hide Without;
    WithoutHas(bs, b.name);
    var r := Without(bs, b.name);
    assert forall c :: c in r + [b] <==> c in r || c == b;
  }

  lemma {:induction false} WithoutKeeps(bs: seq<Binding>, name: string)
    requires WellFormed(bs)
    ensures WellFormed(Without(bs, name))
  {
    if bs != [] {
      WithoutKeeps(bs[1..], name);
      WithoutHas(bs[1..], name);
      var r := Without(bs[1..], name);
      forall i | 0 <= i < |r| ensures r[i].name != bs[0].name {
        assert r[i] in bs[1..];
      }
    }
  }

  lemma WithoutStep(bs: seq<Binding>, name: string)
    requires bs != []
    ensures Without(bs, name) == (if bs[0].name == name then [] else [bs[0]]) + Without(bs[1..], name)
  {
  }

  lemma {:induction false} WithoutNone(bs: seq<Binding>, name: string)
    requires forall i :: 0 <= i < |bs| ==> bs[i].name != name
    ensures Without(bs, name) == bs
  {
    if bs != [] {
      WithoutNone(bs[1..], name);
    }
  }

  lemma {:induction false} WithoutAt(bs: seq<Binding>, k: nat, name: string)
    requires k < |bs| && forall i :: 0 <= i < |bs| ==> (bs[i].name == name <==> i == k)
    ensures Without(bs, name) == bs[..k] + bs[k + 1..]
  {
    hide Without;
    var tail := bs[1..];
    WithoutStep(bs, name);
    if k == 0 {
      WithoutNone(tail, name);
    } else {
      WithoutAt(tail, k - 1, name);
      assert bs[..k] == [bs[0]] + tail[..k - 1] && tail[k..] == bs[k + 1..];
    }
  }

  lemma AppendEncode(bs: seq<Binding>, b: Binding)
    ensures Encode(bs + [b]) == Encode(bs) + (Pair(b) + [NUL])
  {
    hide Pair;
    EncodeSplit(bs + [b], |bs|);
    assert (bs + [b])[..|bs|] == bs && (bs + [b])[|bs|..] == [b];
    assert [b][1..] == [];
    assert Encode([b]) == Pair(b) + [NUL] + Encode([]);
  }

  /** The session's variables after a series of settings and removals. */
  datatype Op = Set(name: string, value: string) | Unset(name: string)

  function Apply(bs: seq<Binding>, op: Op): seq<Binding>
    requires Valid(op)
  {
    match op
    case Set(name, value) => Put(bs, name, value)
    case Unset(name) => Drop(bs, name)
  }

  function ApplyAll(bs: seq<Binding>, ops: seq<Op>): seq<Binding>
    requires forall i :: 0 <= i < |ops| ==> Valid(ops[i])
  {
    if ops == [] then bs else Apply(ApplyAll(bs, ops[..|ops| - 1]), ops[|ops| - 1])
  }

  function MapAll(m: map<string, string>, ops: seq<Op>): map<string, string> {
    if ops == [] then m
    else
      var m' := MapAll(m, ops[..|ops| - 1]);
      match ops[|ops| - 1]
      case Set(name, value) => m'[name := value]
      case Unset(name) => m' - {name}
  }

  predicate Valid(op: Op) {
    Name(op.name) && (op.Set? ==> NUL !in op.value)
  }

  lemma SetKeeps(bs: seq<Binding>, name: string, value: string)
    requires WellFormed(bs) && Name(name) && NUL !in value
    ensures WellFormed(Without(bs, name) + [Binding(name, value)])
  {
    WithoutKeeps(bs, name);
    WithoutHas(bs, name);
    var r := Without(bs, name);
    forall i | 0 <= i < |r| ensures r[i].name != name {
      assert r[i] in r;
    }
  }

  /** For a name without `=`, removing the string that is found removes the name. */
  lemma DropIsWithout(bs: seq<Binding>, name: string)
    requires WellFormed(bs) && Name(name)
    ensures Safe(bs, name) && Drop(bs, name) == Without(bs, name)
  {
    hide Without, Matches, Pair;
    NameIsSafe(bs, name);
    var k := First(bs, name);
    if k < |bs| {
      WithoutAt(bs, k, name);
    } else {
      WithoutNone(bs, name);
    }
  }

  /** And what is found is what the map has. */
  lemma LookupIsMap(bs: seq<Binding>, name: string)
    requires WellFormed(bs) && Name(name)
    ensures Functional(bs)
    ensures Lookup(bs, name) == if name in ToMap(bs) then Some(ToMap(bs)[name]) else None
  {
    hide Matches, Pair;
    BindingsFunctional(bs);
    NameIsSafe(bs, name);
    var k := First(bs, name);
    if k < |bs| {
      assert bs[k] in bs;
    }
  }

  lemma SetIsMap(bs: seq<Binding>, name: string, value: string)
    requires WellFormed(bs) && Name(name) && NUL !in value
    ensures var after := Put(bs, name, value);
            && WellFormed(after) && Functional(after) && Functional(bs)
            && ToMap(after) == ToMap(bs)[name := value]
  {
    hide Without, First, Drop;
    BindingsFunctional(bs);
    DropIsWithout(bs, name);
    SetKeeps(bs, name, value);
    MapSet(bs, Binding(name, value));
  }

  lemma UnsetIsMap(bs: seq<Binding>, name: string)
    requires WellFormed(bs) && Name(name)
    ensures var after := Drop(bs, name);
            WellFormed(after) && Functional(after) && Functional(bs) && ToMap(after) == ToMap(bs) - {name}
  {
    hide Without, First, Drop;
    BindingsFunctional(bs);
    DropIsWithout(bs, name);
    WithoutKeeps(bs, name);
    MapWithout(bs, name);
  }

  lemma DropKeepsClean(bs: seq<Binding>, name: string)
    requires AllClean(bs)
    ensures AllClean(Drop(bs, name))
  {
    hide Clean, Matches;
  }

  /** From an empty session, every series of operations leaves a list of bindings that is a
      map: names are distinct, bytes and bindings determine each other, and the map is the
      one that the operations build. */
  lemma {:induction false} StoreIsMap(ops: seq<Op>)
    requires forall i :: 0 <= i < |ops| ==> Valid(ops[i])
    ensures var bs := ApplyAll([], ops);
            && WellFormed(bs) && Functional(bs)
            && ToMap(bs) == MapAll(map[], ops)
            && Decode(Encode(bs)) == bs
  {
    if ops != [] {
      var init, op := ops[..|ops| - 1], ops[|ops| - 1];
      StoreIsMap(init);
      var bs := ApplyAll([], init);
      assert Valid(op);
      match op
      case Set(name, value) => SetIsMap(bs, name, value);
      case Unset(name) => UnsetIsMap(bs, name);
    }
    DecodeEncode(ApplyAll([], ops));
  }

  // ----- The buffer -----

  class Store {
    var varp: array?<char>
    var varsz: nat
    ghost var bindings: seq<Binding>

    ghost predicate Valid()
      reads this, varp
    {
      && AllClean(bindings)
      && if varp == null then varsz == 0 && bindings == []
         else varsz <= varp.Length && varp[..varsz] == Encode(bindings)
    }

    constructor ()
      ensures Valid() && bindings == []
    {
      varp, varsz, bindings := null, 0, [];
    }

    /** The text of binding `k`, character by character. */
    lemma TextAt(k: nat)
      requires Valid() && k < |bindings|
      ensures varp != null
      ensures var p := Offset(bindings, k); var text := Pair(bindings[k]);
              && Offset(bindings, k + 1) == p + |text| + 1 <= varsz
              && varp[p..p + |text|] == text
              && (forall i :: 0 <= i < |text| ==> varp[p + i] == text[i])
              && varp[p + |text|] == NUL
              && NUL !in text
              && |bindings[k].name| < |text| && text[|bindings[k].name|] == '='
              && (forall i :: 0 <= i < |bindings[k].name| ==> text[i] == bindings[k].name[i])
              && text[|bindings[k].name| + 1..] == bindings[k].value
    {
      PairAt(bindings, k);
      var p, b := Offset(bindings, k), bindings[k];
      var text := Pair(b);
      assert Clean(b);
      assert varp[..varsz][p..p + |text|] == varp[p..p + |text|];
      forall i | 0 <= i < |text| ensures varp[p + i] == text[i] && text[i] != NUL {
        assert varp[p + i] == varp[p..p + |text|][i];
        assert i < |b.name| ==> text[i] == b.name[i];
        assert i > |b.name| ==> text[i] == b.value[i - |b.name| - 1];
      }
      Middle(b.name, "=", b.value);
    }

    /** The text of binding `k` and the NUL behind it, character by character. */
    lemma TextChars(k: nat)
      requires Valid() && k < |bindings|
      ensures varp != null
      ensures var p := Offset(bindings, k); var text := Pair(bindings[k]);
              && p + |text| < varp.Length && NUL !in text
              && forall i :: 0 <= i <= |text| ==> varp[p + i] == At(text, i)
    {
      hide Pair, Encode, Offset;
      TextAt(k);
    }

    /** nsh_cmpname: both names are read on while they agree. */
    method CmpName(name: string, p: nat, ghost k: nat) returns (r: bool)
      requires Valid() && NUL !in name && k < |bindings| && p == Offset(bindings, k)
      requires Pair(bindings[k]) != name
      ensures Compared(name, Pair(bindings[k]), 0) == Some(r) && (r <==> Matches(bindings[k], name))
    {
      hide Pair, Encode, Offset, Clean, Compared, At;
      TextChars(k);
      ghost var text := Pair(bindings[k]);
      var i := 0;
      while At(name, i) == varp[p + i]
        invariant i <= |name| && i <= |text| && name[..i] == text[..i]
        invariant Compared(name, text, 0) == Compared(name, text, i)
        decreases |name| - i
      {
        ComparedGoesOn(name, text, i);
        i := i + 1;
      }
      ComparedEnds(name, text, i);
      ComparedIs(name, text, 0);
      r := At(name, i) == NUL && varp[p + i] == '=';
    }

    /** strlen of the string at `p`. */
    method Strlen(p: nat, ghost k: nat) returns (n: nat)
      requires Valid() && k < |bindings| && p == Offset(bindings, k)
      ensures n == |Pair(bindings[k])| && p + n + 1 == Offset(bindings, k + 1) <= varsz
    {
      TextAt(k);
      hide Encode, Pair;
      ghost var text := Pair(bindings[k]);
      n := 0;
      while varp[p + n] != NUL
        invariant n <= |text|
        decreases |text| - n
      {
        n := n + 1;
      }
    }

    /** nsh_findvar: the offset of the string with the given name, if there is one. */
    method FindVar(name: string) returns (ptr: Option<nat>, ghost k: nat)
      requires Valid() && Safe(bindings, name)
      ensures k == First(bindings, name)
      ensures ptr == if k < |bindings| then Some(Offset(bindings, k)) else None
      ensures ptr.Some? ==> ptr.value < varsz
    {
      hide Encode, Pair, Offset, Matches;
      k := 0;
      var p := 0;
      OffsetEnds(bindings);
      while p < varsz
        invariant k <= |bindings| && p == Offset(bindings, k) <= varsz
        invariant forall i :: 0 <= i < k ==> !Matches(bindings[i], name)
        decreases varsz - p
      {
        OffsetGrows(bindings, k);
        FirstNotBefore(bindings, name, k);
        var found := CmpName(name, p, k);
        if found {
          FirstIs(bindings, name, k);
          return Some(p), k;
        }
        var n := Strlen(p, k);
        p := p + n + 1;
        k := k + 1;
      }
      OffsetGrows(bindings, k);
      FirstIs(bindings, name, k);
      return None, k;
    }

    /** nsh_removevar: the strings behind the removed one are moved down over it. */
    method RemoveVar(pair: int, ghost k: nat) returns (ok: bool)
      requires Valid() && (0 <= pair < varsz ==> k < |bindings| && pair == Offset(bindings, k))
      modifies this, varp
      ensures varp == old(varp) && varsz <= old(varsz) && ok == (0 <= pair < old(varsz))
      ensures varp != null ==> varsz <= varp.Length && varp[..varsz] == Encode(bindings)
      ensures AllClean(bindings)
      ensures bindings == if ok then old(bindings)[..k] + old(bindings)[k + 1..] else old(bindings)
    {
      hide Encode, Pair, Offset, Functional, Without;
      ok := false;
      if 0 <= pair < varsz {
        var n := Strlen(pair, k);
        var len := n + 1;
        RemovedBytes(bindings, k);
        ghost var before := varp[..varsz];
        MoveDown(varp, pair, pair + len, varsz - (pair + len));
        assert before[..pair] == old(varp[..pair]) && before[pair + len..] == old(varp[pair + len..varsz]);
        varsz := varsz - len;
        bindings := bindings[..k] + bindings[k + 1..];
        ok := true;
      }
    }

    /** nsh_getvar: the text behind the first `=`. */
    method GetVar(name: string) returns (value: Option<string>)
      requires Valid() && Safe(bindings, name)
      ensures value == Lookup(bindings, name)
    {
      hide Encode, Offset, Matches;
      var ptr, k := FindVar(name);
      if ptr.None? {
        return None;
      }
      TextAt(k);
      assert bindings[k] in bindings;
      var p := ptr.value;
      var n := Strlen(p, k);
      var i := 0;
      while varp[p + i] != '='
        invariant i <= |bindings[k].name|
        decreases |bindings[k].name| - i
      {
        assert Clean(bindings[k]);
        i := i + 1;
      }
      assert i == |bindings[k].name|;
      assert varp[p..p + n][i + 1..] == varp[p + i + 1..p + n];
      return Some(varp[p + i + 1..p + n]);
    }

    /** nsh_setvar: an old string of that name is removed, the new one put at the end. */
    method SetVar(name: string, value: string)
      requires Valid() && Safe(bindings, name) && NUL !in value
      modifies this, varp
      ensures Valid() && (varp != old(varp) ==> fresh(varp))
      ensures bindings == Put(old(bindings), name, value)
    {
      hide Encode, Offset, Pair, Matches, Clean;
      DropKeepsClean(bindings, name);
      if varp != null {
        var ptr, k := FindVar(name);
        if ptr.Some? {
          var _ := RemoveVar(ptr.value, k);
        }
      }
      assert bindings == Drop(old(bindings), name);
      AppendEncode(bindings, Entry(name, value));
      EncodeNone();
      varp := Grow(varp, varsz, name + "=" + value + [NUL]);
      varsz := varp.Length;
      assert varp[..varsz] == varp[..];
      bindings := bindings + [Entry(name, value)];
    }

    /** nsh_unsetvar: an unknown name is no error, an empty buffer is given back. */
    method UnsetVar(name: string)
      requires Valid() && Safe(bindings, name)
      modifies this, varp
      ensures Valid() && (varp != old(varp) && varp != null ==> fresh(varp))
      ensures bindings == Drop(old(bindings), name)
    {
      hide Encode, Offset, Pair, Matches, Clean;
      DropKeepsClean(bindings, name);
      var ptr, k := FindVar(name);
      if ptr.Some? {
        var _ := RemoveVar(ptr.value, k);
        if varsz <= 0 {
          OffsetGrows(bindings, 0);
          OffsetEnds(bindings);
          varp := null;
        } else {
          varp := Grow(varp, varsz, []);
        }
      }
    }

    /** nsh_foreach_var: the callback sees every string in turn, until it returns non-zero. */
    method ForeachVar(cb: string -> int) returns (ret: int, seen: seq<string>)
      requires Valid()
      ensures |seen| <= |bindings| && forall i :: 0 <= i < |seen| ==> seen[i] == Pair(bindings[i])
      ensures forall i :: 0 <= i < |seen| - 1 ==> cb(seen[i]) == 0
      ensures seen != [] ==> ret == cb(seen[|seen| - 1])
      ensures seen == [] ==> ret == 0
      ensures ret == 0 ==> |seen| == |bindings|
    {
      hide Encode, Offset, Pair, Clean;
      ret, seen := 0, [];
      var p := 0;
      OffsetEnds(bindings);
      while p < varsz
        invariant |seen| <= |bindings| && p == Offset(bindings, |seen|) <= varsz
        invariant forall i :: 0 <= i < |seen| ==> seen[i] == Pair(bindings[i]) && cb(seen[i]) == 0
        invariant ret == 0
        decreases varsz - p
      {
        ghost var k := |seen|;
        OffsetGrows(bindings, k);
        TextAt(k);
        var n := Strlen(p, k);
        seen := seen + [varp[p..p + n]];
        ret := cb(varp[p..p + n]);
        if ret != 0 {
          return;
        }
        p := p + n + 1;
      }
      OffsetGrows(bindings, |seen|);
    }
  }

  lemma BindingsFunctional(bs: seq<Binding>)
    requires WellFormed(bs)
    ensures Functional(bs)
  {
  }

  lemma EncodeNone()
    ensures Encode([]) == []
  {
  }

  /** realloc to the used size plus room for `text`, which is written behind the old bytes. */
  method Grow(a: array?<char>, used: nat, text: string) returns (r: array<char>)
    requires a == null ==> used == 0
    requires a != null ==> used <= a.Length
    ensures fresh(r) && r[..] == (if a == null then [] else a[..used]) + text
  {
    r := new char[used + |text|];
    var i := 0;
    while i < used
      invariant i <= used
      invariant i > 0 ==> a != null && r[..i] == a[..i]
    {
      r[i] := a[i];
      i := i + 1;
    }
    ghost var kept := if a == null then [] else a[..used];
    while i < r.Length
      invariant used <= i <= r.Length
      invariant r[..i] == kept + text[..i - used]
    {
      r[i] := text[i - used];
      i := i + 1;
    }
  }

  /** The copying loop of nsh_removevar. */
  method MoveDown(a: array<char>, to: nat, from: nat, n: nat)
    requires to <= from && from + n <= a.Length
    modifies a
    ensures a[..to + n] == old(a[..to]) + old(a[from..from + n])
  {
    var dest, src, count := to, from, n;
    while count > 0
      invariant count >= 0 && src + count == from + n && dest - to == src - from && to <= dest
      invariant a[..dest] == old(a[..to]) + old(a[from..src])
      invariant a[src..] == old(a[src..])
    {
      a[dest] := a[src];
      src, dest, count := src + 1, dest + 1, count - 1;
    }
  }

  lemma OffsetEnds(bs: seq<Binding>)
    ensures Offset(bs, 0) == 0 && Offset(bs, |bs|) == |Encode(bs)|
  {
    assert bs[..|bs|] == bs;
  }

  /** The offsets up to the last binding are inside the buffer, the one behind it is not. */
  lemma OffsetGrows(bs: seq<Binding>, k: nat)
    requires k <= |bs|
    ensures Offset(bs, k) <= |Encode(bs)|
    ensures Offset(bs, k) < |Encode(bs)| <==> k < |bs|
  {
    if k < |bs| { EncodeAround(bs, k); } else { OffsetEnds(bs); }
  }

  /** Cutting the bytes of a binding out of the buffer cuts the binding out of the list. */
  lemma RemovedBytes(bs: seq<Binding>, k: nat)
    requires k < |bs|
    ensures var p := Offset(bs, k); var q := Offset(bs, k + 1);
            p <= q <= |Encode(bs)| && Encode(bs[..k] + bs[k + 1..]) == Encode(bs)[..p] + Encode(bs)[q..]
  {
    EncodeAround(bs, k);
    var r := bs[..k] + bs[k + 1..];
    EncodeSplit(r, k);
    assert r[..k] == bs[..k] && r[k..] == bs[k + 1..];
    Middle(Encode(bs[..k]), Pair(bs[k]) + [NUL], Encode(bs[k + 1..]));
  }
}
