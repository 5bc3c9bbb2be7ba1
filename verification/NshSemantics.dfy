/**
  Structured scripts and their meaning.

  `Meaning` is what the documentation of the shell promises for if-then-else-fi and
  while/until-do-done.  `Actual` is what the token machine does: it differs in two clauses,
  the one for a loop whose test ends it, and the one for a command that fails under `set +e`.
*/
module NshSemantics {
  import opened NshControl

  /** A list of statements; `next` is the rest of the list.  A `joined` command stands on the
      command line of the keyword before it, as in `do echo hello`; `rest` is the number of
      statements behind a command on its line. */
  datatype Script =
    | End
    | Plain(joined: bool, words: Words, rest: nat, next: Script)
    | If(inverted: bool, cond: Words, thn: Script, hasElse: bool, els: Script, next: Script)
    | While(until: bool, test: Words, body: Script, next: Script)

  datatype End = Completed | CutOff | GaveUp

  /** The commands executed, the results left over, the final `$?` and how the run ended:
      to the end, for want of a result, or at a failed command under `set -e`. */
  datatype Outcome = Outcome(trace: seq<Event>, rs: seq<bool>, fail: bool, end: End)

  /** The outcome of a command followed by `o`. */
  function After(argv: Words, fail: bool, o: Outcome): Outcome {
    o.(trace := [Event(argv, fail)] + o.trace)
  }

  function Join(trace: seq<Event>, o: Outcome): Outcome {
    o.(trace := trace + o.trace)
  }

  lemma JoinNothing(o: Outcome)
    ensures Join([], o) == o
  {
    assert [] + o.trace == o.trace;
  }

  /** The documented meaning. */
  function Meaning(s: Script, rs: seq<bool>, fail: bool, ignore: bool): (o: Outcome)
    ensures |o.rs| <= |rs|
    decreases |rs|, s
  {
    match s
    case End => Outcome([], rs, fail, Completed)
    case Plain(_, words, _, next) =>
      if words == [] then Meaning(next, rs, fail, ignore)
      else if rs == [] then Outcome([], rs, fail, CutOff)
      else if rs[0] && !ignore then Outcome([Event(words, fail)], rs[1..], true, GaveUp)
      else After(words, fail, Meaning(next, rs[1..], rs[0], ignore))
    case If(inverted, cond, thn, _, els, next) =>
      if rs == [] then Outcome([], rs, fail, CutOff)
      else
        var o := Meaning(if rs[0] == inverted then thn else els, rs[1..], false, ignore);
        After(cond, fail, if o.end != Completed then o else Join(o.trace, Meaning(next, o.rs, o.fail, ignore)))
    case While(until, test, body, next) =>
      if rs == [] then Outcome([], rs, fail, CutOff)
      else if rs[0] == until then
        var o := Meaning(body, rs[1..], false, ignore);
        After(test, fail, if o.end != Completed then o else Join(o.trace, Meaning(s, o.rs, o.fail, ignore)))
      else
        After(test, fail, Meaning(next, rs[1..], false, ignore))
  }

  /** What is left of a list of statements behind the first `n`. */
  function Skip(s: Script, n: nat): Script {
    if n == 0 || s.End? then s else Skip(s.next, n - 1)
  }

  /** What the machine does.  `skip` says that the enclosing loop's test has ended the loop
      and its body is being passed over: commands and ifs are, but a loop directly in the
      body is run. */
  function Actual(s: Script, skip: bool, rs: seq<bool>, fail: bool, ignore: bool): (o: Outcome)
    ensures |o.rs| <= |rs|
    decreases |rs|, s
  {
    match s
    case End => Outcome([], rs, fail, Completed)
    case Plain(_, words, rest, next) =>
      if skip || words == [] then Actual(next, skip, rs, fail, ignore)
      else if rs == [] then Outcome([], rs, fail, CutOff)
      else if rs[0] && !ignore then Outcome([Event(words, fail)], rs[1..], true, GaveUp)
      else After(words, fail, Actual(if rs[0] then Skip(next, rest) else next, skip, rs[1..], rs[0], ignore))
    case If(inverted, cond, thn, _, els, next) =>
      if skip then Actual(next, skip, rs, fail, ignore)
      else if rs == [] then Outcome([], rs, fail, CutOff)
      else
        var o := Actual(if rs[0] == inverted then thn else els, false, rs[1..], false, ignore);
        After(cond, fail, if o.end != Completed then o else Join(o.trace, Actual(next, skip, o.rs, o.fail, ignore)))
    case While(until, test, body, next) =>
      if rs == [] then Outcome([], rs, fail, CutOff)
      else
        var more := rs[0] == until;
        var o := Actual(body, !more, rs[1..], false, ignore);
        After(test, fail,
              if o.end != Completed then o
              else Join(o.trace, Actual(if more then s else next, skip, o.rs, o.fail, ignore)))
  }

  // ----- When the two agree -----

  /** The first `n` statements are empty. */
  predicate Blank(s: Script, n: nat) {
    n == 0 || s.End? || (s.Plain? && s.words == [] && Blank(s.next, n - 1))
  }

  /** Nothing to be executed stands behind a plain command on its line. */
  predicate Alone(s: Script) {
    match s
    case End => true
    case Plain(_, words, rest, next) => (words == [] || Blank(next, rest)) && Alone(next)
    case If(_, _, thn, _, els, next) => Alone(thn) && Alone(els) && Alone(next)
    case While(_, _, body, next) => Alone(body) && Alone(next)
  }

  lemma {:induction false} BlankSkipped(s: Script, n: nat, rs: seq<bool>, fail: bool, ignore: bool)
    requires Blank(s, n)
    ensures Meaning(Skip(s, n), rs, fail, ignore) == Meaning(s, rs, fail, ignore)
    ensures LoopInLoop(Skip(s, n)) == LoopInLoop(s) && Alone(Skip(s, n)) == Alone(s) && Cost(Skip(s, n)) == Cost(s)
  {
    if n > 0 && !s.End? {
      BlankSkipped(s.next, n - 1, rs, fail, ignore);
    }
  }

  /** A loop stands directly in the list, not inside an if. */
  predicate HasLoop(s: Script) {
    match s
    case End => false
    case Plain(_, _, _, next) => HasLoop(next)
    case If(_, _, _, _, _, next) => HasLoop(next)
    case While(_, _, _, _) => true
  }

  /** Some loop has a loop directly in its body. */
  predicate LoopInLoop(s: Script) {
    match s
    case End => false
    case Plain(_, _, _, next) => LoopInLoop(next)
    case If(_, _, thn, _, els, next) => LoopInLoop(thn) || LoopInLoop(els) || LoopInLoop(next)
    case While(_, _, body, next) => HasLoop(body) || LoopInLoop(body) || LoopInLoop(next)
  }

  lemma {:induction false} SkipIsSilent(s: Script, rs: seq<bool>, fail: bool, ignore: bool)
    requires !HasLoop(s)
    ensures Actual(s, true, rs, fail, ignore) == Outcome([], rs, fail, Completed)
  {
    if !s.End? {
      SkipIsSilent(s.next, rs, fail, ignore);
    }
  }

  /** Without a loop directly inside a loop, and with nothing to be skipped when a command fails,
      the machine does what is documented. */
  lemma {:induction false} AgreeWithoutNesting(s: Script, rs: seq<bool>, fail: bool, ignore: bool)
    requires !LoopInLoop(s) && (ignore ==> Alone(s))
    ensures Actual(s, false, rs, fail, ignore) == Meaning(s, rs, fail, ignore)
    decreases |rs|, s
  {
    hide After, Join;
    match s
    case End =>
    case Plain(_, words, rest, next) =>
      if words == [] {
        AgreeWithoutNesting(next, rs, fail, ignore);
      } else if rs != [] && ignore && rs[0] {
        BlankSkipped(next, rest, rs[1..], rs[0], ignore);
        AgreeWithoutNesting(Skip(next, rest), rs[1..], rs[0], ignore);
      } else if rs != [] && !rs[0] {
        AgreeWithoutNesting(next, rs[1..], rs[0], ignore);
      }
    case If(inverted, cond, thn, _, els, next) =>
      if rs != [] {
        var branch := if rs[0] == inverted then thn else els;
        AgreeWithoutNesting(branch, rs[1..], false, ignore);
        var o := Meaning(branch, rs[1..], false, ignore);
        AgreeWithoutNesting(next, o.rs, o.fail, ignore);
      }
    case While(until, test, body, next) =>
      if rs != [] {
        if rs[0] == until {
          AgreeWithoutNesting(body, rs[1..], false, ignore);
          var o := Meaning(body, rs[1..], false, ignore);
          AgreeWithoutNesting(s, o.rs, o.fail, ignore);
        } else {
          SkipIsSilent(body, rs[1..], false, ignore);
          AgreeWithoutNesting(next, rs[1..], false, ignore);
          JoinNothing(Meaning(next, rs[1..], false, ignore));
        }
      }
  }

  // ----- And only then -----

  function Branch(s: Script, result: bool): Script
    requires s.If?
  {
    if result == s.inverted then s.thn else s.els
  }

  /** How a run ended and what it left, without the trace. */
  predicate SameEnd(o: Outcome, p: Outcome) {
    o.end == p.end && o.rs == p.rs
  }

  /** No plain command is seen to fail: no later command finds `$?` set, nor does the end. */
  predicate Calm(o: Outcome) {
    && (forall i :: 1 <= i < |o.trace| ==> !o.trace[i].status)
    && (o.trace != [] ==> !o.fail)
  }

  /** A run shows the `$?` that it starts with. */
  predicate Shows(o: Outcome, fail: bool) {
    if o.trace == [] then o.end == Completed ==> o.fail == fail else o.trace[0].status == fail
  }

  lemma {:induction false} MeaningShows(s: Script, rs: seq<bool>, fail: bool, ignore: bool)
    ensures Shows(Meaning(s, rs, fail, ignore), fail)
    decreases s
  {
    if s.Plain? && s.words == [] {
      MeaningShows(s.next, rs, fail, ignore);
    }
  }

  lemma {:induction false} ActualShows(s: Script, skip: bool, rs: seq<bool>, fail: bool, ignore: bool)
    ensures Shows(Actual(s, skip, rs, fail, ignore), fail)
    decreases s
  {
    if (s.Plain? && (skip || s.words == [])) || (s.If? && skip) {
      ActualShows(s.next, skip, rs, fail, ignore);
    }
  }

  /** `$?` is never set, not even at the beginning. */
  predicate Clear(o: Outcome) {
    !o.fail && forall i :: 0 <= i < |o.trace| ==> !o.trace[i].status
  }

  lemma ClearIsCalm(o: Outcome, fail: bool)
    requires o.end == Completed && Shows(o, fail)
    ensures Clear(o) <==> Calm(o) && !fail
  {
  }

  lemma CalmAfter(argv: Words, fail: bool, o: Outcome)
    ensures Calm(After(argv, fail, o)) <==> Clear(o)
  {
    var all := [Event(argv, fail)] + o.trace;
    assert forall i :: 0 <= i < |o.trace| ==> all[i + 1] == o.trace[i];
    assert forall i :: 1 <= i < |all| ==> all[i] == o.trace[i - 1];
  }

  lemma ClearJoin(a: Outcome, b: Outcome)
    requires a.end == Completed && b.end == Completed && Shows(b, a.fail)
    ensures Clear(Join(a.trace, b)) <==> Clear(a) && Clear(b)
  {
    var all := a.trace + b.trace;
    assert forall i :: 0 <= i < |a.trace| ==> all[i] == a.trace[i];
    assert forall i :: 0 <= i < |b.trace| ==> all[|a.trace| + i] == b.trace[i];
    assert forall i :: |a.trace| <= i < |all| ==> all[i] == b.trace[i - |a.trace|];
  }

  /** A test, a body that completes and what follows are calm together exactly if both are. */
  lemma CalmBoth(argv: Words, fail: bool, o: Outcome, n: Outcome)
    requires o.end == n.end == Completed && Shows(o, false) && Shows(n, o.fail)
    ensures Calm(After(argv, fail, Join(o.trace, n))) <==> Calm(o) && Calm(n)
  {
    hide Calm, Shows;
    CalmAfter(argv, fail, Join(o.trace, n));
    ClearJoin(o, n);
    ClearIsCalm(o, false);
    ClearIsCalm(n, o.fail);
  }

  lemma CalmOne(argv: Words, fail: bool, n: Outcome, failed: bool)
    requires n.end == Completed && Shows(n, failed)
    ensures Calm(After(argv, fail, n)) <==> Calm(n) && !failed
  {
    hide Calm, Shows;
    CalmAfter(argv, fail, n);
    ClearIsCalm(n, failed);
  }

  /** `p` ends as `q` does, and if both complete is calm exactly if `q` and what is between are. */
  predicate Like(p: Outcome, q: Outcome, between: bool) {
    SameEnd(p, q) && (p.end == Completed ==> (Calm(p) <==> Calm(q) && between))
  }

  lemma MeaningIf(s: Script, rs: seq<bool>, fail: bool, ignore: bool)
    requires s.If? && rs != []
    ensures var o := Meaning(Branch(s, rs[0]), rs[1..], false, ignore);
            o.end == Completed ==> Like(Meaning(s, rs, fail, ignore), Meaning(s.next, o.rs, o.fail, ignore), Calm(o))
  {
    hide Calm, Shows;
    var o := Meaning(Branch(s, rs[0]), rs[1..], false, ignore);
    var n := Meaning(s.next, o.rs, o.fail, ignore);
    MeaningShows(Branch(s, rs[0]), rs[1..], false, ignore);
    MeaningShows(s.next, o.rs, o.fail, ignore);
    if o.end == n.end == Completed {
      CalmBoth(s.cond, fail, o, n);
    }
  }

  lemma MeaningMore(s: Script, rs: seq<bool>, fail: bool, ignore: bool)
    requires s.While? && rs != [] && rs[0] == s.until
    ensures var o := Meaning(s.body, rs[1..], false, ignore);
            o.end == Completed ==> Like(Meaning(s, rs, fail, ignore), Meaning(s, o.rs, o.fail, ignore), Calm(o))
  {
    hide Calm, Shows;
    var o := Meaning(s.body, rs[1..], false, ignore);
    var n := Meaning(s, o.rs, o.fail, ignore);
    MeaningShows(s.body, rs[1..], false, ignore);
    MeaningShows(s, o.rs, o.fail, ignore);
    if o.end == n.end == Completed {
      CalmBoth(s.test, fail, o, n);
    }
  }

  lemma MeaningOver(s: Script, rs: seq<bool>, fail: bool, ignore: bool)
    requires s.While? && rs != [] && rs[0] != s.until
    ensures Like(Meaning(s, rs, fail, ignore), Meaning(s.next, rs[1..], false, ignore), true)
  {
    hide Calm, Shows;
    var n := Meaning(s.next, rs[1..], false, ignore);
    MeaningShows(s.next, rs[1..], false, ignore);
    if n.end == Completed {
      CalmOne(s.test, fail, n, false);
    }
  }

  lemma MeaningPlain(s: Script, rs: seq<bool>, fail: bool, ignore: bool)
    requires s.Plain? && (s.words == [] || (rs != [] && !rs[0]))
    ensures Like(Meaning(s, rs, fail, ignore),
                 if s.words == [] then Meaning(s.next, rs, fail, ignore) else Meaning(s.next, rs[1..], false, ignore), true)
  {
    hide Calm, Shows;
    if s.words != [] {
      var n := Meaning(s.next, rs[1..], false, ignore);
      MeaningShows(s.next, rs[1..], false, ignore);
      if n.end == Completed {
        CalmOne(s.words, fail, n, false);
      }
    }
  }

  lemma ActualIf(s: Script, rs: seq<bool>, fail: bool, ignore: bool)
    requires s.If? && rs != []
    ensures var o := Actual(Branch(s, rs[0]), false, rs[1..], false, ignore);
            var p := Actual(s, false, rs, fail, ignore);
            if o.end == Completed then Like(p, Actual(s.next, false, o.rs, o.fail, ignore), Calm(o)) else p.end != Completed
  {
    hide Calm, Shows;
    var o := Actual(Branch(s, rs[0]), false, rs[1..], false, ignore);
    var n := Actual(s.next, false, o.rs, o.fail, ignore);
    ActualShows(Branch(s, rs[0]), false, rs[1..], false, ignore);
    ActualShows(s.next, false, o.rs, o.fail, ignore);
    if o.end == n.end == Completed {
      CalmBoth(s.cond, fail, o, n);
    }
  }

  lemma ActualLoops(s: Script, skip: bool, rs: seq<bool>, fail: bool, ignore: bool)
    requires s.While? && rs != []
    ensures var more := rs[0] == s.until;
            var o := Actual(s.body, !more, rs[1..], false, ignore);
            var p := Actual(s, skip, rs, fail, ignore);
            if o.end == Completed then Like(p, Actual(if more then s else s.next, skip, o.rs, o.fail, ignore), Calm(o))
            else p.end != Completed
  {
    hide Calm, Shows;
    var more := rs[0] == s.until;
    var o := Actual(s.body, !more, rs[1..], false, ignore);
    var n := Actual(if more then s else s.next, skip, o.rs, o.fail, ignore);
    ActualShows(s.body, !more, rs[1..], false, ignore);
    ActualShows(if more then s else s.next, skip, o.rs, o.fail, ignore);
    if o.end == n.end == Completed {
      CalmBoth(s.test, fail, o, n);
    }
  }

  lemma ActualGoesOn(s: Script, rs: seq<bool>, fail: bool, ignore: bool)
    requires s.Plain? && (s.words == [] || (rs != [] && (!rs[0] || ignore)))
    ensures if s.words == [] then Like(Actual(s, false, rs, fail, ignore), Actual(s.next, false, rs, fail, ignore), true)
            else
              var next := if rs[0] then Skip(s.next, s.rest) else s.next;
              Like(Actual(s, false, rs, fail, ignore), Actual(next, false, rs[1..], rs[0], ignore), !rs[0])
  {
    hide Calm, Shows;
    if s.words != [] {
      var next := if rs[0] then Skip(s.next, s.rest) else s.next;
      var n := Actual(next, false, rs[1..], rs[0], ignore);
      ActualShows(next, false, rs[1..], rs[0], ignore);
      if n.end == Completed {
        CalmOne(s.words, fail, n, rs[0]);
      }
    }
  }

  /** The fewest results with which a script completes. */
  function Cost(s: Script): nat {
    match s
    case End => 0
    case Plain(_, words, _, next) => (if words == [] then 0 else 1) + Cost(next)
    case If(_, _, thn, _, els, next) => 1 + (if Cost(thn) <= Cost(els) then Cost(thn) else Cost(els)) + Cost(next)
    case While(_, _, _, next) => 1 + Cost(next)
  }

  /** Results that complete `s` at that cost, followed by `more`: commands succeed, an if takes
      its cheaper branch and a loop ends at once. */
  function Fewest(s: Script, more: seq<bool>): (rs: seq<bool>)
    ensures |rs| == Cost(s) + |more|
    decreases s
  {
    match s
    case End => more
    case Plain(_, words, _, next) => if words == [] then Fewest(next, more) else [false] + Fewest(next, more)
    case If(inverted, _, thn, _, els, next) =>
      if Cost(thn) <= Cost(els) then [inverted] + Fewest(thn, Fewest(next, more))
      else [!inverted] + Fewest(els, Fewest(next, more))
    case While(until, _, _, next) => [!until] + Fewest(next, more)
  }

  lemma {:induction false} FewestCompletes(s: Script, more: seq<bool>, fail: bool, ignore: bool)
    ensures var o := Meaning(s, Fewest(s, more), fail, ignore); o.end == Completed && o.rs == more && Calm(o)
  {
    var rs := Fewest(s, more);
    if !s.End? {
      hide Meaning, Calm;
      match s
      case Plain(_, words, _, next) =>
        MeaningPlain(s, rs, fail, ignore);
        FewestCompletes(next, more, if words == [] then fail else false, ignore);
      case If(_, _, _, _, _, next) =>
        var branch := Branch(s, rs[0]);
        MeaningIf(s, rs, fail, ignore);
        FewestCompletes(branch, Fewest(next, more), false, ignore);
        FewestCompletes(next, more, Meaning(branch, rs[1..], false, ignore).fail, ignore);
      case While(_, _, _, next) =>
        MeaningOver(s, rs, fail, ignore);
        FewestCompletes(next, more, false, ignore);
    }
  }

  /** What a script costs at least, or, passed over, its first loop. */
  function AtLeast(s: Script, skip: bool): nat {
    if !skip then Cost(s) else if HasLoop(s) then 1 else 0
  }

  lemma ActualSkips(s: Script, rs: seq<bool>, fail: bool, ignore: bool)
    requires s.Plain? || s.If?
    ensures Actual(s, true, rs, fail, ignore) == Actual(s.next, true, rs, fail, ignore)
    ensures AtLeast(s, true) == AtLeast(s.next, true)
  {
    hide Cost;
  }

  /** The machine cannot complete a script on fewer results, unless a command fails and others
      are skipped. */
  lemma {:induction false} FewestIsNeeded(s: Script, skip: bool, rs: seq<bool>, fail: bool, ignore: bool)
    ensures var o := Actual(s, skip, rs, fail, ignore);
            o.end == Completed && Calm(o) ==> |o.rs| + AtLeast(s, skip) <= |rs|
    decreases |rs|, s
  {
    hide Actual, HasLoop, Calm;
    if s.While? && rs != [] {
      var more := rs[0] == s.until;
      var o := Actual(s.body, !more, rs[1..], false, ignore);
      ActualLoops(s, skip, rs, fail, ignore);
      FewestIsNeeded(if more then s else s.next, skip, o.rs, o.fail, ignore);
      FewestAfterLoop(s, skip);
    } else if s.While? || s.End? {
      FewestAtOnce(s, skip, rs, fail, ignore);
    } else if skip {
      ActualSkips(s, rs, fail, ignore);
      FewestIsNeeded(s.next, skip, rs, fail, ignore);
    } else if s.If? && rs != [] {
      var branch := Branch(s, rs[0]);
      var o := Actual(branch, false, rs[1..], false, ignore);
      ActualIf(s, rs, fail, ignore);
      FewestIsNeeded(branch, false, rs[1..], false, ignore);
      FewestIsNeeded(s.next, false, o.rs, o.fail, ignore);
    } else if s.If? || (s.words != [] && (rs == [] || (rs[0] && !ignore))) {
      FewestAtOnce(s, skip, rs, fail, ignore);
    } else if s.words == [] {
      ActualGoesOn(s, rs, fail, ignore);
      FewestIsNeeded(s.next, false, rs, fail, ignore);
    } else {
      ActualGoesOn(s, rs, fail, ignore);
      FewestIsNeeded(s.next, false, rs[1..], rs[0], ignore);
    }
  }

  lemma FewestAfterLoop(s: Script, skip: bool)
    requires s.While?
    ensures AtLeast(s, skip) <= 1 + AtLeast(s.next, skip)
  {
  }

  lemma FewestAtOnce(s: Script, skip: bool, rs: seq<bool>, fail: bool, ignore: bool)
    requires s.End? || (s.While? && rs == []) || (!skip && s.If? && rs == [])
          || (!skip && s.Plain? && s.words != [] && (rs == [] || (rs[0] && !ignore)))
    ensures var o := Actual(s, skip, rs, fail, ignore); o.end == Completed ==> |o.rs| + AtLeast(s, skip) <= |rs|
  {
  }

  /** Results that lead a script with a loop in a loop to the first such loop, end that loop
      at once and complete the rest as cheaply as possible, followed by `more`. */
  function Exposing(s: Script, more: seq<bool>): (rs: seq<bool>)
    requires LoopInLoop(s)
    decreases s
  {
    match s
    case Plain(_, words, _, next) => if words == [] then Exposing(next, more) else [false] + Exposing(next, more)
    case If(inverted, cond, thn, _, els, next) =>
      if LoopInLoop(thn) then [inverted] + Exposing(thn, Fewest(next, more))
      else if LoopInLoop(els) then [!inverted] + Exposing(els, Fewest(next, more))
      else [inverted] + Fewest(thn, Exposing(next, more))
    case While(until, test, body, next) =>
      if HasLoop(body) then [!until] + Fewest(next, more)
      else if LoopInLoop(body) then [until] + Exposing(body, Fewest(s, more))
      else [!until] + Exposing(next, more)
  }

  /** As documented, the script completes on these results and uses all of them. */
  lemma {:induction false} ExposingCompletes(s: Script, more: seq<bool>, fail: bool, ignore: bool)
    requires LoopInLoop(s)
    ensures var o := Meaning(s, Exposing(s, more), fail, ignore); o.end == Completed && o.rs == more && Calm(o)
    decreases s
  {
    hide Meaning, Calm;
    var rs := Exposing(s, more);
    match s
    case Plain(_, words, _, next) =>
      MeaningPlain(s, rs, fail, ignore);
      ExposingCompletes(next, more, if words == [] then fail else false, ignore);
    case If(_, _, thn, _, els, next) =>
      var branch := Branch(s, rs[0]);
      var o := Meaning(branch, rs[1..], false, ignore);
      MeaningIf(s, rs, fail, ignore);
      if LoopInLoop(thn) || LoopInLoop(els) {
        ExposingCompletes(branch, Fewest(next, more), false, ignore);
        FewestCompletes(next, more, o.fail, ignore);
      } else {
        FewestCompletes(branch, Exposing(next, more), false, ignore);
        ExposingCompletes(next, more, o.fail, ignore);
      }
    case While(until, _, body, next) =>
      if HasLoop(body) {
        MeaningOver(s, rs, fail, ignore);
        FewestCompletes(next, more, false, ignore);
      } else if LoopInLoop(body) {
        MeaningMore(s, rs, fail, ignore);
        ExposingCompletes(body, Fewest(s, more), false, ignore);
        FewestCompletes(s, more, Meaning(body, rs[1..], false, ignore).fail, ignore);
      } else {
        MeaningOver(s, rs, fail, ignore);
        ExposingCompletes(next, more, false, ignore);
      }
  }

  /** The machine wants more than these results. */
  lemma {:induction false} ExposingFallsShort(s: Script, more: seq<bool>, fail: bool, ignore: bool)
    requires LoopInLoop(s)
    ensures var o := Actual(s, false, Exposing(s, more), fail, ignore);
            o.end == Completed && Calm(o) ==> |o.rs| < |more|
    decreases s
  {
    hide Actual, Meaning, Calm;
    var rs := Exposing(s, more);
    match s
    case Plain(_, words, _, next) =>
      ActualGoesOn(s, rs, fail, ignore);
      ExposingFallsShort(next, more, if words == [] then fail else false, ignore);
    case If(_, _, thn, _, els, next) =>
      var branch := Branch(s, rs[0]);
      var o := Actual(branch, false, rs[1..], false, ignore);
      ActualIf(s, rs, fail, ignore);
      if LoopInLoop(thn) || LoopInLoop(els) {
        ExposingFallsShort(branch, Fewest(next, more), false, ignore);
        FewestIsNeeded(next, false, o.rs, o.fail, ignore);
      } else {
        FewestActual(branch, Exposing(next, more), false, ignore);
        ExposingFallsShort(next, more, o.fail, ignore);
      }
    case While(until, _, body, next) =>
      ActualLoops(s, false, rs, fail, ignore);
      if HasLoop(body) {
        FewestIsNeeded(body, true, rs[1..], false, ignore);
        var o := Actual(body, true, rs[1..], false, ignore);
        FewestIsNeeded(next, false, o.rs, o.fail, ignore);
      } else if LoopInLoop(body) {
        ExposingFallsShort(body, Fewest(s, more), false, ignore);
        var o := Actual(body, false, rs[1..], false, ignore);
        FewestIsNeeded(s, false, o.rs, o.fail, ignore);
      } else {
        SkipIsSilent(body, rs[1..], false, ignore);
        ExposingFallsShort(next, more, false, ignore);
      }
  }

  // ----- What is skipped when a command fails -----

  lemma {:induction false} SkipSaves(s: Script, n: nat)
    ensures Cost(Skip(s, n)) <= Cost(s) && (!Blank(s, n) ==> Cost(Skip(s, n)) < Cost(s))
  {
    if n > 0 && !s.End? {
      SkipSaves(s.next, n - 1);
    }
  }

  lemma {:induction false} LessNesting(s: Script, n: nat)
    requires !LoopInLoop(s)
    ensures !LoopInLoop(Skip(s, n))
  {
    if n > 0 && !s.End? {
      LessNesting(s.next, n - 1);
    }
  }

  /** The machine completes on the fewest results, too. */
  lemma {:induction false} FewestActual(s: Script, more: seq<bool>, fail: bool, ignore: bool)
    requires !LoopInLoop(s)
    ensures var o := Actual(s, false, Fewest(s, more), fail, ignore); o.end == Completed && o.rs == more
  {
    var rs := Fewest(s, more);
    if !s.End? {
      hide Actual, Calm;
      match s
      case Plain(_, words, _, next) =>
        ActualGoesOn(s, rs, fail, ignore);
        FewestActual(next, more, if words == [] then fail else false, ignore);
      case If(_, _, _, _, _, next) =>
        var branch := Branch(s, rs[0]);
        ActualIf(s, rs, fail, ignore);
        FewestActual(branch, Fewest(next, more), false, ignore);
        FewestActual(next, more, Actual(branch, false, rs[1..], false, ignore).fail, ignore);
      case While(_, _, body, next) =>
        ActualLoops(s, false, rs, fail, ignore);
        SkipIsSilent(body, rs[1..], false, ignore);
        FewestActual(next, more, false, ignore);
    }
  }

  /** A documented run cannot complete a script on fewer results. */
  lemma {:induction false} MeaningNeeds(s: Script, rs: seq<bool>, fail: bool, ignore: bool)
    ensures var o := Meaning(s, rs, fail, ignore); o.end == Completed ==> |o.rs| + Cost(s) <= |rs|
    decreases |rs|, s
  {
    match s
    case End =>
    case Plain(_, words, _, next) =>
      if words == [] {
        MeaningNeeds(next, rs, fail, ignore);
      } else if rs != [] {
        MeaningNeeds(next, rs[1..], rs[0], ignore);
      }
    case If(_, _, _, _, _, next) =>
      if rs != [] {
        var o := Meaning(Branch(s, rs[0]), rs[1..], false, ignore);
        MeaningNeeds(Branch(s, rs[0]), rs[1..], false, ignore);
        MeaningNeeds(next, o.rs, o.fail, ignore);
      }
    case While(until, _, body, next) =>
      if rs != [] && rs[0] == until {
        var o := Meaning(body, rs[1..], false, ignore);
        MeaningNeeds(s, o.rs, o.fail, ignore);
      } else if rs != [] {
        MeaningNeeds(next, rs[1..], false, ignore);
      }
  }

  /** Results that lead to the first command behind which something is lost, let it fail, and
      complete the rest as cheaply as possible, followed by `more`. */
  function Losing(s: Script, more: seq<bool>): (rs: seq<bool>)
    requires !Alone(s)
    decreases s
  {
    match s
    case Plain(_, words, rest, next) =>
      if words == [] then Losing(next, more)
      else if !Blank(next, rest) then [true] + Fewest(Skip(next, rest), more)
      else [false] + Losing(next, more)
    case If(inverted, cond, thn, _, els, next) =>
      if !Alone(thn) then [inverted] + Losing(thn, Fewest(next, more))
      else if !Alone(els) then [!inverted] + Losing(els, Fewest(next, more))
      else [inverted] + Fewest(thn, Losing(next, more))
    case While(until, test, body, next) =>
      if !Alone(body) then [until] + Losing(body, Fewest(s, more))
      else [!until] + Losing(next, more)
  }

  /** The machine completes on these results and uses all of them. */
  lemma {:induction false} LosingCompletes(s: Script, more: seq<bool>, fail: bool)
    requires !Alone(s) && !LoopInLoop(s)
    ensures var o := Actual(s, false, Losing(s, more), fail, true); o.end == Completed && o.rs == more
    decreases s
  {
    hide Actual, Fewest, Blank, HasLoop, Calm;
    var rs := Losing(s, more);
    match s
    case Plain(_, words, rest, next) =>
      ActualGoesOn(s, rs, fail, true);
      if words != [] && !Blank(next, rest) {
        LessNesting(next, rest);
        FewestActual(Skip(next, rest), more, true, true);
      } else {
        LosingCompletes(next, more, if words == [] then fail else false);
      }
    case If(_, _, thn, _, els, next) =>
      var branch := Branch(s, rs[0]);
      var o := Actual(branch, false, rs[1..], false, true);
      ActualIf(s, rs, fail, true);
      if !Alone(thn) || !Alone(els) {
        LosingCompletes(branch, Fewest(next, more), false);
        FewestActual(next, more, o.fail, true);
      } else {
        FewestActual(branch, Losing(next, more), false, true);
        LosingCompletes(next, more, o.fail);
      }
    case While(until, _, body, next) =>
      ActualLoops(s, false, rs, fail, true);
      if !Alone(body) {
        LosingCompletes(body, Fewest(s, more), false);
        FewestActual(s, more, Actual(body, false, rs[1..], false, true).fail, true);
      } else {
        SkipIsSilent(body, rs[1..], false, true);
        LosingCompletes(next, more, false);
      }
  }

  lemma MeaningFails(s: Script, rs: seq<bool>, fail: bool)
    requires s.Plain? && s.words != [] && rs != []
    ensures SameEnd(Meaning(s, rs, fail, true), Meaning(s.next, rs[1..], rs[0], true))
  {
  }

  lemma MeaningStops(s: Script, rs: seq<bool>, fail: bool, ignore: bool)
    requires rs != [] && (s.If? || (s.While? && rs[0] == s.until))
    ensures var o := Meaning(if s.If? then Branch(s, rs[0]) else s.body, rs[1..], false, ignore);
            o.end != Completed ==> Meaning(s, rs, fail, ignore).end != Completed
  {
  }

  /** As documented, the script wants more than these results. */
  lemma {:induction false} LosingFallsShort(s: Script, more: seq<bool>, fail: bool)
    requires !Alone(s)
    ensures var o := Meaning(s, Losing(s, more), fail, true); o.end == Completed ==> |o.rs| < |more|
    decreases s
  {
    hide Meaning, Blank, Calm;
    var rs := Losing(s, more);
    match s
    case Plain(_, words, rest, next) =>
      if words == [] {
        MeaningPlain(s, rs, fail, true);
        LosingFallsShort(next, more, fail);
      } else {
        MeaningFails(s, rs, fail);
        if Blank(next, rest) {
          LosingFallsShort(next, more, false);
        } else {
          SkipSaves(next, rest);
          MeaningNeeds(next, rs[1..], true, true);
        }
      }
    case If(_, _, thn, _, els, next) =>
      var branch := Branch(s, rs[0]);
      var o := Meaning(branch, rs[1..], false, true);
      MeaningIf(s, rs, fail, true);
      MeaningStops(s, rs, fail, true);
      if !Alone(thn) || !Alone(els) {
        LosingFallsShort(branch, Fewest(next, more), false);
        MeaningNeeds(next, o.rs, o.fail, true);
      } else {
        FewestCompletes(branch, Losing(next, more), false, true);
        LosingFallsShort(next, more, o.fail);
      }
    case While(until, _, body, next) =>
      if !Alone(body) {
        var o := Meaning(body, rs[1..], false, true);
        MeaningMore(s, rs, fail, true);
        MeaningStops(s, rs, fail, true);
        LosingFallsShort(body, Fewest(s, more), false);
        MeaningNeeds(s, o.rs, o.fail, true);
      } else {
        MeaningOver(s, rs, fail, true);
        LosingFallsShort(next, more, false);
      }
  }

  /** Results on which the machine does not do what is documented: either it or the documented
      run completes, and the other does not or ends differently. */
  lemma Telling(s: Script, ignore: bool) returns (rs: seq<bool>)
    requires LoopInLoop(s) || (ignore && !Alone(s))
    ensures var o, p := Actual(s, false, rs, false, ignore), Meaning(s, rs, false, ignore);
            !(o.trace == p.trace && o.rs == p.rs && o.end == p.end && (o.end == Completed ==> o.fail == p.fail))
  {
    hide Actual, Meaning, LoopInLoop, Alone;
    if LoopInLoop(s) {
      rs := Exposing(s, []);
      ExposingCompletes(s, [], false, ignore);
      ExposingFallsShort(s, [], false, ignore);
    } else {
      rs := Losing(s, []);
      LosingCompletes(s, [], false);
      LosingFallsShort(s, [], false);
    }
  }

  /** The machine follows the documentation on every list of results exactly when no loop stands
      directly inside a loop and, under `set +e`, nothing to be executed stands behind a plain
      command on its line. */
  lemma DocumentedIff(s: Script, fail: bool, ignore: bool)
    ensures (forall rs :: Actual(s, false, rs, fail, ignore) == Meaning(s, rs, fail, ignore)) <==>
            !LoopInLoop(s) && (ignore ==> Alone(s))
  {
    hide Actual, Meaning, Calm;
    if LoopInLoop(s) {
      var rs := Exposing(s, []);
      ExposingCompletes(s, [], fail, ignore);
      ExposingFallsShort(s, [], fail, ignore);
      assert Actual(s, false, rs, fail, ignore) != Meaning(s, rs, fail, ignore);
    } else if ignore && !Alone(s) {
      var rs := Losing(s, []);
      LosingCompletes(s, [], fail);
      LosingFallsShort(s, [], fail);
      assert Actual(s, false, rs, fail, true) != Meaning(s, rs, fail, true);
    } else {
      forall rs
        ensures Actual(s, false, rs, fail, ignore) == Meaning(s, rs, fail, ignore)
      {
        AgreeWithoutNesting(s, rs, fail, ignore);
      }
    }
  }
}
