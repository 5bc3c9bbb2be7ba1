/**
  The table of function handlers that the Modbus slave and master share the shape of: slots
  are filled from the front, removal leaves a hole, and the scan for a code stops at a hole.
*/
module ModbusTable {
  import opened Basics

  datatype Status = NoError | IllegalState | InvalidArgument | NoResources

  /** A slot; a handler is known by a number, and None is the null pointer. */
  datatype Slot = Slot(code: int, handler: Option<nat>)

  const EMPTY := Slot(0, None)

  /** Code zero goes with no handler, and the other codes are the ones a handler may have. */
  ghost predicate Sound(slots: seq<Slot>) {
    forall i :: 0 <= i < |slots| ==>
      0 <= slots[i].code <= 127 && (slots[i].code == 0 <==> slots[i].handler.None?)
  }

  /** The used slots come before the free ones. */
  ghost predicate Packed(slots: seq<Slot>) {
    forall i, j :: 0 <= i < j < |slots| && slots[i].handler.None? ==> slots[j].handler.None?
  }

  /** No handler is in two slots. */
  ghost predicate Unshared(slots: seq<Slot>) {
    forall i, j :: 0 <= i < j < |slots| && slots[i].handler.Some? ==> slots[i].handler != slots[j].handler
  }

  ghost predicate Holds(slots: seq<Slot>, code: int) {
    exists i :: 0 <= i < |slots| && slots[i].code == code
  }

  // ----- The scans -----

  /** The first slot that is free or has the handler already, or the length of the table. */
  function Place(slots: seq<Slot>, handler: nat): (i: nat)
    ensures i <= |slots|
    ensures i < |slots| ==> slots[i].handler == None || slots[i].handler == Some(handler)
    ensures forall j :: 0 <= j < i ==> slots[j].handler != None && slots[j].handler != Some(handler)
  {
    if slots == [] || slots[0].handler == None || slots[0].handler == Some(handler) then 0
    else 1 + Place(slots[1..], handler)
  }

  /** The first slot with a code, or the length of the table. */
  function IndexOf(slots: seq<Slot>, code: int): (i: nat)
    ensures i <= |slots| && (i < |slots| <==> Holds(slots, code))
    ensures i < |slots| ==> slots[i].code == code
    ensures forall j :: 0 <= j < i ==> slots[j].code != code
  {
    if slots == [] then 0
    else if slots[0].code == code then
      assert Holds(slots, code);
      0
    else
      var i := IndexOf(slots[1..], code);
      assert i < |slots[1..]| ==> slots[1 + i].code == code;
      assert Holds(slots, code) ==> Holds(slots[1..], code) by {
        if k :| 0 <= k < |slots| && slots[k].code == code { assert slots[1..][k - 1].code == code; }
      }
      1 + i
  }

  /** The handler that a request is given to: the scan gives up at the first free slot. */
  function Find(slots: seq<Slot>, code: int): Option<nat> {
    if slots == [] || slots[0].code == 0 then None
    else if slots[0].code == code then slots[0].handler
    else Find(slots[1..], code)
  }

  /** The scan for the handler of a code. */
  method FindHandler(slots: array<Slot>, code: int) returns (handler: Option<nat>)
    ensures handler == Find(slots[..], code)
  {
    var i := 0;
    assert slots[0..] == slots[..];
    while i < slots.Length
      invariant i <= slots.Length && Find(slots[..], code) == Find(slots[i..], code)
    {
      assert slots[i..][1..] == slots[i + 1..];
      if slots[i].code == 0 {
        return None;
      } else if slots[i].code == code {
        return slots[i].handler;
      }
      i := i + 1;
    }
    handler := None;
  }

  /** It finds the first slot with the code if all before it are used, and otherwise nothing. */
  lemma {:induction false} FindIs(slots: seq<Slot>, code: int)
    requires Sound(slots)
    ensures var i := IndexOf(slots, code);
            Find(slots, code) ==
              if code != 0 && i < |slots| && IndexOf(slots, 0) > i then slots[i].handler else None
  {
    if slots != [] && slots[0].code != 0 && slots[0].code != code {
      FindIs(slots[1..], code);
    }
  }

  /** Slot `i` is the first with the code, it has a handler, and no slot before it is free. */
  ghost predicate Serves(slots: seq<Slot>, code: int, i: int) {
    && 0 <= i < |slots| && code != 0 && slots[i].code == code && slots[i].handler.Some?
    && forall j :: 0 <= j < i ==> slots[j].code != 0 && slots[j].code != code
  }

  /** The scan finds that slot's handler, and nothing else. */
  lemma {:induction false} FindServes(slots: seq<Slot>, code: int)
    ensures Find(slots, code).Some? <==> exists i :: Serves(slots, code, i)
    ensures forall i :: Serves(slots, code, i) ==> Find(slots, code) == slots[i].handler
  {
    if slots != [] {
      var rest := slots[1..];
      FindServes(rest, code);
      if slots[0].code != 0 && slots[0].code != code {
        if i :| Serves(rest, code, i) {
          assert Serves(slots, code, i + 1);
        }
        forall i | Serves(slots, code, i) ensures i > 0 && Serves(rest, code, i - 1) {
        }
      } else if slots[0].code == code && code != 0 && slots[0].handler.Some? {
        assert Serves(slots, code, 0);
      }
    }
  }

  /** A packed table answers for a code exactly when a slot has it. */
  lemma PackedFinds(slots: seq<Slot>, code: int)
    requires Sound(slots) && Packed(slots) && code != 0
    ensures Find(slots, code).Some? <==> Holds(slots, code)
  {
    FindIs(slots, code);
  }

  /** Some held code is not answered for exactly when it is only held behind a hole. */
  lemma HiddenByHole(slots: seq<Slot>, code: int)
    requires Sound(slots) && code != 0 && Holds(slots, code)
    ensures Find(slots, code).None? <==>
            exists i :: 0 <= i < |slots| && slots[i].code == 0 && !Holds(slots[..i], code)
  {
    FindIs(slots, code);
    var at, hole := IndexOf(slots, code), IndexOf(slots, 0);
    if hole < at {
      assert slots[hole].code == 0 && !Holds(slots[..hole], code);
    }
    if i :| 0 <= i < |slots| && slots[i].code == 0 && !Holds(slots[..i], code) {
      assert hole <= i;
      assert at < i ==> slots[..i][at].code == code;
    }
  }

  // ----- Registration and removal -----

  /** eMBRegisterCB on the table: a handler of None removes the code. */
  function Register(slots: seq<Slot>, code: int, handler: Option<nat>): (r: (seq<Slot>, Status))
    ensures |r.0| == |slots|
  {
    if !(0 < code <= 127) then (slots, InvalidArgument)
    else if handler.None? then
      var i := IndexOf(slots, code);
      (if i < |slots| then slots[i := EMPTY] else slots, NoError)
    else
      var i := Place(slots, handler.value);
      if i < |slots| then (slots[i := Slot(code, handler)], NoError) else (slots, NoResources)
  }

  /** A call is refused exactly for a code out of range, or for a new handler in a full table. */
  lemma RegisterStatus(slots: seq<Slot>, code: int, handler: Option<nat>)
    ensures var status := Register(slots, code, handler).1;
            && (status == InvalidArgument <==> code < 1 || code > 127)
            && (status == NoError <==>
                  1 <= code <= 127 &&
                  (handler.Some? ==> exists i :: 0 <= i < |slots| && (slots[i].handler == None || slots[i].handler == handler)))
            && (status != NoError ==> Register(slots, code, handler).0 == slots)
  {
    if handler.Some? {
      var i := Place(slots, handler.value);
      assert i < |slots| ==> slots[i].handler == None || slots[i].handler == handler;
    }
  }

  lemma RegisterKeepsSound(slots: seq<Slot>, code: int, handler: Option<nat>)
    requires Sound(slots)
    ensures Sound(Register(slots, code, handler).0)
  {
  }

  lemma RegisterKeepsPacked(slots: seq<Slot>, code: int, handler: Option<nat>)
    requires Sound(slots) && Packed(slots) && Unshared(slots) && handler.Some?
    ensures var after := Register(slots, code, handler).0; Packed(after) && Unshared(after)
  {
  }

  /** Removal keeps the table packed exactly when it empties the last used slot, or none. */
  lemma RemovalKeepsPacked(slots: seq<Slot>, code: int)
    requires Sound(slots) && Packed(slots) && 0 < code <= 127
    ensures var i := IndexOf(slots, code);
            Packed(Register(slots, code, None).0) <==>
            i + 1 >= |slots| || slots[i + 1].handler.None?
  {
    var i := IndexOf(slots, code);
    var after := Register(slots, code, None).0;
    if i + 1 < |slots| {
      assert after[i].handler.None? && after[i + 1] == slots[i + 1];
    }
  }

  // ----- Runs of calls -----

  datatype Call = Call(code: int, handler: Option<nat>)

  function RegisterAll(slots: seq<Slot>, calls: seq<Call>): (after: seq<Slot>)
    ensures |after| == |slots|
    decreases |calls|
  {
    if calls == [] then slots
    else RegisterAll(Register(slots, calls[0].code, calls[0].handler).0, calls[1..])
  }

  /** Whatever is registered and removed, a slot with a code has a handler to call. */
  lemma {:induction false} StaysSound(slots: seq<Slot>, calls: seq<Call>)
    requires Sound(slots)
    ensures Sound(RegisterAll(slots, calls))
    decreases |calls|
  {
    if calls != [] {
      RegisterKeepsSound(slots, calls[0].code, calls[0].handler);
      StaysSound(Register(slots, calls[0].code, calls[0].handler).0, calls[1..]);
    }
  }

  ghost predicate NoRemoval(calls: seq<Call>) {
    forall i :: 0 <= i < |calls| ==> calls[i].handler.Some?
  }

  /** Without removals the table stays packed, so every code that a slot holds is answered for. */
  lemma {:induction false} StaysPacked(slots: seq<Slot>, calls: seq<Call>)
    requires Sound(slots) && Packed(slots) && Unshared(slots) && NoRemoval(calls)
    ensures var after := RegisterAll(slots, calls);
            && Sound(after) && Packed(after) && Unshared(after)
            && forall code :: code != 0 ==> (Find(after, code).Some? <==> Holds(after, code))
    decreases |calls|
  {
    if calls != [] {
      RegisterKeepsSound(slots, calls[0].code, calls[0].handler);
      RegisterKeepsPacked(slots, calls[0].code, calls[0].handler);
      StaysPacked(Register(slots, calls[0].code, calls[0].handler).0, calls[1..]);
    } else {
      forall code | code != 0 ensures Find(slots, code).Some? <==> Holds(slots, code) {
        PackedFinds(slots, code);
      }
    }
  }

  /** With a removal it need not: the code behind the hole is held but no longer answered for. */
  lemma RemovalHides()
    ensures exists slots: seq<Slot>, calls: seq<Call>, code: int ::
              && (forall i :: 0 <= i < |slots| ==> slots[i] == EMPTY)
              && Holds(RegisterAll(slots, calls), code)
              && code != 0 && Find(RegisterAll(slots, calls), code).None?
  {
    var slots := [EMPTY, EMPTY];
    var calls := [Call(1, Some(10)), Call(2, Some(20)), Call(1, None)];
    var one := [Slot(1, Some(10)), EMPTY];
    var two := [Slot(1, Some(10)), Slot(2, Some(20))];
    assert Place(slots, 10) == 0 && slots[0 := Slot(1, Some(10))] == one;
    assert Place(one, 20) == 1 && one[1 := Slot(2, Some(20))] == two;
    assert IndexOf(two, 1) == 0 && two[0 := EMPTY] == [EMPTY, Slot(2, Some(20))];
    assert RegisterAll(slots, calls) == RegisterAll(one, calls[1..]) == RegisterAll(two, calls[2..])
        == [EMPTY, Slot(2, Some(20))];
    assert [EMPTY, Slot(2, Some(20))][1].code == 2;
    assert Holds(RegisterAll(slots, calls), 2) && Find(RegisterAll(slots, calls), 2).None?;
  }

  // ----- What a table without removals remembers -----

  /** The code under which a handler is registered. */
  function CodeOf(slots: seq<Slot>, handler: nat): Option<int> {
    if slots == [] then None
    else if slots[0].handler == Some(handler) then Some(slots[0].code)
    else CodeOf(slots[1..], handler)
  }

  /** The code that a handler was last given. */
  function LastCode(before: Option<int>, calls: seq<Call>, handler: nat): Option<int>
    decreases |calls|
  {
    if calls == [] then before
    else
      var c := calls[0];
      LastCode(if c.handler == Some(handler) && 0 < c.code <= 127 then Some(c.code) else before,
               calls[1..], handler)
  }

  /** Registering a handler gives it the code, and no other handler another one. */
  lemma {:induction false} RegisterSetsCode(slots: seq<Slot>, code: int, handler: nat, other: nat)
    requires 0 < code <= 127 && Unshared(slots) && Packed(slots)
    ensures var r := Register(slots, code, Some(handler));
            CodeOf(r.0, other) == if other == handler && r.1 == NoError then Some(code) else CodeOf(slots, other)
    ensures Register(slots, code, Some(handler)).1 != NoError ==> CodeOf(slots, handler) == None
  {
    if slots != [] {
      if slots[0].handler == None {
        CodeOfFree(slots, other);
        CodeOfFree(slots[1..], other);
      } else if slots[0].handler != Some(handler) {
        RegisterSetsCode(slots[1..], code, handler, other);
      }
      var after := Register(slots, code, Some(handler)).0;
      assert after[1..] == if slots[0].handler == None || slots[0].handler == Some(handler) then slots[1..]
                           else Register(slots[1..], code, Some(handler)).0;
    }
  }

  lemma {:induction false} CodeOfFree(slots: seq<Slot>, handler: nat)
    requires Packed(slots) && (slots == [] || slots[0].handler == None)
    ensures CodeOf(slots, handler) == None
  {
    if slots != [] {
      CodeOfFree(slots[1..], handler);
    }
  }

  lemma {:induction false} LaterCodeWins(before: Option<int>, calls: seq<Call>, handler: nat)
    ensures var later := LastCode(None, calls, handler);
            LastCode(before, calls, handler) == if later == None then before else later
    decreases |calls|
  {
    if calls != [] {
      var c := calls[0];
      LaterCodeWins(before, calls[1..], handler);
      LaterCodeWins(Some(c.code), calls[1..], handler);
    }
  }

  /** Every attempt to register a handler that is not in the table finds it full. */
  predicate Refused(slots: seq<Slot>, calls: seq<Call>, handler: nat)
    decreases |calls|
  {
    calls == [] ||
    var c := calls[0];
    var r := Register(slots, c.code, c.handler);
    (c.handler == Some(handler) ==> r.1 != NoError) && Refused(r.0, calls[1..], handler)
  }

  lemma {:induction false} AcceptedHasCode(slots: seq<Slot>, calls: seq<Call>, handler: nat)
    requires !Refused(slots, calls, handler)
    ensures LastCode(None, calls, handler) != None
    decreases |calls|
  {
    var c := calls[0];
    var r := Register(slots, c.code, c.handler);
    LaterCodeWins(Some(c.code), calls[1..], handler);
    if Refused(r.0, calls[1..], handler) {
      assert c.handler == Some(handler) && 0 < c.code <= 127;
    } else {
      AcceptedHasCode(r.0, calls[1..], handler);
    }
  }

  /** After any registrations a handler has the last code it was given, unless it was not in the
      table and never accepted. */
  lemma {:induction false} LastCodeKept(slots: seq<Slot>, calls: seq<Call>, handler: nat)
    requires Sound(slots) && Packed(slots) && Unshared(slots) && NoRemoval(calls)
    ensures CodeOf(RegisterAll(slots, calls), handler) ==
            if CodeOf(slots, handler) == None && Refused(slots, calls, handler) then None
            else LastCode(CodeOf(slots, handler), calls, handler)
    decreases |calls|
  {
    if calls != [] {
      var c := calls[0];
      var next := Register(slots, c.code, c.handler).0;
      RegisterKeepsSound(slots, c.code, c.handler);
      RegisterKeepsPacked(slots, c.code, c.handler);
      if 0 < c.code <= 127 {
        RegisterSetsCode(slots, c.code, c.handler.value, handler);
        LaterCodeWins(Some(c.code), calls[1..], handler);
      }
      if !Refused(next, calls[1..], handler) {
        AcceptedHasCode(next, calls[1..], handler);
      }
      LastCodeKept(next, calls[1..], handler);
    }
  }
}
