/**
  The Modbus slave: a frame for this slave is handed to the handler of its function code and
  answered. Events reach the poll through a queue of length one, where a later event takes
  the place of one that was not fetched.
*/
module ModbusSlave {
  import opened Basics
  import opened ModbusTable

  const BROADCAST := 0
  const ADDRESS_MAX := 247

  const NO_EXCEPTION := 0
  const ILLEGAL_FUNCTION := 1

  datatype Mode = NotInitialized | Disabled | Enabled

  datatype Event = Ready | FrameReceived | Execute | FrameSent

  type Byte = x: int | 0 <= x < 256

  datatype Pdu = Pdu(code: Byte, data: seq<int>)

  /** What the frame layer makes of a received frame. */
  datatype Receive = Receive(ok: bool, address: int, pdu: Pdu)

  /** What a handler does with a request: an exception, and the response it leaves in the frame. */
  type Handle = (nat, Pdu) -> (int, Pdu)

  /** What a poll does to the outside: the handler it calls and the reply it sends. */
  datatype Effect = Effect(call: Option<nat>, reply: Option<Pdu>)

  const NOTHING := Effect(None, None)

  datatype State = State(mode: Mode, slots: seq<Slot>, address: int, queued: Option<Event>,
                         rcvAddress: int, frame: Pdu)

  /** The function code of an error reply has the top bit of its byte set. */
  function ErrorCode(code: Byte): (r: Byte)
    ensures 128 <= r && r % 128 == code % 128
  {
    if code < 128 then code + 128 else code
  }

  /** The answer to a request, and the handler that made it. */
  function Answer(slots: seq<Slot>, frame: Pdu, handle: Handle): (Option<nat>, Pdu) {
    var handler := Find(slots, frame.code);
    var (exception, response) := if handler.Some? then handle(handler.value, frame) else (ILLEGAL_FUNCTION, frame);
    (handler, if exception == NO_EXCEPTION then response
              else Pdu(ErrorCode(frame.code), [exception]))
  }

  /** The poll of an enabled stack, for the event that is in the queue. */
  function Handled(s: State, rx: Receive, handle: Handle): (State, Effect)
    requires s.queued.Some?
  {
    var fetched := s.(queued := None);
    match s.queued.value
    case FrameReceived =>
      if !rx.ok then (fetched, NOTHING)
      else
        var ours := rx.address == s.address || rx.address == BROADCAST;
        (fetched.(rcvAddress := rx.address, frame := rx.pdu, queued := if ours then Some(Execute) else None), NOTHING)
    case Execute =>
      var (handler, answer) := Answer(s.slots, s.frame, handle);
      (fetched, Effect(handler, if s.rcvAddress == BROADCAST then None else Some(answer)))
    case _ => (fetched, NOTHING)
  }

  // ----- Runs -----

  /** What may happen to a slave: the line posts an event, or the application makes a call. */
  datatype Input =
    | Post(event: Event)
    | Poll(rx: Receive, handle: Handle)
    | RegisterCB(code: int, handler: Option<nat>)
    | Enable
    | Disable

  function Step(s: State, input: Input): (State, Effect) {
    match input
    case Post(event) => (s.(queued := Some(event)), NOTHING)
    case Poll(rx, handle) =>
      if s.mode == Enabled && s.queued.Some? then Handled(s, rx, handle) else (s, NOTHING)
    case RegisterCB(code, handler) => (s.(slots := Register(s.slots, code, handler).0), NOTHING)
    case Enable => (if s.mode == Disabled then s.(mode := Enabled) else s, NOTHING)
    case Disable => (if s.mode == Enabled then s.(mode := Disabled) else s, NOTHING)
  }

  function After(s: State, inputs: seq<Input>): State
    decreases |inputs|
  {
    if inputs == [] then s else After(Step(s, inputs[0]).0, inputs[1..])
  }

  /** The line does not ask for a request to be executed; only a poll does. */
  ghost predicate FromLine(input: Input) {
    input.Post? ==> input.event != Execute
  }

  /** A frame that waits to be executed is for this slave, or for all. */
  ghost predicate Inv(s: State) {
    && Sound(s.slots)
    && (s.queued == Some(Execute) ==> s.rcvAddress == s.address || s.rcvAddress == BROADCAST)
  }

  lemma StepKeepsInv(s: State, input: Input)
    requires Inv(s) && FromLine(input)
    ensures Inv(Step(s, input).0) && Step(s, input).0.address == s.address
  {
    if input.RegisterCB? {
      RegisterKeepsSound(s.slots, input.code, input.handler);
    }
  }

  lemma {:induction false} AfterKeepsInv(s: State, inputs: seq<Input>)
    requires Inv(s) && forall i :: 0 <= i < |inputs| ==> FromLine(inputs[i])
    ensures Inv(After(s, inputs)) && After(s, inputs).address == s.address
    decreases |inputs|
  {
    if inputs != [] {
      StepKeepsInv(s, inputs[0]);
      AfterKeepsInv(Step(s, inputs[0]).0, inputs[1..]);
    }
  }

  /**
    In every run, whatever is registered and removed and whenever the line posts: only an
    enabled slave acts, a handler is called only for a frame for this slave or for all and is
    the one in the first slot with the code, and a reply goes out only for a frame for this
    slave alone.
  */
  lemma ActsOnlyForUs(s: State, inputs: seq<Input>, input: Input)
    requires Inv(s) && FromLine(input) && forall i :: 0 <= i < |inputs| ==> FromLine(inputs[i])
    ensures var now := After(s, inputs);
            var effect := Step(now, input).1;
            && (effect != NOTHING ==> now.mode == Enabled && input.Poll?)
            && (effect.call.Some? ==>
                  && (now.rcvAddress == s.address || now.rcvAddress == BROADCAST)
                  && now.frame.code != 0
                  && var i := IndexOf(now.slots, now.frame.code);
                     i < |now.slots| && now.slots[i].handler == effect.call)
            && (effect.reply.Some? ==> now.rcvAddress == s.address)
  {
    AfterKeepsInv(s, inputs);
    FindIs(After(s, inputs).slots, After(s, inputs).frame.code);
  }

  /** A request whose code no slot has is answered with an exception. */
  lemma UnknownFunction(slots: seq<Slot>, frame: Pdu, handle: Handle)
    requires Sound(slots) && !Holds(slots, frame.code)
    ensures Answer(slots, frame, handle) == (None, Pdu(ErrorCode(frame.code), [ILLEGAL_FUNCTION]))
  {
    FindIs(slots, frame.code);
  }

  // ----- And it does act -----

  /** The two polls that a received frame takes, and what each of them does to the outside. */
  function TwoPolls(s: State, rx: Receive, h1: Handle, rx2: Receive, handle: Handle): (Effect, Effect) {
    var s1 := After(s, [Post(FrameReceived)]);
    var s2 := After(s, [Post(FrameReceived), Poll(rx, h1)]);
    (Step(s1, Poll(rx, h1)).1, Step(s2, Poll(rx2, handle)).1)
  }

  lemma TwoSteps(s: State, rx: Receive, h1: Handle, rx2: Receive, handle: Handle)
    ensures var s1 := s.(queued := Some(FrameReceived));
            TwoPolls(s, rx, h1, rx2, handle) ==
            (Step(s1, Poll(rx, h1)).1, Step(Step(s1, Poll(rx, h1)).0, Poll(rx2, handle)).1)
  {
    var post, poll := Input.Post(FrameReceived), Poll(rx, h1);
    assert [post, poll][1..] == [poll] && [poll][1..] == [] && [post][1..] == [];
    assert After(s, [post]) == Step(s, post).0;
    assert After(s, [post, poll]) == After(Step(s, post).0, [poll]) == Step(Step(s, post).0, poll).0;
  }

  /**
    From every state of an enabled slave: a frame is taken in by one poll and carried out by
    the next. A handler is called if and only if the frame is good, for this slave or for all,
    and its code is in a slot before any free one. A reply goes out if and only if the frame is
    good and for this slave alone; it is the response of the handler, or the code with its top
    bit set and the exception.
  */
  lemma RequestIsServed(s: State, rx: Receive, h1: Handle, rx2: Receive, handle: Handle)
    requires s.mode == Enabled && s.address != 0
    ensures var (first, second) := TwoPolls(s, rx, h1, rx2, handle);
            var code := rx.pdu.code;
            && first == NOTHING
            && (second.call.Some? <==>
                  rx.ok && (rx.address == s.address || rx.address == 0) && exists i :: Serves(s.slots, code, i))
            && (second.reply.Some? <==> rx.ok && rx.address == s.address)
            && (second.reply.Some? && second.call.None? ==> second.reply.value == Pdu(code % 128 + 128, [1]))
            && forall i :: Serves(s.slots, code, i) && second.call.Some? ==>
                 && second.call == s.slots[i].handler
                 && var (exception, response) := handle(s.slots[i].handler.value, rx.pdu);
                    second.reply.Some? ==>
                      second.reply.value == if exception == 0 then response else Pdu(code % 128 + 128, [exception])
  {
    TwoSteps(s, rx, h1, rx2, handle);
    FindServes(s.slots, rx.pdu.code);
  }

  /** Whether the last call to switch the stack, if any, was to enable it. */
  function LastSwitch(inputs: seq<Input>, before: bool): bool
    decreases |inputs|
  {
    if inputs == [] then before
    else LastSwitch(inputs[1..], if inputs[0].Enable? then true else if inputs[0].Disable? then false else before)
  }

  /** Over every run a slave that was initialized is enabled exactly if it was switched so last. */
  lemma {:induction false} EnabledIff(s: State, inputs: seq<Input>)
    requires s.mode != NotInitialized
    ensures After(s, inputs).mode == if LastSwitch(inputs, s.mode == Enabled) then Enabled else Disabled
    decreases |inputs|
  {
    if inputs != [] {
      EnabledIff(Step(s, inputs[0]).0, inputs[1..]);
    }
  }

  // ----- The stack itself -----

  class Slave {
    const slots: array<Slot>
    var mode: Mode
    var address: int
    var queued: Option<Event>
    var rcvAddress: int
    var frame: Pdu

    ghost function View(): State
      reads this, slots
    {
      State(mode, slots[..], address, queued, rcvAddress, frame)
    }

    /** The table as it is compiled in: the handlers that are built, and then free slots. */
    constructor (built: seq<Slot>, max: nat)
      requires |built| <= max && Unshared(built)
      requires forall i :: 0 <= i < |built| ==> built[i].handler.Some? && 0 < built[i].code <= 127
      ensures fresh(slots) && slots.Length == max && slots[..|built|] == built
      ensures mode == NotInitialized && queued == None
      ensures Inv(View()) && Packed(slots[..]) && Unshared(slots[..])
    {
      slots := new Slot[max](i requires i >= 0 => if i < |built| then built[i] else EMPTY);
      mode, address, queued, rcvAddress, frame := NotInitialized, 0, None, 0, Pdu(0, []);
    }

    /** eMBInit, given whether the frame layer and the event queue come up. */
    method Init(newAddress: int, frameOk: bool, eventOk: bool) returns (ok: bool)
      requires Inv(View())
      modifies `mode, `address, `queued
      ensures ok <==> 0 < newAddress <= ADDRESS_MAX && frameOk && eventOk
      ensures ok ==> View() == old(View()).(mode := Disabled, address := newAddress, queued := None) && Inv(View())
      ensures !ok ==> mode == old(mode)
    {
      if newAddress == BROADCAST || newAddress < 1 || newAddress > ADDRESS_MAX {
        return false;
      }
      address := newAddress;
      if !frameOk {
        return false;
      }
      queued := None;
      if !eventOk {
        return false;
      }
      mode := Disabled;
      ok := true;
    }

    method RegisterHandler(code: int, handler: Option<nat>) returns (status: Status)
      modifies slots
      ensures (slots[..], status) == Register(old(slots[..]), code, handler)
    {
      if !(0 < code <= 127) {
        return InvalidArgument;
      }
      var i := 0;
      if handler.Some? {
        while i < slots.Length && slots[i].handler != None && slots[i].handler != handler
          invariant i <= slots.Length && slots[..] == old(slots[..])
          invariant forall j :: 0 <= j < i ==> slots[j].handler != None && slots[j].handler != handler
        {
          i := i + 1;
        }
        assert i == Place(slots[..], handler.value);
        if i < slots.Length {
          slots[i] := Slot(code, handler);
        }
        status := if i < slots.Length then NoError else NoResources;
      } else {
        while i < slots.Length && slots[i].code != code
          invariant i <= slots.Length && slots[..] == old(slots[..])
          invariant forall j :: 0 <= j < i ==> slots[j].code != code
        {
          i := i + 1;
        }
        assert i == IndexOf(slots[..], code);
        if i < slots.Length {
          slots[i] := EMPTY;
        }
        status := NoError;
      }
    }

    method EnableStack() returns (status: Status)
      modifies `mode
      ensures View() == Step(old(View()), Enable).0
      ensures status == (if old(mode) == Disabled then NoError else IllegalState)
    {
      if mode != Disabled {
        return IllegalState;
      }
      mode := Enabled;
      status := NoError;
    }

    method DisableStack() returns (status: Status)
      modifies `mode
      ensures View() == Step(old(View()), Disable).0
      ensures status == (if old(mode) == NotInitialized then IllegalState else NoError)
    {
      if mode == NotInitialized {
        return IllegalState;
      }
      mode := Disabled;
      status := NoError;
    }

    /** eMBPoll: one event is fetched and handled. */
    method PollStack(rx: Receive, handle: Handle) returns (status: Status, effect: Effect)
      modifies this
      ensures (View(), effect) == Step(old(View()), Poll(rx, handle))
      ensures status == (if old(mode) == Enabled then NoError else IllegalState)
    {
      effect := NOTHING;
      if mode != Enabled {
        return IllegalState, effect;
      }
      status := NoError;
      if queued == None {
        return;
      }
      var event := queued.value;
      queued := None;
      match event
      case FrameReceived =>
        if rx.ok {
          rcvAddress, frame := rx.address, rx.pdu;
          if rcvAddress == address || rcvAddress == BROADCAST {
            queued := Some(Execute);
          }
        }
      case Execute =>
        var exception, response := ILLEGAL_FUNCTION, frame;
        var handler := FindHandler(slots, frame.code);
        if handler.Some? {
          var r := handle(handler.value, frame);
          exception, response := r.0, r.1;
        }
        effect := effect.(call := handler);
        if rcvAddress != BROADCAST {
          if exception != NO_EXCEPTION {
            response := Pdu(ErrorCode(frame.code), [exception]);
          }
          effect := effect.(reply := Some(response));
        }
      case _ =>
    }
  }
}
