/**
  The Modbus master: a request takes the bus, the line answers it, and polling turns the
  answer into a call of a handler, a result for the waiting request, and the release of the
  bus. Events are flags in one word, so an event that is posted again before it is fetched
  is lost.
*/
module ModbusMaster {
  import opened Basics
  import opened ModbusTable

  const BROADCAST := 0
  const NO_EXCEPTION := 0
  const ILLEGAL_FUNCTION := 1

  datatype Mode = NotInitialized | Disabled | Enabled

  /** The events that a poll handles, in the order in which it looks for them. */
  datatype Kind = Ready | Received | Execute | Sent | Failed

  /** What a request comes to. */
  datatype Outcome = Success | RespondTimeout | ReceiveData | ExecuteFunction

  type Byte = x: int | 0 <= x < 256

  /** A frame: its function code and the byte after it. */
  datatype Frame = Frame(code: Byte, first: Byte)

  /** What the frame layer makes of a received frame. */
  datatype Receive = Receive(ok: bool, address: int, frame: Frame)

  /** The exception of a handler, for a slave and for whether master mode is set. */
  type Handle = (nat, int, bool) -> int

  /** A handler that is called, and the address that it finds. */
  datatype Invocation = Invocation(handler: nat, slave: int)

  /** Where a queued event comes from: which arrival, how often handled since, and what went wrong. */
  datatype Token = Token(id: int, handled: nat, cause: Outcome)

  /** An arrival that is done with: what went wrong with it, and what the request was told. */
  datatype Release = Release(id: int, handled: nat, cause: Outcome, told: Outcome)

  /**
    The static state of the master and its port, and after it the history: the arrivals so
    far, those done with and those lost, the requests that took the bus, and how many of
    those were sent and not yet answered.
  */
  datatype State = State(
    mode: Mode, queued: map<Kind, Token>, errorType: Outcome,
    dest: int, frame: Frame, request: Frame, broadcast: bool, masterMode: bool,
    bus: nat, waiters: nat, results: set<Outcome>,
    arrivals: nat, released: seq<Release>, lost: seq<int>, takes: nat, awaited: nat)

  /** The rest of the stack: the handlers that are built in, and the number of slaves. */
  datatype Setup = Setup(slots: seq<Slot>, slaves: nat)

  // ----- Events -----

  predicate InFlight(k: Kind) {
    k == Received || k == Execute || k == Failed
  }

  const NO_TOKEN := Token(-1, 0, Success)

  function Post(s: State, k: Kind, t: Token): State {
    if k !in s.queued then s.(queued := s.queued[k := t])
    else if InFlight(k) then s.(lost := s.lost + [t.id])
    else s
  }

  /** The order in which events are looked for. */
  function Rank(k: Kind): nat {
    match k case Ready => 0 case Received => 1 case Execute => 2 case Sent => 3 case Failed => 4
  }

  function Fetch(queued: set<Kind>): (k: Option<Kind>)
    ensures k.Some? ==> k.value in queued
  {
    if Ready in queued then Some(Ready)
    else if Received in queued then Some(Received)
    else if Execute in queued then Some(Execute)
    else if Sent in queued then Some(Sent)
    else if Failed in queued then Some(Failed)
    else None
  }

  /** The event of the lowest rank is fetched. */
  lemma FetchFirst(queued: set<Kind>, j: Kind)
    requires j in queued
    ensures Fetch(queued).Some? && Fetch(queued).value in queued && Rank(Fetch(queued).value) <= Rank(j)
  {
    match j
    case Ready =>
    case Received =>
    case Execute =>
    case Sent =>
    case Failed =>
  }

  /** What the line can report: a frame, a damaged frame, a timeout, or the end of a broadcast. */
  datatype Arrival = GoodFrame | DamagedFrame | Timeout | BroadcastDone

  function Arrive(s: State, arrival: Arrival): State {
    var t := Token(s.arrivals, 0, Success);
    var s1 := s.(arrivals := s.arrivals + 1, awaited := if s.awaited > 0 then s.awaited - 1 else 0);
    match arrival
    case GoodFrame => Post(s1, Received, t)
    case DamagedFrame => Post(s1.(errorType := ReceiveData), Failed, t.(cause := ReceiveData))
    case Timeout => Post(s1.(errorType := RespondTimeout), Failed, t.(cause := RespondTimeout))
    case BroadcastDone => Post(s1, Execute, t)
  }

  // ----- Polling -----

  /** Carrying out a response: the exception, the handler calls and the last address used. */
  function Executed(setup: Setup, s: State, handle: Handle): (int, seq<Invocation>, int) {
    if s.frame.code >= 128 then (s.frame.first, [], s.dest)
    else
      match Find(setup.slots, s.frame.code)
      case None => (ILLEGAL_FUNCTION, [], s.dest)
      case Some(h) =>
        if !s.broadcast then (handle(h, s.dest, true), [Invocation(h, s.dest)], s.dest)
        else if setup.slaves == 0 then (ILLEGAL_FUNCTION, [], s.dest)
        else (handle(h, setup.slaves, true), ToAll(h, setup.slaves), setup.slaves)
  }

  /** One call for each of the slaves, which have the addresses from 1 on. */
  function ToAll(handler: nat, slaves: nat): (calls: seq<Invocation>) {
    seq(slaves, j requires 0 <= j < slaves => Invocation(handler, j + 1))
  }

  /** The request is told what it came to, and the bus is free again. */
  function Finish(s: State, t: Token, told: Outcome): State {
    s.(bus := s.bus + 1, waiters := s.waiters + 1, results := s.results + {told},
       released := s.released + [Release(t.id, t.handled + 1, t.cause, told)])
  }

  function Fail(s: State, t: Token, cause: Outcome): State {
    Post(s.(errorType := cause), Failed, t.(handled := t.handled + 1, cause := cause))
  }

  /** Handling an event that was taken out of the queue. */
  function Handled(setup: Setup, s: State, k: Kind, t: Token, rx: Receive, handle: Handle): (State, seq<Invocation>) {
    match k
    case Ready => (s, [])
    case Received =>
      var s1 := if rx.ok then s.(frame := rx.frame) else s;
      (if rx.ok && rx.address == s.dest then Post(s1, Execute, t.(handled := t.handled + 1))
       else Fail(s1, t, ReceiveData), [])
    case Execute =>
      var (exception, calls, dest) := Executed(setup, s, handle);
      var s1 := s.(dest := dest);
      (if exception != NO_EXCEPTION then Fail(s1, t, ExecuteFunction)
       else Finish(s1, t.(cause := Success), Success), calls)
    case Sent =>
      (s.(frame := s.request, broadcast := s.dest == BROADCAST, awaited := s.awaited + 1), [])
    case Failed =>
      (Finish(s.(frame := s.request), t, s.errorType), [])
  }

  function Polled(setup: Setup, s: State, rx: Receive, handle: Handle): (State, seq<Invocation>) {
    var k := Fetch(s.queued.Keys);
    if s.mode != Enabled || k.None? then (s, [])
    else Handled(setup, s.(queued := s.queued - {k.value}), k.value, s.queued[k.value], rx, handle)
  }

  // ----- Requests -----

  /** A request takes the bus and asks for its frame to be sent. */
  function Requested(s: State, address: int, request: Frame): State {
    if s.bus == 0 then s
    else Post(s.(bus := s.bus - 1, takes := s.takes + 1, dest := address, request := request), Sent, NO_TOKEN)
  }

  /** What a waiting request is told, when several results are flagged. */
  function Told(results: set<Outcome>): Outcome {
    if Success in results then Success
    else if RespondTimeout in results then RespondTimeout
    else if ReceiveData in results then ReceiveData
    else if ExecuteFunction in results then ExecuteFunction
    else Success
  }

  function ToldRank(o: Outcome): nat {
    match o case Success => 0 case RespondTimeout => 1 case ReceiveData => 2 case ExecuteFunction => 3
  }

  /** Of several results the one of the lowest rank is told. */
  lemma ToldFirst(results: set<Outcome>, o: Outcome)
    requires o in results
    ensures Told(results) in results && ToldRank(Told(results)) <= ToldRank(o)
  {
    match o
    case Success =>
    case RespondTimeout =>
    case ReceiveData =>
    case ExecuteFunction =>
  }

  function Collected(s: State): State {
    if s.waiters == 0 then s else s.(waiters := s.waiters - 1, results := {})
  }

  // ----- Runs -----

  datatype Input =
    | Poll(rx: Receive, handle: Handle)
    | Line(arrival: Arrival)
    | Startup
    | Request(address: int, request: Frame)
    | Collect
    | Enable
    | Disable

  function Step(setup: Setup, s: State, input: Input): State {
    match input
    case Poll(rx, handle) => Polled(setup, s, rx, handle).0
    case Line(arrival) => Arrive(s, arrival)
    case Startup => Post(s, Ready, NO_TOKEN)
    case Request(address, request) => Requested(s, address, request)
    case Collect => Collected(s)
    case Enable => if s.mode == Disabled then s.(mode := Enabled) else s
    case Disable => if s.mode == Enabled then s.(mode := Disabled) else s
  }

  function After(setup: Setup, s: State, inputs: seq<Input>): State
    decreases |inputs|
  {
    if inputs == [] then s else After(setup, Step(setup, s, inputs[0]), inputs[1..])
  }

  ghost predicate Initial(s: State) {
    && s.queued == map[] && s.bus == 1 && s.waiters == 0 && s.results == {} && !s.masterMode
    && s.arrivals == 0 && s.released == [] && s.lost == [] && s.takes == 0 && s.awaited == 0
  }

  // ----- Nothing appears or disappears -----

  /** The weight of a queued arrival; a weight of one for all counts them, of one for one finds it. */
  function Queued(s: State, k: Kind, w: int -> int): int {
    if k in s.queued then w(s.queued[k].id) else 0
  }

  function Pending(s: State, w: int -> int): int {
    Queued(s, Received, w) + Queued(s, Execute, w) + Queued(s, Failed, w)
  }

  function Done(released: seq<Release>, w: int -> int): int {
    if released == [] then 0
    else Done(released[..|released| - 1], w) + w(released[|released| - 1].id)
  }

  function Sum(ids: seq<int>, w: int -> int): int {
    if ids == [] then 0
    else Sum(ids[..|ids| - 1], w) + w(ids[|ids| - 1])
  }

  /** The arrivals that a state accounts for: in the queue, done with, or lost. */
  function Known(s: State, w: int -> int): int {
    Pending(s, w) + Done(s.released, w) + Sum(s.lost, w)
  }

  lemma PostAccounts(s: State, k: Kind, t: Token, w: int -> int)
    ensures Known(Post(s, k, t), w) == Known(s, w) + if InFlight(k) then w(t.id) else 0
  {
    assert (s.lost + [t.id])[..|s.lost|] == s.lost;
  }

  lemma FinishAccounts(s: State, t: Token, told: Outcome, w: int -> int)
    ensures Known(Finish(s, t, told), w) == Known(s, w) + w(t.id)
  {
    assert Finish(s, t, told).released[..|s.released|] == s.released;
  }

  lemma FailAccounts(s: State, t: Token, cause: Outcome, w: int -> int)
    ensures Known(Fail(s, t, cause), w) == Known(s, w) + w(t.id)
  {
    hide Known, Post;
    SameAccounts(s, s.(errorType := cause), w);
    PostAccounts(s.(errorType := cause), Failed, t.(handled := t.handled + 1, cause := cause), w);
  }

  lemma FetchAccounts(s: State, k: Kind, w: int -> int)
    requires k in s.queued
    ensures Known(s, w) == Known(s.(queued := s.queued - {k}), w) + if InFlight(k) then w(s.queued[k].id) else 0
  {
  }

  lemma SameAccounts(s: State, s1: State, w: int -> int)
    requires s1.queued == s.queued && s1.released == s.released && s1.lost == s.lost
    ensures Known(s1, w) == Known(s, w)
  {
  }

  /** Handling an event puts what was taken out of the queue somewhere. */
  lemma HandledAccounts(setup: Setup, s: State, k: Kind, t: Token, rx: Receive, handle: Handle, w: int -> int)
    ensures Known(Handled(setup, s, k, t, rx, handle).0, w) == Known(s, w) + if InFlight(k) then w(t.id) else 0
  {
    hide Known, Post, Finish, Fail, Executed;
    match k
    case Ready =>
    case Received =>
      var s1 := if rx.ok then s.(frame := rx.frame) else s;
      SameAccounts(s, s1, w);
      PostAccounts(s1, Execute, t.(handled := t.handled + 1), w);
      FailAccounts(s1, t, ReceiveData, w);
    case Execute =>
      var s1 := s.(dest := Executed(setup, s, handle).2);
      SameAccounts(s, s1, w);
      FailAccounts(s1, t, ExecuteFunction, w);
      FinishAccounts(s1, t.(cause := Success), Success, w);
    case Sent =>
      SameAccounts(s, Handled(setup, s, k, t, rx, handle).0, w);
    case Failed =>
      SameAccounts(s, s.(frame := s.request), w);
      FinishAccounts(s.(frame := s.request), t, s.errorType, w);
  }

  /** Every step adds the arrivals it brings, and keeps all others. */
  lemma StepAccounts(setup: Setup, s: State, input: Input, w: int -> int)
    ensures Known(Step(setup, s, input), w) == Known(s, w) + if input.Line? then w(s.arrivals) else 0
  {
    hide Known, Post, Handled, Fetch;
    match input
    case Poll(rx, handle) =>
      var k := Fetch(s.queued.Keys);
      if s.mode == Enabled && k.Some? {
        FetchAccounts(s, k.value, w);
        HandledAccounts(setup, s.(queued := s.queued - {k.value}), k.value, s.queued[k.value], rx, handle, w);
      }
    case Line(arrival) =>
      var s1 := s.(arrivals := s.arrivals + 1, awaited := if s.awaited > 0 then s.awaited - 1 else 0);
      var t := Token(s.arrivals, 0, Success);
      SameAccounts(s, s1, w);
      SameAccounts(s, s1.(errorType := ReceiveData), w);
      SameAccounts(s, s1.(errorType := RespondTimeout), w);
      match arrival {
        case GoodFrame => PostAccounts(s1, Received, t, w);
        case BroadcastDone => PostAccounts(s1, Execute, t, w);
        case DamagedFrame => PostAccounts(s1.(errorType := ReceiveData), Failed, t.(cause := ReceiveData), w);
        case Timeout => PostAccounts(s1.(errorType := RespondTimeout), Failed, t.(cause := RespondTimeout), w);
      }
    case Startup => PostAccounts(s, Ready, NO_TOKEN, w);
    case Request(address, request) =>
      if s.bus > 0 {
        var s1 := s.(bus := s.bus - 1, takes := s.takes + 1, dest := address, request := request);
        SameAccounts(s, s1, w);
        PostAccounts(s1, Sent, NO_TOKEN, w);
      }
    case Collect => SameAccounts(s, Step(setup, s, input), w);
    case Enable => SameAccounts(s, Step(setup, s, input), w);
    case Disable => SameAccounts(s, Step(setup, s, input), w);
  }

  function UpTo(n: nat, w: int -> int): int {
    if n == 0 then 0 else UpTo(n - 1, w) + w(n - 1)
  }

  lemma HandledArrivals(setup: Setup, s: State, k: Kind, t: Token, rx: Receive, handle: Handle)
    ensures Handled(setup, s, k, t, rx, handle).0.arrivals == s.arrivals
  {
    hide Executed;
  }

  lemma StepArrivals(setup: Setup, s: State, input: Input)
    ensures Step(setup, s, input).arrivals == s.arrivals + if input.Line? then 1 else 0
  {
    hide Handled;
    if input.Poll? {
      var k := Fetch(s.queued.Keys);
      if k.Some? {
        HandledArrivals(setup, s.(queued := s.queued - {k.value}), k.value, s.queued[k.value], input.rx, input.handle);
      }
    }
  }

  /** In every run, what is in the queue, done with and lost is what arrived. */
  lemma {:induction false} RunAccounts(setup: Setup, s: State, inputs: seq<Input>, w: int -> int)
    requires Known(s, w) == UpTo(s.arrivals, w)
    ensures var now := After(setup, s, inputs); Known(now, w) == UpTo(now.arrivals, w)
    decreases |inputs|
  {
    hide Step, Known;
    if inputs != [] {
      StepAccounts(setup, s, inputs[0], w);
      StepArrivals(setup, s, inputs[0]);
      RunAccounts(setup, Step(setup, s, inputs[0]), inputs[1..], w);
    }
  }

  // ----- How far an event comes, and the bus -----

  /** How often an event of a kind can have been handled. */
  function Stage(k: Kind): nat {
    match k
    case Received => 0
    case Execute => 1
    case _ => 2
  }

  ghost predicate Staged(queued: map<Kind, Token>) {
    forall k :: k in queued ==> queued[k].handled <= Stage(k)
  }

  ghost predicate InThree(released: seq<Release>) {
    forall i :: 0 <= i < |released| ==> released[i].handled <= 3
  }

  ghost predicate Inv(s: State) {
    && Staged(s.queued) && InThree(s.released)
    && s.bus + s.takes == 1 + |s.released|
    && !s.masterMode
  }

  lemma PostKeepsInv(s: State, k: Kind, t: Token)
    requires Inv(s) && t.handled <= Stage(k)
    ensures Inv(Post(s, k, t))
  {
  }

  lemma FailKeepsInv(s: State, t: Token, cause: Outcome)
    requires Inv(s) && t.handled <= 1
    ensures Inv(Fail(s, t, cause))
  {
    hide Post;
    PostKeepsInv(s.(errorType := cause), Failed, t.(handled := t.handled + 1, cause := cause));
  }

  lemma FinishKeepsInv(s: State, t: Token, told: Outcome)
    requires Inv(s) && t.handled <= 2
    ensures Inv(Finish(s, t, told))
  {
  }

  lemma HandledKeepsInv(setup: Setup, s: State, k: Kind, t: Token, rx: Receive, handle: Handle)
    requires Inv(s) && t.handled <= Stage(k)
    ensures Inv(Handled(setup, s, k, t, rx, handle).0)
  {
    hide Executed, Post, Finish, Fail;
    var s1 := if k == Received && rx.ok then s.(frame := rx.frame)
              else if k == Execute then s.(dest := Executed(setup, s, handle).2)
              else s;
    if k == Received {
      PostKeepsInv(s1, Execute, t.(handled := t.handled + 1));
      FailKeepsInv(s1, t, ReceiveData);
    } else if k == Execute {
      FailKeepsInv(s1, t, ExecuteFunction);
      FinishKeepsInv(s1, t.(cause := Success), Success);
    } else if k == Failed {
      FinishKeepsInv(s.(frame := s.request), t, s.errorType);
    }
  }

  lemma ArriveKeepsInv(s: State, arrival: Arrival)
    requires Inv(s)
    ensures Inv(Arrive(s, arrival))
  {
    hide Post;
    var t := Token(s.arrivals, 0, Success);
    var s1 := s.(arrivals := s.arrivals + 1, awaited := if s.awaited > 0 then s.awaited - 1 else 0);
    match arrival
    case GoodFrame => PostKeepsInv(s1, Received, t);
    case DamagedFrame => PostKeepsInv(s1.(errorType := ReceiveData), Failed, t.(cause := ReceiveData));
    case Timeout => PostKeepsInv(s1.(errorType := RespondTimeout), Failed, t.(cause := RespondTimeout));
    case BroadcastDone => PostKeepsInv(s1, Execute, t);
  }

  lemma StepKeepsInv(setup: Setup, s: State, input: Input)
    requires Inv(s)
    ensures Inv(Step(setup, s, input))
  {
    hide Handled, Post, Fetch;
    match input
    case Poll(rx, handle) =>
      var k := Fetch(s.queued.Keys);
      if k.Some? {
        HandledKeepsInv(setup, s.(queued := s.queued - {k.value}), k.value, s.queued[k.value], rx, handle);
      }
    case Line(arrival) => ArriveKeepsInv(s, arrival);
    case Startup => PostKeepsInv(s, Ready, NO_TOKEN);
    case Request(address, request) =>
      if s.bus > 0 {
        PostKeepsInv(s.(bus := s.bus - 1, takes := s.takes + 1, dest := address, request := request), Sent, NO_TOKEN);
      }
    case _ =>
  }

  lemma {:induction false} RunKeepsInv(setup: Setup, s: State, inputs: seq<Input>)
    requires Inv(s)
    ensures Inv(After(setup, s, inputs))
    decreases |inputs|
  {
    hide Step;
    if inputs != [] {
      StepKeepsInv(setup, s, inputs[0]);
      RunKeepsInv(setup, Step(setup, s, inputs[0]), inputs[1..]);
    }
  }

  const ONE: int -> int := _ => 1

  lemma {:induction false} CountsAll(released: seq<Release>, lost: seq<int>, n: nat)
    ensures Done(released, ONE) == |released| && Sum(lost, ONE) == |lost| && UpTo(n, ONE) == n
    decreases |released| + |lost| + n
  {
    if released != [] {
      CountsAll(released[..|released| - 1], lost, n);
    } else if lost != [] {
      CountsAll(released, lost[..|lost| - 1], n);
    } else if n > 0 {
      CountsAll(released, lost, n - 1);
    }
  }

  function Only(x: int): int -> int {
    y => if x == y then 1 else 0
  }

  lemma {:induction false} CountsOne(n: nat, x: int)
    ensures UpTo(n, Only(x)) == if 0 <= x < n then 1 else 0
  {
    if n > 0 {
      CountsOne(n - 1, x);
    }
  }

  /**
    Conservation over every run, orderly or not: each arrival is once in the queue, done with
    or lost; it is done with after three handled events at the latest; the bus has been given
    back as often as arrivals were done with; and master mode is off between polls.
  */
  lemma Conservation(setup: Setup, s: State, inputs: seq<Input>)
    requires Initial(s)
    ensures var now := After(setup, s, inputs);
            && now.arrivals == Pending(now, ONE) + |now.released| + |now.lost|
            && (forall x :: 0 <= x < now.arrivals ==> Known(now, Only(x)) == 1)
            && (forall i :: 0 <= i < |now.released| ==> now.released[i].handled <= 3)
            && now.bus + now.takes == 1 + |now.released|
            && !now.masterMode
  {
    var now := After(setup, s, inputs);
    RunKeepsInv(setup, s, inputs);
    RunAccounts(setup, s, inputs, ONE);
    CountsAll(now.released, now.lost, now.arrivals);
    forall x | 0 <= x < now.arrivals ensures Known(now, Only(x)) == 1 {
      RunAccounts(setup, s, inputs, Only(x));
      CountsOne(now.arrivals, x);
    }
  }

  /**
    The bus is free at most once, in every run, exactly if no more arrivals have been done
    with than requests were made.
  */
  lemma BusFreeOnce(setup: Setup, s: State, inputs: seq<Input>)
    requires Initial(s)
    ensures var now := After(setup, s, inputs);
            && now.bus == 1 + now.arrivals - Pending(now, ONE) - |now.lost| - now.takes
            && (now.bus <= 1 <==> now.arrivals - Pending(now, ONE) - |now.lost| <= now.takes)
  {
    Conservation(setup, s, inputs);
  }

  /** A frame that no request waits for, damaged or from any slave, makes the bus free twice. */
  lemma StrayArrival(setup: Setup, s: State, rx: Receive, handle: Handle)
    requires Initial(s) && s.mode == Enabled && (!rx.ok || rx.address != s.dest)
    ensures After(setup, s, [Line(GoodFrame), Poll(rx, handle), Poll(rx, handle)]).bus == 2
  {
    hide Polled, Arrive;
    var s1 := Arrive(s, GoodFrame);
    var poll := Poll(rx, handle);
    var inputs := [Line(GoodFrame), poll, poll];
    assert inputs[1..] == [poll, poll];
    assert After(setup, s, inputs) == After(setup, s1, inputs[1..]);
    AfterPolls(setup, s1, rx, handle);
    FrameArrives(s);
    var s2 := Polled(setup, s1, rx, handle).0;
    var t := Token(s.arrivals, 0, Success);
    PollOnly(setup, s1, Received, t, rx, handle);
    PollOnly(setup, s2, Failed, t.(handled := 1, cause := ReceiveData), rx, handle);
  }

  lemma FrameArrives(s: State)
    requires s.queued == map[]
    ensures var s1 := Arrive(s, GoodFrame);
            && s1.queued == map[Received := Token(s.arrivals, 0, Success)]
            && s1.mode == s.mode && s1.dest == s.dest && s1.bus == s.bus
  {
  }

  // ----- Orderly runs -----

  /** The line answers only what was sent, and the next request waits for the last result. */
  predicate Orderly(s: State, input: Input) {
    match input
    case Line(_) => s.awaited > 0
    case Request(_, _) => s.waiters == 0
    case _ => true
  }

  predicate OrderlyRun(setup: Setup, s: State, inputs: seq<Input>)
    decreases |inputs|
  {
    inputs == [] || (Orderly(s, inputs[0]) && OrderlyRun(setup, Step(setup, s, inputs[0]), inputs[1..]))
  }

  /** The bus is free, or one request is being sent, waited for, or handled. */
  function Holders(s: State): int {
    s.bus + s.awaited + (if Sent in s.queued then 1 else 0)
    + (if Received in s.queued then 1 else 0)
    + (if Execute in s.queued then 1 else 0)
    + (if Failed in s.queued then 1 else 0)
  }

  ghost predicate ToldTrue(released: seq<Release>) {
    forall i :: 0 <= i < |released| ==> released[i].told == released[i].cause
  }

  ghost predicate Calm(s: State) {
    && Holders(s) == 1
    && s.lost == []
    && (Failed in s.queued ==> s.errorType == s.queued[Failed].cause)
    && ToldTrue(s.released)
    && s.waiters <= s.bus
    && (s.waiters == 0 ==> s.results == {})
    && (s.waiters > 0 ==> s.released != [] && s.results == {s.released[|s.released| - 1].told})
  }

  /** A request in front of its last step: the bus is not free, and nothing else is on its way. */
  ghost predicate Alone(s: State) {
    && Holders(s) == 0 && s.lost == [] && ToldTrue(s.released) && s.waiters == 0 && s.results == {}
  }

  lemma FetchLeavesAlone(s: State, k: Kind)
    requires Calm(s) && k in s.queued && k != Ready
    ensures Alone(s.(queued := s.queued - {k}))
  {
  }

  lemma PostKeepsCalm(s: State, k: Kind, t: Token)
    requires Alone(s) && InFlight(k) && (k == Failed ==> s.errorType == t.cause)
    ensures Calm(Post(s, k, t))
  {
  }

  lemma FinishKeepsCalm(s: State, t: Token, told: Outcome)
    requires Alone(s) && told == t.cause
    ensures Calm(Finish(s, t, told))
  {
  }

  lemma HandledKeepsCalm(setup: Setup, s: State, k: Kind, rx: Receive, handle: Handle)
    requires Calm(s) && k in s.queued
    ensures Calm(Handled(setup, s.(queued := s.queued - {k}), k, s.queued[k], rx, handle).0)
  {
    hide Executed, Post, Finish;
    var t := s.queued[k];
    var s1 := s.(queued := s.queued - {k});
    if k != Ready {
      FetchLeavesAlone(s, k);
    }
    match k
    case Ready =>
    case Received =>
      var s2 := if rx.ok then s1.(frame := rx.frame) else s1;
      PostKeepsCalm(s2, Execute, t.(handled := t.handled + 1));
      PostKeepsCalm(s2.(errorType := ReceiveData), Failed, t.(handled := t.handled + 1, cause := ReceiveData));
    case Execute =>
      var s2 := s1.(dest := Executed(setup, s1, handle).2);
      PostKeepsCalm(s2.(errorType := ExecuteFunction), Failed, t.(handled := t.handled + 1, cause := ExecuteFunction));
      FinishKeepsCalm(s2, t.(cause := Success), Success);
    case Sent =>
    case Failed =>
      FinishKeepsCalm(s1.(frame := s.request), t, s.errorType);
  }

  lemma StepKeepsCalm(setup: Setup, s: State, input: Input)
    requires Calm(s) && Orderly(s, input)
    ensures Calm(Step(setup, s, input))
  {
    hide Handled;
    if input.Poll? {
      var k := Fetch(s.queued.Keys);
      if k.Some? {
        HandledKeepsCalm(setup, s, k.value, input.rx, input.handle);
      }
    }
  }

  lemma {:induction false} RunKeepsCalm(setup: Setup, s: State, inputs: seq<Input>)
    requires Calm(s) && OrderlyRun(setup, s, inputs)
    ensures Calm(After(setup, s, inputs))
    decreases |inputs|
  {
    hide Step;
    if inputs != [] {
      StepKeepsCalm(setup, s, inputs[0]);
      RunKeepsCalm(setup, Step(setup, s, inputs[0]), inputs[1..]);
    }
  }

  /**
    Over every orderly run: no event is lost although events are mere flags, at most one
    request has the bus, and a request that collects its result is told what came of it.
  */
  lemma RequestsAnswered(setup: Setup, s: State, inputs: seq<Input>)
    requires Initial(s) && OrderlyRun(setup, s, inputs)
    ensures var now := After(setup, s, inputs);
            && now.lost == [] && now.arrivals == Pending(now, ONE) + |now.released|
            && now.bus <= 1 && now.takes - |now.released| == 1 - now.bus
            && (now.waiters > 0 ==> |now.released| == now.takes > 0
                                    && Told(now.results) == now.released[now.takes - 1].cause)
  {
    RunKeepsCalm(setup, s, inputs);
    Conservation(setup, s, inputs);
  }

  // ----- What becomes of a request -----

  /**
    What carrying out a response is: an exception reply fails unless its exception is zero, a
    code that no slot serves fails, and otherwise the handler is called, for the slave that was
    asked or for all slaves in order, and its last result decides.
  */
  ghost predicate CarriedOut(setup: Setup, frame: Frame, dest: int, broadcast: bool, handle: Handle,
                             calls: seq<Invocation>, success: bool)
  {
    if frame.code >= 128 then calls == [] && success == (frame.first == 0)
    else if !(exists i :: Serves(setup.slots, frame.code, i)) then calls == [] && !success
    else
      forall i :: Serves(setup.slots, frame.code, i) ==>
        var h := setup.slots[i].handler.value;
        if broadcast then
          && |calls| == setup.slaves && (forall j :: 0 <= j < |calls| ==> calls[j] == Invocation(h, j + 1))
          && success == (setup.slaves > 0 && handle(h, setup.slaves, true) == 0)
        else calls == [Invocation(h, dest)] && success == (handle(h, dest, true) == 0)
  }

  lemma ExecutedIs(setup: Setup, s: State, handle: Handle)
    ensures var (exception, calls, dest) := Executed(setup, s, handle);
            && CarriedOut(setup, s.frame, s.dest, s.broadcast, handle, calls, exception == 0)
            && (!s.broadcast ==> dest == s.dest)
  {
    FindServes(setup.slots, s.frame.code);
  }

  /** The request is told what it came to, and the bus is free. */
  ghost predicate Answered(s: State, outcome: Outcome) {
    s.bus == 1 && s.waiters == 1 && s.results == {outcome} && s.queued == map[]
  }

  /** A response that is to be carried out, and nothing else to be done. */
  lemma ExecuteGetsVerdict(setup: Setup, s: State, t: Token, rx: Receive, handle: Handle)
    requires Calm(s) && s.mode == Enabled && s.queued == map[Execute := t]
    ensures var (one, calls) := Polled(setup, s, rx, handle);
            var two := Polled(setup, one, rx, handle).0;
            var success := Answered(one, Success);
            && CarriedOut(setup, s.frame, s.dest, s.broadcast, handle, calls, success)
            && (success ==> one.released == s.released + [Release(t.id, t.handled + 1, Success, Success)])
            && (!success ==> Answered(two, ExecuteFunction)
                             && two.released == s.released + [Release(t.id, t.handled + 2, ExecuteFunction, ExecuteFunction)])
  {
    hide Executed, Polled, CarriedOut;
    ExecutedIs(setup, s, handle);
    PollOnly(setup, s, Execute, t, rx, handle);
    ExecutedFrom(setup, s, handle);
    var one := Polled(setup, s, rx, handle).0;
    if Executed(setup, s, handle).0 != NO_EXCEPTION {
      PollOnly(setup, one, Failed, t.(handled := t.handled + 1, cause := ExecuteFunction), rx, handle);
    }
  }

  lemma ExecutedFrom(setup: Setup, s: State, handle: Handle)
    ensures Executed(setup, s.(queued := map[]), handle) == Executed(setup, s, handle)
  {
  }

  /**
    A frame that arrived is looked at by one poll and carried out by the next: the request is
    told whether it was damaged or from another slave, or what carrying it out came to.
  */
  lemma FrameGetsVerdict(setup: Setup, s: State, t: Token, rx: Receive, handle: Handle)
    requires Calm(s) && s.mode == Enabled && s.queued == map[Received := t]
    ensures var (one, none) := Polled(setup, s, rx, handle);
            var (two, calls) := Polled(setup, one, rx, handle);
            var three := Polled(setup, two, rx, handle).0;
            var success := Answered(two, Success);
            && none == []
            && (if !rx.ok || rx.address != s.dest then
                  && calls == [] && Answered(two, ReceiveData)
                  && two.released == s.released + [Release(t.id, t.handled + 2, ReceiveData, ReceiveData)]
                else
                  && CarriedOut(setup, rx.frame, s.dest, s.broadcast, handle, calls, success)
                  && (success ==> two.released == s.released + [Release(t.id, t.handled + 2, Success, Success)])
                  && (!success ==> Answered(three, ExecuteFunction)
                                   && three.released == s.released
                                      + [Release(t.id, t.handled + 3, ExecuteFunction, ExecuteFunction)]))
  {
    hide Executed, Polled, CarriedOut;
    PollOnly(setup, s, Received, t, rx, handle);
    StepKeepsCalm(setup, s, Poll(rx, handle));
    var one := Polled(setup, s, rx, handle).0;
    if rx.ok && rx.address == s.dest {
      ExecuteGetsVerdict(setup, one, t.(handled := t.handled + 1), rx, handle);
    } else {
      PollOnly(setup, one, Failed, t.(handled := t.handled + 1, cause := ReceiveData), rx, handle);
    }
  }

  /** A timeout or damage on the line is told after one poll. */
  lemma ErrorGetsVerdict(setup: Setup, s: State, t: Token, rx: Receive, handle: Handle)
    requires Calm(s) && s.mode == Enabled && s.queued == map[Failed := t]
    ensures var (one, calls) := Polled(setup, s, rx, handle); calls == [] && Answered(one, t.cause)
  {
    hide Polled;
    PollOnly(setup, s, Failed, t, rx, handle);
  }

  /** No request, no event, and the last result collected. */
  ghost predicate Idle(s: State) {
    Calm(s) && s.mode == Enabled && s.queued == map[] && s.bus == 1 && s.waiters == 0
  }

  /** A request takes the bus, and one poll sends its frame. */
  lemma RequestIsSent(setup: Setup, s: State, address: int, request: Frame, rx: Receive, handle: Handle)
    requires Idle(s)
    ensures var now := After(setup, s, [Request(address, request), Poll(rx, handle)]);
            && Calm(now)
            && now == s.(bus := 0, takes := s.takes + 1, dest := address, request := request, frame := request,
                         broadcast := address == 0, awaited := 1)
  {
    hide Polled;
    var ask, poll := Request(address, request), Poll(rx, handle);
    assert [ask, poll][1..] == [poll] && [poll][1..] == [];
    var s1 := Requested(s, address, request);
    assert After(setup, s, [ask, poll]) == After(setup, s1, [poll]) == Polled(setup, s1, rx, handle).0;
    PollOnly(setup, s1, Sent, NO_TOKEN, rx, handle);
    StepKeepsCalm(setup, s, ask);
    StepKeepsCalm(setup, s1, poll);
  }

  /**
    The whole way of a request, from an idle master: it is sent, the line reports, and after at
    most three polls the request is told what came of it and the bus is free again.
  */
  lemma RequestGetsVerdict(setup: Setup, s: State, address: int, request: Frame, sent: Receive, arrival: Arrival,
                           rx: Receive, handle: Handle)
    requires Idle(s)
    ensures var s1 := After(setup, s, [Request(address, request), Poll(sent, handle)]);
            var s2 := Step(setup, s1, Line(arrival));
            var (one, calls1) := Polled(setup, s2, rx, handle);
            var (two, calls2) := Polled(setup, one, rx, handle);
            var three := Polled(setup, two, rx, handle).0;
            match arrival
            case Timeout => Answered(one, RespondTimeout)
            case DamagedFrame => Answered(one, ReceiveData)
            case BroadcastDone =>
              && CarriedOut(setup, request, address, address == 0, handle, calls1, Answered(one, Success))
              && (!Answered(one, Success) ==> Answered(two, ExecuteFunction))
            case GoodFrame =>
              if !rx.ok || rx.address != address then Answered(two, ReceiveData)
              else
                && CarriedOut(setup, rx.frame, address, address == 0, handle, calls2, Answered(two, Success))
                && (!Answered(two, Success) ==> Answered(three, ExecuteFunction))
  {
    hide Polled, CarriedOut, Answered, Calm, Executed;
    RequestIsSent(setup, s, address, request, sent, handle);
    var s1 := After(setup, s, [Request(address, request), Poll(sent, handle)]);
    var s2 := Step(setup, s1, Line(arrival));
    StepKeepsCalm(setup, s1, Line(arrival));
    var t := Token(s1.arrivals, 0, Success);
    match arrival
    case Timeout => ErrorGetsVerdict(setup, s2, t.(cause := RespondTimeout), rx, handle);
    case DamagedFrame => ErrorGetsVerdict(setup, s2, t.(cause := ReceiveData), rx, handle);
    case BroadcastDone => ExecuteGetsVerdict(setup, s2, t, rx, handle);
    case GoodFrame => FrameGetsVerdict(setup, s2, t, rx, handle);
  }

  /** Collecting the result tells it, and leaves the master idle for the next request. */
  lemma ResultCollected(setup: Setup, s: State, outcome: Outcome)
    requires Calm(s) && s.mode == Enabled && Answered(s, outcome)
    ensures Told(s.results) == outcome && Idle(Step(setup, s, Collect))
  {
  }

  /** Polling the only event there is. */
  lemma PollOnly(setup: Setup, s: State, k: Kind, t: Token, rx: Receive, handle: Handle)
    requires s.mode == Enabled && s.queued == map[k := t]
    ensures Polled(setup, s, rx, handle) == Handled(setup, s.(queued := map[]), k, t, rx, handle)
  {
    hide Handled;
    assert s.queued.Keys == {k} && Fetch({k}) == Some(k);
    assert s.queued - {k} == map[];
  }

  lemma AfterPolls(setup: Setup, s: State, rx: Receive, handle: Handle)
    ensures var s1 := Polled(setup, s, rx, handle).0;
            var s2 := Polled(setup, s1, rx, handle).0;
            var poll := Poll(rx, handle);
            && After(setup, s, [poll, poll]) == s2
            && After(setup, s, [poll, poll, poll]) == Polled(setup, s2, rx, handle).0
  {
    hide Polled;
    var poll := Poll(rx, handle);
    var s1 := Polled(setup, s, rx, handle).0;
    var s2 := Polled(setup, s1, rx, handle).0;
    assert [poll, poll, poll][1..] == [poll, poll] && [poll, poll][1..] == [poll] && [poll][1..] == [];
    assert After(setup, s2, [poll]) == Polled(setup, s2, rx, handle).0;
    assert After(setup, s1, [poll, poll]) == After(setup, s2, [poll]);
    assert After(setup, s, [poll, poll]) == After(setup, s1, [poll]);
  }

  // ----- The stack itself -----

  class Master {
    const slots: array<Slot>
    const slaves: nat
    var mode: Mode
    var queued: set<Kind>
    var errorType: Outcome
    var dest: int
    var frame: Frame
    var request: Frame
    var broadcast: bool
    var masterMode: bool
    var bus: nat
    var waiters: nat
    var results: set<Outcome>

    ghost var tokens: map<Kind, Token>
    ghost var arrivals: nat
    ghost var released: seq<Release>
    ghost var lost: seq<int>
    ghost var takes: nat
    ghost var awaited: nat

    ghost function View(): State
      reads this
    {
      State(mode, tokens, errorType, dest, frame, request, broadcast, masterMode,
            bus, waiters, results, arrivals, released, lost, takes, awaited)
    }

    ghost function Built(): Setup
      reads slots
    {
      Setup(slots[..], slaves)
    }

    ghost predicate Valid()
      reads this
    {
      queued == tokens.Keys
    }

    constructor (slots: array<Slot>, slaves: nat)
      ensures Valid() && Initial(View()) && mode == NotInitialized
      ensures this.slots == slots && this.slaves == slaves
    {
      this.slots, this.slaves := slots, slaves;
      mode, queued, tokens, errorType := NotInitialized, {}, map[], Success;
      dest, frame, request, broadcast, masterMode := 0, Frame(0, 0), Frame(0, 0), false, false;
      bus, waiters, results := 1, 0, {};
      arrivals, released, lost, takes, awaited := 0, [], [], 0, 0;
    }

    /** xMBMasterPortEventPost. */
    method PostEvent(k: Kind, ghost t: Token)
      requires Valid()
      modifies `queued, `tokens, `lost
      ensures Valid() && View() == Post(old(View()), k, t)
    {
      if k !in tokens {
        tokens := tokens[k := t];
      } else if InFlight(k) {
        lost := lost + [t.id];
      }
      queued := queued + {k};
    }

    /** vMBMasterSetErrorType and the error event that follows it. */
    method PostError(cause: Outcome, ghost t: Token)
      requires Valid()
      modifies `queued, `tokens, `lost, `errorType
      ensures Valid() && View() == Fail(old(View()), t, cause)
    {
      errorType := cause;
      PostEvent(Failed, t.(handled := t.handled + 1, cause := cause));
    }

    /** The callbacks that pass on a result, and vMBMasterRunResRelease. */
    method ReleaseBus(told: Outcome, ghost t: Token)
      modifies `bus, `waiters, `results, `released
      ensures View() == Finish(old(View()), t, told)
    {
      results := results + {told};
      waiters := waiters + 1;
      bus := bus + 1;
      released := released + [Release(t.id, t.handled + 1, t.cause, told)];
    }

    /** Carrying out a response, with master mode set while handlers run. */
    method RunHandlers(handle: Handle) returns (exception: int, calls: seq<Invocation>)
      requires !masterMode
      modifies `dest, `masterMode
      ensures (exception, calls, dest) == Executed(Built(), old(View()), handle)
      ensures !masterMode
    {
      exception, calls := ILLEGAL_FUNCTION, [];
      if frame.code >= 128 {
        return frame.first, calls;
      }
      var handler := FindHandler(slots, frame.code);
      if handler.Some? {
        masterMode := true;
        if broadcast {
          for j := 1 to slaves + 1
            invariant calls == ToAll(handler.value, j - 1) && masterMode
            invariant if j == 1 then exception == ILLEGAL_FUNCTION && dest == old(dest)
                      else exception == handle(handler.value, j - 1, true) && dest == j - 1
          {
            dest := j;
            exception := handle(handler.value, dest, masterMode);
            calls := calls + [Invocation(handler.value, dest)];
          }
        } else {
          exception := handle(handler.value, dest, masterMode);
          calls := [Invocation(handler.value, dest)];
        }
        masterMode := false;
      }
    }

    /** The handling of a received frame. */
    method CheckFrame(rx: Receive, ghost t: Token)
      requires Valid()
      modifies `queued, `tokens, `lost, `errorType, `frame
      ensures Valid()
      ensures var s := if rx.ok then old(View()).(frame := rx.frame) else old(View());
              View() == if rx.ok && rx.address == dest then Post(s, Execute, t.(handled := t.handled + 1))
                        else Fail(s, t, ReceiveData)
    {
      hide Fail, Post;
      if rx.ok {
        frame := rx.frame;
      }
      if rx.ok && rx.address == dest {
        PostEvent(Execute, t.(handled := t.handled + 1));
      } else {
        PostError(ReceiveData, t);
      }
    }

    /** The handling of a response that is for this master. */
    method ExecuteFrame(handle: Handle, ghost t: Token) returns (calls: seq<Invocation>)
      requires Valid() && !masterMode
      modifies this
      ensures Valid()
      ensures var (exception, all, last) := Executed(Built(), old(View()), handle);
              var s := old(View()).(dest := last);
              && calls == all
              && View() == if exception != NO_EXCEPTION then Fail(s, t, ExecuteFunction)
                           else Finish(s, t.(cause := Success), Success)
    {
      hide Fail, Finish, Executed;
      var exception;
      exception, calls := RunHandlers(handle);
      if exception != NO_EXCEPTION {
        PostError(ExecuteFunction, t);
      } else {
        ReleaseBus(Success, t.(cause := Success));
      }
    }

    method HandleEvent(k: Kind, ghost t: Token, rx: Receive, handle: Handle) returns (calls: seq<Invocation>)
      requires Valid() && !masterMode
      modifies this
      ensures Valid() && (View(), calls) == Handled(Built(), old(View()), k, t, rx, handle)
    {
      hide Fail, Post, Finish, Executed;
      calls := [];
      match k
      case Ready =>
      case Received => CheckFrame(rx, t);
      case Execute => calls := ExecuteFrame(handle, t);
      case Sent =>
        frame := request;
        broadcast := dest == BROADCAST;
        awaited := awaited + 1;
      case Failed =>
        frame := request;
        ReleaseBus(errorType, t);
    }

    /** eMBMasterPoll: one event is fetched and handled. */
    method PollStack(rx: Receive, handle: Handle) returns (status: Status, calls: seq<Invocation>)
      requires Valid() && !masterMode
      modifies this
      ensures Valid() && (View(), calls) == Polled(Built(), old(View()), rx, handle)
      ensures status == (if old(mode) == Enabled then NoError else IllegalState)
    {
      hide Handled, Fetch;
      calls := [];
      if mode != Enabled {
        return IllegalState, calls;
      }
      status := NoError;
      var k := Fetch(queued);
      if k == None {
        return;
      }
      queued := queued - {k.value};
      ghost var t := tokens[k.value];
      tokens := tokens - {k.value};
      calls := HandleEvent(k.value, t, rx, handle);
    }
  }
}
