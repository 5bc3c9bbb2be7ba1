/**
  The envelope generator of the FM synthesizer: five ramps, one after another, driven by a
  counter, and a resting state.
*/
module FmEnvelope {
  import opened CInt
  import opened Iteration

  const MAX_EGLEVEL: int := SHRT_MAX / 8

  const ATTACK: nat := 0
  const DECAYBREAK: nat := 1
  const DECAY: nat := 2
  const SUSTAIN: nat := 3
  const RELEASE: nat := 4
  const RELEASED: nat := 5

  datatype Param = Param(initval: int, period: int, diff2next: int)

  datatype Eg = Eg(state: nat, counter: nat, params: seq<Param>)

  ghost predicate Shaped(eg: Eg) {
    |eg.params| == 6 && eg.state <= RELEASED
  }

  /** A level to go to, converted to an integer, and the time to get there. */
  datatype Level = Level(value: int, periodMs: int)
  datatype Levels = Levels(attack: Level, decaybrk: Level, decay: Level, sustain: Level, release: Level)

  // ----- Configuration -----

  /** The ramp from one level to the next. */
  function Ramp(fs: int, target: Level, last: Level): Param {
    Param(last.value, CDiv(fs * target.periodMs, 1000), target.value - last.value)
  }

  /** What set_egparams checks: the level a ramp starts from, and that it does not go back in time. */
  predicate Sound(p: Param) {
    -MAX_EGLEVEL <= p.initval <= MAX_EGLEVEL && p.period >= 0
  }

  function Configure(params: seq<Param>, fs: int, l: Levels): (r: (seq<Param>, bool))
    requires |params| == 6
    ensures |r.0| == 6
  {
    if fs <= 0 then (params, false)
    else
      var r := [Ramp(fs, l.attack, l.release), Ramp(fs, l.decaybrk, l.attack), Ramp(fs, l.decay, l.decaybrk),
                Ramp(fs, l.sustain, l.decay), Ramp(fs, l.release, l.sustain),
                params[RELEASED].(initval := l.release.value)];
      (r, Sound(r[0]) && Sound(r[1]) && Sound(r[2]) && Sound(r[3]) && Sound(r[4]))
  }

  /** Every ramp ends where the next one starts, and no level is out of range. */
  ghost predicate Accepted(params: seq<Param>) {
    && |params| == 6
    && (forall i :: 0 <= i < RELEASED ==> params[i].period >= 0)
    && (forall i :: 0 <= i <= RELEASED ==> -MAX_EGLEVEL <= params[i].initval <= MAX_EGLEVEL)
    && (forall i :: 0 <= i < RELEASED ==> params[i].initval + params[i].diff2next == params[i + 1].initval)
  }

  lemma ConfigureAccepts(params: seq<Param>, fs: int, l: Levels)
    requires |params| == 6
    ensures var (r, ok) := Configure(params, fs, l); ok ==> Accepted(r)
  {
    var (r, ok) := Configure(params, fs, l);
    if ok {
      assert l.release.value == r[0].initval;
    }
  }

  /** The level that a state goes to; the envelope rests on that of the release. */
  function Goal(l: Levels, state: nat): Level
    requires state <= RELEASED
  {
    if state == ATTACK then l.attack
    else if state == DECAYBREAK then l.decaybrk
    else if state == DECAY then l.decay
    else if state == SUSTAIN then l.sustain
    else l.release
  }

  /** Every ramp starts from the level before it, the attack from the level of rest, and takes
      its time in samples, rounded down. */
  lemma ConfigureFollowsLevels(params: seq<Param>, fs: int, l: Levels, i: nat)
    requires |params| == 6 && i <= RELEASED
    ensures var (r, ok) := Configure(params, fs, l);
            && (ok ==> fs > 0)
            && (ok ==> r[i].initval == Goal(l, if i == ATTACK then RELEASED else i - 1).value)
            && (ok && i < RELEASED && Goal(l, i).periodMs >= 0 ==>
                  r[i].period * 1000 <= fs * Goal(l, i).periodMs < (r[i].period + 1) * 1000)
  {
    var (r, ok) := Configure(params, fs, l);
    if ok && i < RELEASED && Goal(l, i).periodMs >= 0 {
      MulKeepsOrder(0, fs, Goal(l, i).periodMs);
      Fits(fs * Goal(l, i).periodMs, 1000);
    }
  }

  // ----- Operation -----

  /** The next state that takes any time, or the resting state. */
  function Following(params: seq<Param>, state: nat): (r: nat)
    requires |params| == 6 && state < RELEASED
    ensures state < r <= RELEASED
    ensures r < RELEASED ==> params[r].period != 0
    ensures forall i :: state < i < r ==> params[i].period == 0
    decreases RELEASED - state
  {
    if state + 1 < RELEASED && params[state + 1].period == 0 then Following(params, state + 1) else state + 1
  }

  function Tick(eg: Eg): (r: (Eg, int))
    requires Shaped(eg)
    ensures Shaped(r.0) && r.0.params == eg.params
  {
    var p := eg.params[eg.state];
    if eg.state == RELEASED then (eg, p.initval)
    else if eg.counter >= p.period then
      var s := Following(eg.params, eg.state);
      (eg.(state := s, counter := 0), eg.params[s].initval)
    else (eg.(counter := eg.counter + 1), p.initval + CDiv(p.diff2next * eg.counter, p.period))
  }

  // ----- Outputs -----

  function RampValue(p: Param, k: int): int
    requires p.period > 0
  {
    p.initval + CDiv(p.diff2next * k, p.period)
  }

  /** Ramps towards a higher level, or none. */
  lemma RampRises(d: int, n: int, j: int, k: int)
    requires 0 <= j <= k <= n && n > 0 && d >= 0
    ensures 0 <= CDiv(d * j, n) <= CDiv(d * k, n) <= d
  {
    hide CDiv;
    MulKeepsOrder(0, j, d);
    MulKeepsOrder(j, k, d);
    MulKeepsOrder(k, n, d);
    CDivExact(0, n);
    CDivExact(d, n);
    CDivGrows(0, d * j, n);
    CDivGrows(d * j, d * k, n);
    CDivGrows(d * k, d * n, n);
  }

  /** A ramp goes from its level to the next without turning back. */
  lemma RampMonotone(p: Param, j: int, k: int)
    requires 0 <= j <= k <= p.period && p.period > 0
    ensures RampValue(p, 0) == p.initval && RampValue(p, p.period) == p.initval + p.diff2next
    ensures p.diff2next >= 0 ==> p.initval <= RampValue(p, j) <= RampValue(p, k) <= p.initval + p.diff2next
    ensures p.diff2next <= 0 ==> p.initval >= RampValue(p, j) >= RampValue(p, k) >= p.initval + p.diff2next
  {
    hide CDiv;
    var d, n := p.diff2next, p.period;
    CDivExact(0, n);
    CDivExact(d, n);
    if d >= 0 {
      RampRises(d, n, j, k);
    }
    if d <= 0 {
      RampRises(-d, n, j, k);
      assert -d * j == -(d * j) && -d * k == -(d * k);
      CDivOdd(d * j, n);
      CDivOdd(d * k, n);
    }
  }

  /** The states that a started envelope goes through. */
  ghost predicate Running(eg: Eg) {
    Shaped(eg) && Accepted(eg.params)
  }

  /** Every output lies between the level that the state started from and the next one, so it
      is in range. */
  lemma OutputInRange(eg: Eg)
    requires Running(eg)
    ensures var (eg', val) := Tick(eg);
            && Running(eg') && -MAX_EGLEVEL <= val <= MAX_EGLEVEL
            && (eg'.state == eg.state && eg.state != RELEASED ==>
                  var a, b := eg.params[eg.state].initval, eg.params[eg.state + 1].initval;
                  a <= val <= b || b <= val <= a)
  {
    var p := eg.params[eg.state];
    if eg.state != RELEASED && eg.counter < p.period {
      RampMonotone(p, eg.counter, eg.counter);
      var next := eg.params[eg.state + 1].initval;
      assert p.initval + p.diff2next == next;
      assert Tick(eg).1 == RampValue(p, eg.counter);
    }
  }

  // ----- Running time -----

  /** The calls that the states from `s` on take. */
  function Later(params: seq<Param>, s: nat): nat
    requires |params| == 6 && s <= RELEASED
    requires forall i :: 0 <= i < RELEASED ==> params[i].period >= 0
    decreases RELEASED - s
  {
    if s == RELEASED then 0
    else (if params[s].period == 0 then 0 else params[s].period + 1) + Later(params, s + 1)
  }

  /** The calls that are left until the resting state. */
  function Remaining(eg: Eg): (n: nat)
    requires |eg.params| == 6 && eg.state <= RELEASED
    requires forall i :: 0 <= i < RELEASED ==> eg.params[i].period >= 0
    ensures n == 0 <==> eg.state == RELEASED
  {
    if eg.state == RELEASED then 0
    else
      var p := eg.params[eg.state].period;
      (if eg.counter < p then p - eg.counter else 0) + 1 + Later(eg.params, eg.state + 1)
  }

  lemma {:induction false} FollowingTakesLater(params: seq<Param>, s: nat)
    requires Accepted(params) && s < RELEASED
    ensures Remaining(Eg(Following(params, s), 0, params)) == Later(params, s + 1)
    decreases RELEASED - s
  {
    if s + 1 < RELEASED && params[s + 1].period == 0 {
      FollowingTakesLater(params, s + 1);
    }
  }

  /** Each call brings the resting state one call nearer. */
  lemma OperateCounts(eg: Eg)
    requires Running(eg)
    ensures Running(Tick(eg).0)
    ensures Remaining(Tick(eg).0) == if Remaining(eg) == 0 then 0 else Remaining(eg) - 1
  {
    OutputInRange(eg);
    if eg.state != RELEASED && eg.counter >= eg.params[eg.state].period {
      FollowingTakesLater(eg.params, eg.state);
    }
  }

  function Call(eg: Eg): Eg {
    if |eg.params| == 6 && eg.state <= RELEASED then Tick(eg).0 else eg
  }

  lemma CallCounts(eg: Eg)
    requires Running(eg)
    ensures Running(Call(eg)) && Call(eg).params == eg.params
    ensures Remaining(Call(eg)) == if Remaining(eg) == 0 then 0 else Remaining(eg) - 1
  {
    hide Tick, Remaining;
    OperateCounts(eg);
  }

  lemma {:induction false} AfterCalls(eg: Eg, n: nat)
    requires Running(eg)
    ensures var r := Iterate(Call, eg, n);
            Running(r) && r.params == eg.params && Remaining(r) == if n < Remaining(eg) then Remaining(eg) - n else 0
    decreases n
  {
    hide Tick, Remaining, Running, Call;
    CallCounts(eg);
    if n > 0 {
      AfterCalls(Call(eg), n - 1);
    }
  }

  function Started(eg: Eg): Eg {
    eg.(state := ATTACK, counter := 0)
  }

  /** The time from the start to the resting state: one call more than its period for the
      attack, and for each later ramp of any length. */
  function Duration(params: seq<Param>): nat
    requires |params| == 6
    requires forall i :: 0 <= i < RELEASED ==> params[i].period >= 0
  {
    params[ATTACK].period + 1 + Later(params, DECAYBREAK)
  }

  /** A started envelope is at rest after exactly that many calls, no sooner, and stays so. */
  lemma RunsForDuration(eg: Eg, n: nat)
    requires Accepted(eg.params)
    ensures Iterate(Call, Started(eg), n).state == RELEASED <==> n >= Duration(eg.params)
  {
    AfterCalls(Started(eg), n);
  }

  /** The value that call number `n` returns. */
  function Output(eg: Eg, n: nat): int
    requires |eg.params| == 6
    requires Shaped(Iterate(Call, eg, n))
  {
    Tick(Iterate(Call, eg, n)).1
  }

  /** The call number `k` in a state finds the counter at `k`. */
  lemma {:induction false} StaysInState(eg: Eg, k: nat)
    requires Running(eg) && eg.state < RELEASED && eg.counter + k <= eg.params[eg.state].period
    ensures Iterate(Call, eg, k) == eg.(counter := eg.counter + k)
    decreases k
  {
    if k > 0 {
      StaysInState(Call(eg), k - 1);
    }
  }

  /**
    The law of a ramp: in a state that goes from level `a` to level `b` in `n` calls, call `k`
    puts out a value on the side of `b`, as far from `a` as `k` out of `n` calls, rounded
    towards `a`.
  */
  lemma OutputLaw(eg: Eg, k: nat)
    requires Running(eg) && eg.state < RELEASED && eg.counter == 0 && k < eg.params[eg.state].period
    ensures Shaped(Iterate(Call, eg, k))
    ensures var a, b := eg.params[eg.state].initval, eg.params[eg.state + 1].initval;
            var n, v := eg.params[eg.state].period, Output(eg, k);
            && Abs(v - a) * n <= Abs(b - a) * k < (Abs(v - a) + 1) * n
            && (a <= v <= b || b <= v <= a)
  {
    StaysInState(eg, k);
    var p, now := eg.params[eg.state], eg.(counter := k);
    OutputInRange(now);
    var d, n := p.diff2next, p.period;
    assert p.initval + d == eg.params[eg.state + 1].initval;
    CDivIs(d * k, n);
    AbsProduct(d, k);
  }

  lemma AbsProduct(d: int, k: nat)
    ensures Abs(d * k) == Abs(d) * k
  {
    MulKeepsOrder(0, k, Abs(d));
    assert d < 0 ==> -d * k == -(d * k);
  }

  /** A ramp does not turn back, and behind it comes the level that it goes to. */
  lemma OutputsGoOneWay(eg: Eg, j: nat, k: nat)
    requires Running(eg) && eg.state < RELEASED && eg.counter == 0 && j <= k <= eg.params[eg.state].period
    ensures Shaped(Iterate(Call, eg, j)) && Shaped(Iterate(Call, eg, k))
    ensures var a, b := eg.params[eg.state].initval, eg.params[eg.state + 1].initval;
            var last := k == eg.params[eg.state].period;
            && (a <= b && !last ==> a <= Output(eg, j) <= Output(eg, k) <= b)
            && (b <= a && !last ==> b <= Output(eg, k) <= Output(eg, j) <= a)
            && (last ==>
                  var next := Following(eg.params, eg.state);
                  Output(eg, k) == eg.params[next].initval && Iterate(Call, eg, k + 1) == eg.(state := next, counter := 0))
  {
    StaysInState(eg, j);
    StaysInState(eg, k);
    IterateAdds(Call, eg, k, 1);
    var p := eg.params[eg.state];
    assert p.initval + p.diff2next == eg.params[eg.state + 1].initval;
    assert Iterate(Call, eg.(counter := k), 1) == Iterate(Call, Call(eg.(counter := k)), 0);
    if k < p.period {
      RampMonotone(p, j, k);
    }
  }

  /** Over a whole run no output leaves the range. */
  lemma OutputsStayInRange(eg: Eg, n: nat)
    requires Running(eg)
    ensures Shaped(Iterate(Call, eg, n)) && -MAX_EGLEVEL <= Output(eg, n) <= MAX_EGLEVEL
  {
    AfterCalls(eg, n);
    OutputInRange(Iterate(Call, eg, n));
  }

  // ----- The generator -----

  class Generator {
    var state: nat
    var counter: nat
    const params: array<Param>

    ghost predicate Valid()
      reads this, params
    {
      params.Length == 6 && state <= RELEASED
    }

    ghost function State(): Eg
      reads this, params
    {
      Eg(state, counter, params[..])
    }

    constructor ()
      ensures Valid() && fresh(params)
      ensures State() == Eg(RELEASED, 0, [Param(0, 0, 0), Param(0, 0, 0), Param(0, 0, 0), Param(0, 0, 0), Param(0, 0, 0),
                                          Param(MAX_EGLEVEL, 0, 0)])
    {
      state, counter := RELEASED, 0;
      params := new Param[6](i => if i == RELEASED then Param(MAX_EGLEVEL, 0, 0) else Param(0, 0, 0));
    }

    /** set_egparams */
    method SetRamp(i: nat, fs: int, target: Level, last: Level) returns (err: int)
      requires Valid() && i < RELEASED
      modifies params
      ensures Valid() && params[..] == old(params[..])[i := Ramp(fs, target, last)]
      ensures err == if Sound(Ramp(fs, target, last)) then 0 else -1
    {
      params[i] := Param(last.value, CDiv(fs * target.periodMs, 1000), target.value - last.value);
      if params[i].initval < -MAX_EGLEVEL || params[i].initval > MAX_EGLEVEL || params[i].period < 0 {
        return -1;
      }
      return 0;
    }

    /** fmsyntheg_set_param; on an error the ramps have been overwritten all the same. */
    method SetParam(fs: int, l: Levels) returns (ok: bool)
      requires Valid()
      modifies params
      ensures Valid() && (State().params, ok) == Configure(old(State().params), fs, l)
      ensures ok ==> Accepted(State().params)
    {
      if fs <= 0 {
        return false;
      }
      ConfigureAccepts(params[..], fs, l);
      var errcnt := SetRamp(ATTACK, fs, l.attack, l.release);
      var err := SetRamp(DECAYBREAK, fs, l.decaybrk, l.attack);
      errcnt := errcnt + err;
      err := SetRamp(DECAY, fs, l.decay, l.decaybrk);
      errcnt := errcnt + err;
      err := SetRamp(SUSTAIN, fs, l.sustain, l.decay);
      errcnt := errcnt + err;
      err := SetRamp(RELEASE, fs, l.release, l.sustain);
      errcnt := errcnt + err;
      params[RELEASED] := params[RELEASED].(initval := l.release.value);
      ok := errcnt == 0;
      assert params[..] == Configure(old(State().params), fs, l).0;
    }

    /** fmsyntheg_start */
    method Start()
      requires Valid()
      modifies this
      ensures Valid() && State() == Started(old(State()))
    {
      state, counter := ATTACK, 0;
    }

    /** fmsyntheg_operate */
    method Operate() returns (val: int)
      requires Valid()
      modifies this
      ensures Valid() && (State(), val) == Tick(old(State()))
    {
      var p := params[state];
      val := p.initval;
      if state != RELEASED {
        if counter >= p.period {
          counter := 0;
          ghost var next := Following(params[..], state);
          state := state + 1;
          while state < RELEASED && params[state].period == 0
            invariant state <= RELEASED && counter == 0
            invariant next == if state < RELEASED && params[state].period == 0 then Following(params[..], state) else state
          {
            state := state + 1;
          }
          val := params[state].initval;
        } else {
          val := val + CDiv(p.diff2next * counter, p.period);
          counter := counter + 1;
        }
      }
    }
  }
}
