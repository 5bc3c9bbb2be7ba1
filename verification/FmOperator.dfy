/**
  The operators of the FM synthesizer: a tree of linked nodes, each shaping a wave with its
  envelope and modulated by the operators below it and by feedback.
*/
module FmOperator {
  import opened CInt
  import opened FmEnvelope
  import opened FmWave

  datatype Wave = SineWave | TriangleWave | SawtoothWave | SquareWave

  function WaveValue(wave: Wave, theta: int): int {
    match wave
    case SineWave => PseudoSin(theta)
    case TriangleWave => Triangle(theta)
    case SawtoothWave => Sawtooth(theta)
    case SquareWave => Square(theta)
  }

  /** Conversion to an integer in C: towards zero. */
  function Truncate(x: real): int {
    if x >= 0.0 then x.Floor else -((-x).Floor)
  }

  /** What an operator remembers. */
  datatype OpState = OpState(eg: Eg, wave: Wave, phase: real, delta: real, feedback: int, last: int)

  /** A row of operators side by side, each with a row below it. */
  datatype Row = Empty | Row(op: OpState, below: Row, next: Row)

  ghost predicate Able(row: Row) {
    row.Row? ==> Shaped(row.op.eg) && Able(row.below) && Able(row.next)
  }

  /** One operator, modulated by the sum of the row below. */
  function OperateOne(op: OpState, sum: int, phaseTime: int): (OpState, int)
    requires Shaped(op.eg)
  {
    var phase := if phaseTime != 0 then op.phase + op.delta else 0.0;
    var (eg, level) := Tick(op.eg);
    var out := CDiv(level * WaveValue(op.wave, Truncate(phase) + op.feedback + sum), MAX_EGLEVEL);
    (op.(eg := eg, phase := phase, last := out), out)
  }

  /** A row of operators, and the sum of what they put out. */
  function Modulate(row: Row, phaseTime: int): (r: (Row, int))
    requires Able(row)
    ensures Able(r.0)
  {
    match row
    case Empty => (Empty, 0)
    case Row(op, below, next) =>
      var (below', sum) := Modulate(below, phaseTime);
      var (op', out) := OperateOne(op, sum, phaseTime);
      var (next', rest) := Modulate(next, phaseTime);
      (Row(op', below', next'), out + rest)
  }

  // ----- What the two compute -----

  lemma TruncateIs(x: real)
    ensures x >= 0.0 ==> Truncate(x) as real <= x < Truncate(x) as real + 1.0
    ensures x <= 0.0 ==> Truncate(x) as real - 1.0 < x <= Truncate(x) as real
  {
  }

  /**
    One operator puts out the wave at its phase, moved by its feedback and by the operators
    below it, at the level of its envelope, rounded towards zero. The phase moves on, or starts
    anew at phase time zero.
  */
  lemma OperateLaw(op: OpState, sum: int, phaseTime: int, v: int)
    requires Shaped(op.eg)
    requires var theta := Truncate(if phaseTime == 0 then 0.0 else op.phase + op.delta) + op.feedback + sum;
             match op.wave
             case SineWave => v == PseudoSin(theta)
             case TriangleWave => v == Triangle(theta)
             case SawtoothWave => v == Sawtooth(theta)
             case SquareWave => v == Square(theta)
    ensures var (op', out) := OperateOne(op, sum, phaseTime);
            var (eg, level) := Tick(op.eg);
            && Abs(out) * MAX_EGLEVEL <= Abs(level * v) < (Abs(out) + 1) * MAX_EGLEVEL
            && (level * v >= 0 ==> out >= 0) && (level * v <= 0 ==> out <= 0)
            && op' == op.(eg := eg, phase := if phaseTime == 0 then 0.0 else op.phase + op.delta, last := out)
  {
    hide Tick, PseudoSin, Triangle, Sawtooth, Square, Truncate, CDiv;
    CDivIs(Tick(op.eg).1 * v, MAX_EGLEVEL);
  }

  /** What the operators of a row put out last, added up. */
  function Total(row: Row): int {
    match row case Empty => 0 case Row(op, _, next) => op.last + Total(next)
  }

  /** Every operator of the tree has been operated once, on what the row below it put out. */
  ghost predicate Operated(before: Row, after: Row, phaseTime: int) {
    && before.Row? == after.Row?
    && (before.Row? ==>
          && Shaped(before.op.eg)
          && OperateOne(before.op, Total(after.below), phaseTime) == (after.op, after.op.last)
          && Operated(before.below, after.below, phaseTime) && Operated(before.next, after.next, phaseTime))
  }

  /** That is what modulating a row is, and its result is the sum over the row. */
  lemma {:induction false} ModulateOperates(row: Row, phaseTime: int)
    requires Able(row)
    ensures var (after, sum) := Modulate(row, phaseTime); Operated(row, after, phaseTime) && sum == Total(after)
  {
    hide Tick, WaveValue, CDiv, Truncate;
    if row.Row? {
      ModulateOperates(row.below, phaseTime);
      ModulateOperates(row.next, phaseTime);
    }
  }

  // ----- Amplitudes -----

  /** Accepted envelopes on generators that stay in range. */
  ghost predicate Tame(row: Row) {
    row.Row? ==> Running(row.op.eg) && row.op.wave != SawtoothWave && Tame(row.below) && Tame(row.next)
  }

  function Count(row: Row): nat {
    match row case Empty => 0 case Row(_, _, next) => 1 + Count(next)
  }

  /** Every operator of the tree last put out a value in range. */
  ghost predicate InRange(row: Row) {
    row.Row? ==> -SHRT_MAX <= row.op.last <= SHRT_MAX && InRange(row.below) && InRange(row.next)
  }

  lemma WaveInRange(wave: Wave, theta: int)
    requires wave != SawtoothWave
    ensures -SHRT_MAX <= WaveValue(wave, theta) <= SHRT_MAX
  {
    SinInRange(theta);
    TriangleInRange(theta);
  }

  lemma ProductInRange(level: int, wave: int)
    requires -MAX_EGLEVEL <= level <= MAX_EGLEVEL && -SHRT_MAX <= wave <= SHRT_MAX
    ensures -SHRT_MAX <= CDiv(level * wave, MAX_EGLEVEL) <= SHRT_MAX
  {
    var a, b := if level < 0 then -level else level, if wave < 0 then -wave else wave;
    MulKeepsOrder(a, MAX_EGLEVEL, b);
    MulKeepsOrder(b, SHRT_MAX, MAX_EGLEVEL);
    assert level * wave == a * b || level * wave == -(a * b);
    MulKeepsOrder(0, a, b);
    CDivBounded(level * wave, MAX_EGLEVEL, SHRT_MAX);
  }

  lemma OneInRange(op: OpState, sum: int, phaseTime: int)
    requires Running(op.eg) && op.wave != SawtoothWave
    ensures var (op', out) := OperateOne(op, sum, phaseTime);
            && -SHRT_MAX <= out <= SHRT_MAX && op'.last == out
            && Running(op'.eg) && op'.wave == op.wave
  {
    hide Tick, WaveValue;
    OutputInRange(op.eg);
    var phase := if phaseTime != 0 then op.phase + op.delta else 0.0;
    var theta := Truncate(phase) + op.feedback + sum;
    WaveInRange(op.wave, theta);
    ProductInRange(Tick(op.eg).1, WaveValue(op.wave, theta));
  }

  lemma {:induction false} TameIsAble(row: Row)
    requires Tame(row)
    ensures Able(row)
  {
    if row.Row? {
      TameIsAble(row.below);
      TameIsAble(row.next);
    }
  }

  /** For all phases and all feedback, every operator of the tree stays in range, and goes on
      to do so. */
  lemma {:induction false} RowInRange(row: Row, phaseTime: int)
    requires Tame(row)
    ensures Able(row)
    ensures var (row', sum) := Modulate(row, phaseTime);
            && Tame(row') && InRange(row') && Count(row') == Count(row)
            && -(SHRT_MAX * Count(row)) <= sum <= SHRT_MAX * Count(row)
  {
    TameIsAble(row);
    if row.Row? {
      RowInRange(row.below, phaseTime);
      RowInRange(row.next, phaseTime);
      OneInRange(row.op, Modulate(row.below, phaseTime).1, phaseTime);
    }
  }

  /** The same tree with other feedback values in it. */
  predicate Refed(a: Row, b: Row) {
    && a.Row? == b.Row?
    && (a.Row? ==> b.op == a.op.(feedback := b.op.feedback) && Refed(a.below, b.below) && Refed(a.next, b.next))
  }

  lemma {:induction false} RefedSelf(a: Row)
    ensures Refed(a, a)
  {
    if a.Row? {
      RefedSelf(a.below);
      RefedSelf(a.next);
    }
  }

  lemma {:induction false} RefedTame(a: Row, b: Row)
    requires Refed(a, b) && Tame(a)
    ensures Tame(b) && Count(b) == Count(a)
  {
    if a.Row? {
      RefedTame(a.below, b.below);
      RefedTame(a.next, b.next);
    }
  }

  lemma ModulateEmpty(phaseTime: int)
    ensures Able(Empty) && Modulate(Empty, phaseTime) == (Empty, 0)
  {
  }

  lemma {:induction false} ModulateRow(row: Row, phaseTime: int)
    requires row.Row? && Able(row)
    ensures Shaped(row.op.eg) && Able(row.below) && Able(row.next)
    ensures var (below, sum) := Modulate(row.below, phaseTime);
            var (op, out) := OperateOne(row.op, sum, phaseTime);
            var (next, rest) := Modulate(row.next, phaseTime);
            Modulate(row, phaseTime) == (Row(op, below, next), out + rest)
  {
    hide OperateOne;
  }

  /** The part of an output that is fed back. */
  function FeedbackOf(last: int, rate: int): int {
    CDiv(last * rate, MAX_EGLEVEL)
  }

  /** It is the output times the rate, rounded towards zero; at full rate it is the output. */
  lemma FeedbackLaw(last: int, rate: int)
    ensures var f := FeedbackOf(last, rate);
            && Abs(f) * MAX_EGLEVEL <= Abs(last * rate) < (Abs(f) + 1) * MAX_EGLEVEL
            && (last * rate >= 0 ==> f >= 0) && (last * rate <= 0 ==> f <= 0)
            && (rate == MAX_EGLEVEL ==> f == last)
  {
    hide CDiv;
    CDivIs(last * rate, MAX_EGLEVEL);
    CDivExact(last, MAX_EGLEVEL);
  }

  // ----- The nodes -----

  /** The feedback of an operator, and where it comes from, stay as they are. */
  twostate predicate Wired(o: Operator)
    reads o
  {
    o.feedbackVal == old(o.feedbackVal) && o.feedbackRef == old(o.feedbackRef) && o.feedbackRate == old(o.feedbackRate)
  }

  class Operator {
    const eg: Generator
    var wave: Wave
    var cascadeop: Operator?
    var parallelop: Operator?
    var feedbackRef: Operator?
    var feedbackVal: int
    var feedbackRate: int
    var lastSigval: int
    var deltaPhase: real
    var currentPhase: real
    ghost var repr: set<object>

    /** fmsynthop_create, with a generator selected */
    constructor (wave: Wave)
      ensures Valid() && fresh(repr) && cascadeop == null && parallelop == null && feedbackRef == null
      ensures State().wave == wave && State().last == 0 && State().feedback == 0
    {
      eg := new Generator();
      this.wave := wave;
      cascadeop, parallelop, feedbackRef := null, null, null;
      feedbackVal, feedbackRate, lastSigval := 0, 0, 0;
      deltaPhase, currentPhase := 0.0, 0.0;
      new;
      repr := {this, eg, eg.params};
    }

    ghost predicate Valid()
      reads this, repr
      decreases repr
    {
      && this in repr && eg in repr && eg.params in repr && eg.Valid()
      && (cascadeop != null ==>
            && cascadeop in repr && cascadeop.repr < repr && cascadeop.repr !! {this, eg, eg.params}
            && cascadeop.Valid())
      && (parallelop != null ==>
            && parallelop in repr && parallelop.repr < repr && parallelop.repr !! {this, eg, eg.params}
            && parallelop.Valid())
      && (cascadeop != null && parallelop != null ==> cascadeop.repr !! parallelop.repr)
    }

    ghost function State(): OpState
      reads this, eg, eg.params
    {
      OpState(eg.State(), wave, currentPhase, deltaPhase, feedbackVal, lastSigval)
    }

    /** This operator and the ones beside it, as a value. */
    ghost function Tree(): (row: Row)
      requires Valid()
      reads this, repr
      ensures Able(row)
      decreases repr
    {
      Row(State(),
          if cascadeop == null then Empty else cascadeop.Tree(),
          if parallelop == null then Empty else parallelop.Tree())
    }

    /** The operators of this row and below. */
    ghost function Nodes(): (nodes: set<Operator>)
      requires Valid()
      reads this, repr
      ensures nodes <= repr
      decreases repr
    {
      {this} + Below() + (if parallelop == null then {} else parallelop.Nodes())
    }

    ghost function Below(): (nodes: set<Operator>)
      requires Valid()
      reads this, repr
      ensures nodes <= repr
      ensures cascadeop != null ==> nodes <= cascadeop.repr
      decreases repr, 0
    {
      if cascadeop == null then {} else cascadeop.Nodes()
    }

    /** The feedback that an operator takes from the last output of another. */
    twostate predicate Fed(o: Operator)
      reads o, o.feedbackRef
    {
      o.feedbackVal == if o.feedbackRef == null then old(o.feedbackVal)
                       else FeedbackOf(o.feedbackRef.lastSigval, o.feedbackRate)
    }

    /** fmsynthop_update_feedback */
    method UpdateFeedback()
      requires Valid()
      modifies ({this} + Below())`feedbackVal
      ensures Valid() && repr == old(repr) && Below() == old(Below())
      ensures parallelop != null ==> parallelop.Nodes() == old(parallelop.Nodes())
      ensures forall o :: o in {this} + Below() ==> Fed(o)
      ensures Refed(old(Tree()), Tree()) && Tree().next == old(Tree()).next
      decreases repr, 1
    {
      hide CDiv, Modulate, Able, Tick, Shaped;
      RefedSelf(Tree().next);
      FetchBelow();
      label Fetched:
      TakeFeedback();
      assert forall o :: o in Below() ==> o.feedbackVal == old@Fetched(o.feedbackVal);
    }

    method FetchBelow()
      requires Valid()
      modifies Below()`feedbackVal
      ensures Valid() && repr == old(repr) && Below() == old(Below())
      ensures parallelop != null ==> parallelop.Nodes() == old(parallelop.Nodes())
      ensures forall o :: o in Below() ==> Fed(o)
      ensures State() == old(State()) && Tree().next == old(Tree()).next && Refed(old(Tree()).below, Tree().below)
      decreases repr, 0
    {
      hide CDiv, Modulate, Able, Tick, Shaped;
      RefedSelf(Empty);
      if cascadeop != null {
        cascadeop.FetchFeedback();
      }
    }

    /** The feedback of this operator itself. */
    method TakeFeedback()
      requires Valid()
      modifies this`feedbackVal
      ensures Valid() && Below() == old(Below())
      ensures parallelop != null ==> parallelop.Nodes() == old(parallelop.Nodes())
      ensures Fed(this)
      ensures State() == old(State()).(feedback := feedbackVal)
      ensures Tree().next == old(Tree()).next && Tree().below == old(Tree()).below
    {
      hide CDiv, Modulate, Able, Tick, Shaped;
      if feedbackRef != null {
        feedbackVal := CDiv(feedbackRef.lastSigval * feedbackRate, MAX_EGLEVEL);
      }
    }

    /** The operators beside this one. */
    method FetchBeside()
      requires Valid()
      modifies (if parallelop == null then {} else parallelop.Nodes())`feedbackVal
      ensures Valid() && repr == old(repr) && State() == old(State()) && Below() == old(Below())
      ensures Tree().below == old(Tree()).below && Refed(old(Tree()).next, Tree().next)
      ensures forall o :: o in {this} + Below() ==> o.feedbackVal == old(o.feedbackVal)
      ensures parallelop != null ==>
                parallelop.Nodes() == old(parallelop.Nodes()) && forall o :: o in parallelop.Nodes() ==> Fed(o)
      decreases repr, 1
    {
      hide CDiv, Modulate, Able, Tick, Shaped;
      RefedSelf(Empty);
      if parallelop != null {
        parallelop.FetchFeedback();
      }
    }

    /** fetch_feedback, over this operator and the ones beside it */
    method FetchFeedback()
      requires Valid()
      modifies Nodes()`feedbackVal
      ensures Valid() && repr == old(repr) && Nodes() == old(Nodes())
      ensures forall o :: o in Nodes() ==> Fed(o)
      ensures Refed(old(Tree()), Tree())
      decreases repr, 2
    {
      hide CDiv, Modulate, Able, Tick, Shaped;
      UpdateFeedback();
      FetchBeside();
    }

    /** The operators below, whose sum modulates this one. */
    method OperateBelow(phaseTime: int) returns (sum: int)
      requires Valid()
      modifies if cascadeop == null then {} else cascadeop.repr
      ensures Valid() && repr == old(repr) && State() == old(State())
      ensures (Tree().below, sum) == Modulate(old(Tree()).below, phaseTime) && Tree().next == old(Tree()).next
      ensures Below() == old(Below()) && (parallelop != null ==> parallelop.Nodes() == old(parallelop.Nodes()))
      ensures forall o :: o in Below() ==> Wired(o)
      decreases repr, 0
    {
      hide Tick, Modulate, Able, Shaped;
      ModulateEmpty(phaseTime);
      sum := 0;
      if cascadeop != null {
        sum := cascadeop.OperateRow(phaseTime);
      }
    }

    /** The output of this operator for a phase. */
    method Generate(phase: int) returns (out: int)
      requires Valid()
      modifies this`lastSigval, eg
      ensures Valid() && Tree().below == old(Tree()).below && Tree().next == old(Tree()).next
      ensures var (env, level) := Tick(old(eg.State()));
              && out == CDiv(level * WaveValue(wave, phase), MAX_EGLEVEL)
              && State() == old(State()).(eg := env, last := out)
      ensures Below() == old(Below()) && (parallelop != null ==> parallelop.Nodes() == old(parallelop.Nodes()))
    {
      hide Tick, WaveValue, CDiv, Able, Shaped;
      var level := eg.Operate();
      lastSigval := CDiv(level * WaveValue(wave, phase), MAX_EGLEVEL);
      out := lastSigval;
    }

    /** The phase moves on, or starts again. */
    method Advance(phaseTime: int)
      requires Valid()
      modifies this`currentPhase
      ensures Valid() && Tree().below == old(Tree()).below && Tree().next == old(Tree()).next
      ensures State() == old(State()).(phase := if phaseTime != 0 then old(currentPhase) + deltaPhase else 0.0)
      ensures Below() == old(Below()) && (parallelop != null ==> parallelop.Nodes() == old(parallelop.Nodes()))
    {
      hide Tick, Able, Shaped;
      currentPhase := if phaseTime != 0 then currentPhase + deltaPhase else 0.0;
    }

    /** fmsynthop_operate */
    method Operate(phaseTime: int) returns (out: int)
      requires Valid()
      modifies this`currentPhase, this`lastSigval, eg, if cascadeop == null then {} else cascadeop.repr
      ensures Valid() && repr == old(repr)
      ensures var t := old(Tree());
              var (below, sum) := Modulate(t.below, phaseTime);
              (Tree(), out) == (Row(OperateOne(t.op, sum, phaseTime).0, below, t.next), OperateOne(t.op, sum, phaseTime).1)
      ensures Below() == old(Below()) && (parallelop != null ==> parallelop.Nodes() == old(parallelop.Nodes()))
      ensures forall o :: o in Below() ==> Wired(o)
      decreases repr, 1
    {
      hide Tick, WaveValue, Modulate, CDiv, Able, Truncate, Shaped, Following;
      Advance(phaseTime);
      var phase := Truncate(currentPhase) + feedbackVal;
      var sum := OperateBelow(phaseTime);
      out := Generate(phase + sum);
    }

    /** The operators beside this one. */
    method OperateBeside(phaseTime: int) returns (sum: int)
      requires Valid()
      modifies if parallelop == null then {} else parallelop.repr
      ensures Valid() && repr == old(repr) && State() == old(State())
      ensures (Tree().next, sum) == Modulate(old(Tree()).next, phaseTime) && Tree().below == old(Tree()).below
      ensures Below() == old(Below()) && forall o :: o in {this} + Below() ==> Wired(o)
      ensures parallelop != null ==>
                parallelop.Nodes() == old(parallelop.Nodes()) && forall o :: o in parallelop.Nodes() ==> Wired(o)
      decreases repr, 1
    {
      hide Tick, OperateOne, Modulate, Able, Shaped;
      ModulateEmpty(phaseTime);
      sum := 0;
      if parallelop != null {
        sum := parallelop.OperateRow(phaseTime);
      }
    }

    /** This operator and the ones beside it, one after another. */
    method OperateRow(phaseTime: int) returns (sum: int)
      requires Valid()
      modifies repr
      ensures Valid() && repr == old(repr)
      ensures (Tree(), sum) == Modulate(old(Tree()), phaseTime)
      ensures Nodes() == old(Nodes()) && forall o :: o in Nodes() ==> Wired(o)
      decreases repr, 2
    {
      hide OperateOne, Modulate, Able, Tick, Shaped;
      ModulateRow(Tree(), phaseTime);
      var own := Operate(phaseTime);
      var rest := OperateBeside(phaseTime);
      sum := own + rest;
    }
  }
}
