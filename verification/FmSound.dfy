/**
  Sounds and rendering: the operators of each sound are mixed at its volume, the sounds are
  added up, and the sum is stored as a 16-bit sample.
*/
module FmSound {
  import opened CInt
  import opened FmEnvelope
  import opened FmOperator
  import opened Iteration

  const MAX_VOLUME: int := SHRT_MAX

  /** The conversion to int16_t. */
  function Int16(x: int): int {
    (x + 0x8000) % 0x10000 - 0x8000
  }

  function AtVolume(sum: int, volume: int): int {
    CDiv(sum * volume, MAX_VOLUME)
  }

  /** A sum at some volume is rounded towards zero; at full volume it is itself. */
  lemma VolumeLaw(sum: int, volume: int)
    ensures var out := AtVolume(sum, volume);
            && Abs(out) * MAX_VOLUME <= Abs(sum * volume) < (Abs(out) + 1) * MAX_VOLUME
            && (sum * volume >= 0 ==> out >= 0) && (sum * volume <= 0 ==> out <= 0)
            && (volume == MAX_VOLUME ==> out == sum)
  {
    hide CDiv;
    CDivIs(sum * volume, MAX_VOLUME);
    CDivExact(sum, MAX_VOLUME);
  }

  function NextPhaseTime(phaseTime: int, maxPhaseTime: int): int {
    if phaseTime + 1 >= maxPhaseTime then 0 else phaseTime + 1
  }

  function Sum(xs: seq<int>): int {
    if xs == [] then 0 else Sum(xs[..|xs| - 1]) + xs[|xs| - 1]
  }

  /** The conversion keeps the value modulo 2^16. */
  lemma Int16Is(x: int)
    ensures -32768 <= Int16(x) < 32768 && (x - Int16(x)) % 65536 == 0
  {
  }

  /** Phase time counts samples, modulo its maximum. */
  lemma {:induction false} PhaseTimeCycles(n: nat, max: int)
    requires max > 0
    ensures Iterate(t => NextPhaseTime(t, max), 0, n) == n % max
  {
    if n > 0 {
      PhaseTimeCycles(n - 1, max);
      var step := t => NextPhaseTime(t, max);
      IterateAdds(step, 0, n - 1, 1);
      assert Iterate(step, (n - 1) % max, 1) == Iterate(step, step((n - 1) % max), 0);
      NextMod(n - 1, max);
    }
  }

  lemma NextMod(n: nat, max: int)
    requires max > 0
    ensures (n + 1) % max == if n % max + 1 >= max then 0 else n % max + 1
  {
    var q, r := n / max, n % max;
    assert n == q * max + r;
    if r + 1 >= max {
      assert n + 1 == (q + 1) * max;
      RestIs(n + 1, max, q + 1, 0);
    } else {
      RestIs(n + 1, max, q, r + 1);
    }
  }

  lemma RestIs(a: int, n: int, q: int, r: int)
    requires n > 0 && a == q * n + r && 0 <= r < n
    ensures a % n == r
  {
    assert (q + 1) * n == q * n + n;
    DivIs(a, n, q);
  }

  lemma {:induction false} SumSplits(xs: seq<int>, ys: seq<int>)
    ensures Sum(xs + ys) == Sum(xs) + Sum(ys) && (|ys| == 1 ==> Sum(ys) == ys[0])
    decreases |ys|
  {
    if ys == [] {
      assert xs + ys == xs;
    } else {
      var k := |ys| - 1;
      assert (xs + ys)[..|xs| + k] == xs + ys[..k];
      SumSplits(xs, ys[..k]);
    }
  }

  class Sound {
    var phaseTime: int
    var volume: int
    var operators: Operator?
    ghost var repr: set<object>

    constructor (operators: Operator?)
      requires operators != null ==> operators.Valid()
      ensures Valid() && phaseTime == 0 && volume == MAX_VOLUME && this.operators == operators
      ensures repr == {this} + (if operators == null then {} else operators.repr)
    {
      phaseTime, volume := 0, MAX_VOLUME;
      this.operators := operators;
      repr := {this} + (if operators == null then {} else operators.repr);
    }

    ghost predicate Valid()
      reads this, repr
    {
      && this in repr
      && (operators != null ==>
            operators in repr && operators.repr <= repr && this !in operators.repr && operators.Valid())
    }

    ghost function Tree(): Row
      requires Valid()
      reads this, repr
    {
      if operators == null then Empty else operators.Tree()
    }

    ghost function Nodes(): (nodes: set<Operator>)
      requires Valid()
      reads this, repr
      ensures nodes <= repr
    {
      if operators == null then {} else operators.Nodes()
    }

    /** sound_modulate; the ghost `fed` is the operator tree after the feedback was fetched. */
    method Modulate(maxPhaseTime: int) returns (out: int, ghost fed: Row)
      requires Valid()
      modifies repr
      ensures Valid() && operators == old(operators) && repr == old(repr) && volume == old(volume)
      ensures Refed(old(Tree()), fed) && Able(fed)
      ensures Nodes() == old(Nodes()) && forall o :: o in Nodes() ==> Took(o)
      ensures var (row, sum) := FmOperator.Modulate(fed, old(phaseTime));
              Tree() == row && out == AtVolume(sum, volume)
      ensures phaseTime == if operators == null then old(phaseTime) else NextPhaseTime(old(phaseTime), maxPhaseTime)
    {
      hide FmOperator.Modulate, Able, Refed, CDiv;
      if operators == null {
        RefedSelf(Empty);
        ModulateEmpty(phaseTime);
        SilenceIsZero(volume);
        return 0, Empty;
      }
      operators.FetchFeedback();
      fed := operators.Tree();
      out := operators.OperateRow(phaseTime);
      phaseTime := phaseTime + 1;
      if phaseTime >= maxPhaseTime {
        phaseTime := 0;
      }
      out := CDiv(out * volume, MAX_VOLUME);
    }
  }

  /** The feedback of an operator is what the operator it refers to put out last. */
  twostate predicate Took(o: Operator)
    reads o
  {
    && o.feedbackRef == old(o.feedbackRef) && o.feedbackRate == old(o.feedbackRate)
    && o.feedbackVal == if old(o.feedbackRef) == null then old(o.feedbackVal)
                     else FeedbackOf(old(o.feedbackRef.lastSigval), old(o.feedbackRate))
  }

  lemma SilenceIsZero(volume: int)
    ensures AtVolume(0, volume) == 0
  {
  }

  // ----- Loudness -----

  /** How loud a sound can get, in units of the full range times MAX_VOLUME. */
  function Loudness(row: Row, volume: int): int {
    Count(row) * volume
  }

  /** A sound with a non-negative volume stays within its loudness. */
  lemma SoundInRange(row: Row, phaseTime: int, volume: int)
    requires Tame(row) && volume >= 0
    ensures Able(row)
    ensures var out := AtVolume(FmOperator.Modulate(row, phaseTime).1, volume);
            -Loudness(row, volume) <= out <= Loudness(row, volume)
  {
    hide FmOperator.Modulate, Tame;
    RowInRange(row, phaseTime);
    var sum := FmOperator.Modulate(row, phaseTime).1;
    var n := Count(row);
    MulKeepsOrder(sum, SHRT_MAX * n, volume);
    MulKeepsOrder(-(SHRT_MAX * n), sum, volume);
    assert SHRT_MAX * n * volume == n * volume * MAX_VOLUME;
    assert -(SHRT_MAX * n) * volume == -(n * volume * MAX_VOLUME);
    CDivBounded(sum * volume, MAX_VOLUME, n * volume);
  }

  lemma Int16Keeps(x: int)
    ensures Int16(x) == x <==> -0x8000 <= x < 0x8000
  {
  }

  // ----- Mixing -----

  ghost function Objects(sounds: seq<Sound>): set<object>
    reads sounds
  {
    set s, o | s in sounds && o in s.repr :: o
  }

  /** The sounds are well-formed and share no objects. */
  ghost predicate Apart(sounds: seq<Sound>)
    reads sounds, Objects(sounds)
  {
    && (forall i :: 0 <= i < |sounds| ==> sounds[i].Valid())
    && (forall i, j :: 0 <= i < j < |sounds| ==> sounds[i].repr !! sounds[j].repr)
  }

  /** What a sound put out, and what is left of its state, for some feedback. */
  twostate predicate Played(s: Sound, out: int, maxPhaseTime: int, fed: Row)
    reads s, s.repr
  {
    && old(s.Valid()) && s.Valid()
    && s.operators == old(s.operators) && s.volume == old(s.volume) && s.Nodes() == old(s.Nodes())
    && Refed(old(s.Tree()), fed) && Able(fed)
    && s.Tree() == FmOperator.Modulate(fed, old(s.phaseTime)).0
    && out == AtVolume(FmOperator.Modulate(fed, old(s.phaseTime)).1, s.volume)
    && s.phaseTime == if old(s.Tree()).Empty? then old(s.phaseTime) else NextPhaseTime(old(s.phaseTime), maxPhaseTime)
  }

  twostate predicate Untouched(s: Sound)
    reads s, s.repr
  {
    && old(s.Valid()) && s.Valid() && s.Tree() == old(s.Tree()) && s.Nodes() == old(s.Nodes())
    && s.operators == old(s.operators) && s.volume == old(s.volume) && s.phaseTime == old(s.phaseTime)
  }

  /** An object of a sound that comes before sound `k`. */
  ghost predicate Earlier(objects: seq<set<object>>, k: nat, o: object)
    requires k <= |objects|
  {
    exists j :: 0 <= j < k && o in objects[j]
  }

  /** The feedback in sound `k` is what was put out last: in this sample by the sounds that come
      before it, and otherwise in the last. */
  twostate predicate TookIn(objects: seq<set<object>>, k: nat, o: Operator)
    requires k <= |objects|
    reads o, o.feedbackRef
  {
    && o.feedbackRef == old(o.feedbackRef) && o.feedbackRate == old(o.feedbackRate)
    && o.feedbackVal == if o.feedbackRef == null then old(o.feedbackVal)
                        else
                          var last := if Earlier(objects, k, o.feedbackRef) then o.feedbackRef.lastSigval
                                      else old(o.feedbackRef.lastSigval);
                          FeedbackOf(last, o.feedbackRate)
  }

  /** One of the sounds is played, and the others are left alone. */
  method Play(sounds: seq<Sound>, i: nat, maxPhaseTime: int) returns (out: int, ghost fed: Row)
    requires Apart(sounds) && i < |sounds|
    modifies sounds[i].repr
    ensures Apart(sounds)
    ensures forall k :: 0 <= k < |sounds| ==> sounds[k].repr == old(sounds[k].repr)
    ensures Played(sounds[i], out, maxPhaseTime, fed)
    ensures forall o :: o in sounds[i].Nodes() ==> Took(o)
    ensures forall k :: 0 <= k < |sounds| && k != i ==> Untouched(sounds[k])
  {
    hide FmOperator.Modulate, Able, Refed, CDiv, NextPhaseTime;
    out, fed := sounds[i].Modulate(maxPhaseTime);
  }

  /** One sample: the sounds are played one after another and added up. */
  method Mix(sounds: seq<Sound>, maxPhaseTime: int, ghost objects: seq<set<object>>)
    returns (out: int, ghost outs: seq<int>, ghost feds: seq<Row>)
    requires Apart(sounds) && |objects| == |sounds| && forall k :: 0 <= k < |sounds| ==> objects[k] == sounds[k].repr
    modifies Objects(sounds)
    ensures Apart(sounds) && |outs| == |feds| == |sounds| && out == Sum(outs)
    ensures forall k :: 0 <= k < |sounds| ==> sounds[k].repr == old(sounds[k].repr)
    ensures forall k :: 0 <= k < |sounds| ==> Played(sounds[k], outs[k], maxPhaseTime, feds[k])
    ensures forall k, o :: 0 <= k < |sounds| && o in sounds[k].Nodes() ==> TookIn(objects, k, o)
  {
    hide FmOperator.Modulate, Able, Refed, CDiv, NextPhaseTime, Sound.Tree, Sound.Valid, Sound.Nodes;
    out, outs, feds := 0, [], [];
    for i := 0 to |sounds|
      invariant Apart(sounds) && |outs| == |feds| == i && out == Sum(outs)
      invariant forall k :: 0 <= k < |sounds| ==> sounds[k].repr == old(sounds[k].repr)
      invariant forall k :: 0 <= k < i ==> Played(sounds[k], outs[k], maxPhaseTime, feds[k])
      invariant forall k :: i <= k < |sounds| ==> Untouched(sounds[k])
      invariant forall k, o :: 0 <= k < i && o in sounds[k].Nodes() ==> TookIn(objects, k, o)
      invariant forall k :: i <= k < |sounds| ==> unchanged(sounds[k].repr)
    {
      label Before:
      var x, fed := Play(sounds, i, maxPhaseTime);
      forall k, o | 0 <= k < i && o in sounds[k].Nodes() ensures TookIn(objects, k, o) {
        assert o in old@Before(sounds[k].Nodes()) && o in objects[k];
        assert o.feedbackVal == old@Before(o.feedbackVal) && o.feedbackRef == old@Before(o.feedbackRef);
        if o.feedbackRef != null && Earlier(objects, k, o.feedbackRef) {
          assert o.feedbackRef.lastSigval == old@Before(o.feedbackRef.lastSigval);
        }
      }
      forall o | o in sounds[i].Nodes() ensures TookIn(objects, i, o) {
        assert Took@Before(o) && o in objects[i];
        assert old@Before(o.feedbackRef) == old(o.feedbackRef) && old@Before(o.feedbackRate) == old(o.feedbackRate);
      }
      assert (outs + [x])[..i] == outs;
      out, outs, feds := out + x, outs + [x], feds + [fed];
    }
  }

  // ----- Rendering -----

  /** What a sound remembers from one sample to the next. */
  datatype SoundState = SoundState(tree: Row, phaseTime: int, volume: int)

  ghost predicate Are(sounds: seq<Sound>, states: seq<SoundState>)
    requires Apart(sounds)
    reads sounds, Objects(sounds)
  {
    && |states| == |sounds|
    && forall k :: 0 <= k < |sounds| ==>
         states[k] == SoundState(sounds[k].Tree(), sounds[k].phaseTime, sounds[k].volume)
  }

  /** A sound is played: its output, and its state afterwards. */
  ghost predicate SoundStep(s: SoundState, t: SoundState, out: int, fed: Row, maxPhaseTime: int) {
    && Refed(s.tree, fed) && Able(fed)
    && t.tree == FmOperator.Modulate(fed, s.phaseTime).0 && t.volume == s.volume
    && out == AtVolume(FmOperator.Modulate(fed, s.phaseTime).1, s.volume)
    && t.phaseTime == if s.tree.Empty? then s.phaseTime else NextPhaseTime(s.phaseTime, maxPhaseTime)
  }

  ghost predicate FrameBy(before: seq<SoundState>, after: seq<SoundState>, outs: seq<int>, feds: seq<Row>, maxPhaseTime: int) {
    && |before| == |after| == |outs| == |feds|
    && forall k :: 0 <= k < |before| ==> SoundStep(before[k], after[k], outs[k], feds[k], maxPhaseTime)
  }

  /** Every sound is played once, and the outputs are added up. */
  ghost predicate FrameStep(before: seq<SoundState>, after: seq<SoundState>, out: int, maxPhaseTime: int) {
    exists outs: seq<int>, feds: seq<Row> :: FrameBy(before, after, outs, feds, maxPhaseTime) && out == Sum(outs)
  }

  /** The states of the sounds before each frame and after the last. */
  ghost predicate FrameSteps(states: seq<seq<SoundState>>, mix: seq<int>, maxPhaseTime: int) {
    && |states| == |mix| + 1
    && forall f :: 0 <= f < |mix| ==> FrameStep(states[f], states[f + 1], mix[f], maxPhaseTime)
  }

  lemma FrameStepsNone(initial: seq<SoundState>, maxPhaseTime: int)
    ensures FrameSteps([initial], [], maxPhaseTime)
  {
  }

  lemma FrameStepsMore(states: seq<seq<SoundState>>, mix: seq<int>, out: int, after: seq<SoundState>, maxPhaseTime: int)
    requires FrameSteps(states, mix, maxPhaseTime) && FrameStep(states[|mix|], after, out, maxPhaseTime)
    ensures FrameSteps(states + [after], mix + [out], maxPhaseTime)
  {
    hide FrameStep;
  }

  /** The volumes are not negative, and together the sounds are no louder than one operator at
      full volume. */
  ghost predicate Quiet(states: seq<SoundState>, shares: seq<int>) {
    && |shares| == |states| && Sum(shares) <= MAX_VOLUME
    && forall k :: 0 <= k < |states| ==>
         Tame(states[k].tree) && states[k].volume >= 0 && shares[k] == Loudness(states[k].tree, states[k].volume)
  }

  lemma PlayedInRange(t: Row, fed: Row, phaseTime: int, volume: int)
    requires Refed(t, fed) && Tame(t) && volume >= 0
    ensures Able(fed)
    ensures var (row, sum) := FmOperator.Modulate(fed, phaseTime);
            && Tame(row) && Loudness(row, volume) == Loudness(t, volume)
            && -Loudness(t, volume) <= AtVolume(sum, volume) <= Loudness(t, volume)
  {
    hide FmOperator.Modulate, Tame, Refed;
    RefedTame(t, fed);
    RowInRange(fed, phaseTime);
    SoundInRange(fed, phaseTime, volume);
  }

  lemma {:induction false} SumBounded(xs: seq<int>, bounds: seq<int>)
    requires |xs| == |bounds| && forall k :: 0 <= k < |xs| ==> -bounds[k] <= xs[k] <= bounds[k]
    ensures -Sum(bounds) <= Sum(xs) <= Sum(bounds)
  {
    if xs != [] {
      SumBounded(xs[..|xs| - 1], bounds[..|xs| - 1]);
    }
  }

  /** Quiet sounds are in range and stay quiet. */
  lemma QuietFrame(before: seq<SoundState>, after: seq<SoundState>, outs: seq<int>, feds: seq<Row>,
                   maxPhaseTime: int, shares: seq<int>)
    requires FrameBy(before, after, outs, feds, maxPhaseTime) && Quiet(before, shares)
    ensures Quiet(after, shares) && -SHRT_MAX <= Sum(outs) <= SHRT_MAX
  {
    hide FmOperator.Modulate, Tame, Refed, Able, Loudness, CDiv, NextPhaseTime;
    forall k | 0 <= k < |before|
      ensures -shares[k] <= outs[k] <= shares[k]
      ensures Tame(after[k].tree) && after[k].volume >= 0 && shares[k] == Loudness(after[k].tree, after[k].volume)
    {
      assert SoundStep(before[k], after[k], outs[k], feds[k], maxPhaseTime);
      PlayedInRange(before[k].tree, feds[k], before[k].phaseTime, before[k].volume);
    }
    SumBounded(outs, shares);
  }

  /** The frames it takes to fill a buffer; the last one may reach beyond the end. */
  function Frames(sampleNum: int, chnum: int): int
    requires chnum > 0
  {
    if sampleNum <= 0 then 0 else (sampleNum - 1) / chnum + 1
  }

  /** The samples that a number of frames has. */
  function Samples(n: int, chnum: int): int {
    n * chnum
  }

  /** The last frame stays inside a buffer of `sampleNum` samples exactly if frames divide it;
      otherwise it is written beyond the end. */
  lemma BufferHoldsFrames(sampleNum: nat, chnum: nat)
    requires chnum > 0
    ensures Samples(Frames(sampleNum, chnum), chnum) <= sampleNum <==> sampleNum % chnum == 0
  {
    var q, r := sampleNum / chnum, sampleNum % chnum;
    assert sampleNum == q * chnum + r;
    assert (q + 1) * chnum == q * chnum + chnum && (q - 1) * chnum == q * chnum - chnum;
    if r > 0 {
      DivIs(sampleNum - 1, chnum, q);
    } else if sampleNum > 0 {
      DivIs(sampleNum - 1, chnum, q - 1);
    }
  }

  lemma NoSamples(chnum: int)
    ensures Samples(0, chnum) == 0
  {
  }

  /** The samples of a frame are the ones at the indices that divide to its number. */
  lemma FrameIndex(f: int, chnum: int, j: int)
    requires chnum > 0 && f * chnum <= j < (f + 1) * chnum
    ensures j / chnum == f
  {
    DivIs(j, chnum, f);
  }

  /** Every sample of the frames so far is the 16-bit value of its frame's mix. */
  ghost predicate Filled(samples: seq<int>, mix: seq<int>, chnum: int) {
    && chnum > 0 && Samples(|mix|, chnum) <= |samples|
    && forall j :: 0 <= j < Samples(|mix|, chnum) ==> 0 <= j / chnum < |mix| && samples[j] == Int16(mix[j / chnum])
  }

  lemma FilledNone(samples: seq<int>, chnum: int)
    requires chnum > 0
    ensures Filled(samples, [], chnum)
  {
  }

  lemma FilledMore(before: seq<int>, after: seq<int>, mix: seq<int>, out: int, chnum: int)
    requires Filled(before, mix, chnum) && |after| == |before| && Samples(|mix| + 1, chnum) <= |after|
    requires forall j :: 0 <= j < Samples(|mix|, chnum) ==> after[j] == before[j]
    requires forall j :: Samples(|mix|, chnum) <= j < Samples(|mix|, chnum) + chnum ==> after[j] == Int16(out)
    ensures Filled(after, mix + [out], chnum)
  {
    var n := |mix|;
    assert (n + 1) * chnum == n * chnum + chnum;
    forall j | 0 <= j < (n + 1) * chnum ensures 0 <= j / chnum < n + 1 && after[j] == Int16((mix + [out])[j / chnum]) {
      if j >= n * chnum { FrameIndex(n, chnum, j); }
    }
  }

  /** If no mix is out of range, the samples are the mixes themselves. */
  lemma FilledQuietly(samples: seq<int>, mix: seq<int>, chnum: int)
    requires Filled(samples, mix, chnum) && forall f :: 0 <= f < |mix| ==> -SHRT_MAX <= mix[f] <= SHRT_MAX
    ensures forall j :: 0 <= j < Samples(|mix|, chnum) ==>
              0 <= j / chnum < |mix| && samples[j] == mix[j / chnum] && -SHRT_MAX <= samples[j] <= SHRT_MAX
  {
    hide Int16;
    forall f | 0 <= f < |mix| ensures Int16(mix[f]) == mix[f] {
      Int16Keeps(mix[f]);
    }
  }

  /**
    fmsynth_rendering; the ghost `mix` has the sum of the sounds for each frame, and `states`
    what the sounds were before and after it.
  */
  method Render(sounds: seq<Sound>, sample: array<int>, sampleNum: int, chnum: int, maxPhaseTime: int,
                ghost initial: seq<SoundState>, ghost shares: seq<int>)
    returns (bytes: int, ghost mix: seq<int>, ghost states: seq<seq<SoundState>>)
    requires Apart(sounds) && chnum > 0 && sample !in Objects(sounds) && Are(sounds, initial)
    requires Samples(Frames(sampleNum, chnum), chnum) <= sample.Length
    modifies Objects(sounds), sample
    ensures Apart(sounds) && |mix| == Frames(sampleNum, chnum)
    ensures FrameSteps(states, mix, maxPhaseTime)
    ensures |states| == |mix| + 1 && states[0] == initial && Are(sounds, states[|mix|])
    ensures Filled(sample[..], mix, chnum)
    ensures forall j :: Samples(|mix|, chnum) <= j < sample.Length ==> sample[j] == old(sample[j])
    ensures bytes == 2 * (if sampleNum < 0 then -chnum else Samples(sampleNum / chnum, chnum))
    ensures Quiet(initial, shares) ==>
              forall j :: 0 <= j < Samples(|mix|, chnum) ==>
                0 <= j / chnum < |mix| && sample[j] == mix[j / chnum] && -SHRT_MAX <= sample[j] <= SHRT_MAX
  {
    hide Frames, Quiet, Int16, Filled, FrameSteps, FrameStep, Are, Samples, Apart, Objects;
    NoSamples(chnum);
    var i := 0;
    mix, states := [], [initial];
    FilledNone(sample[..], chnum);
    FrameStepsNone(initial, maxPhaseTime);
    while i < sampleNum
      invariant Apart(sounds) && Objects(sounds) == old(Objects(sounds))
      invariant i == Samples(|mix|, chnum) && (|mix| > 0 ==> i - chnum < sampleNum)
      invariant i <= sample.Length
      invariant Filled(sample[..], mix, chnum)
      invariant FrameSteps(states, mix, maxPhaseTime)
      invariant |states| == |mix| + 1 && states[0] == initial && Are(sounds, states[|mix|])
      invariant forall j :: i <= j < sample.Length ==> sample[j] == old(sample[j])
      invariant Quiet(initial, shares) ==> Quiet(states[|mix|], shares) && forall f :: 0 <= f < |mix| ==> -SHRT_MAX <= mix[f] <= SHRT_MAX
      decreases sampleNum - i
    {
      RoomForFrame(|mix|, sampleNum, chnum);
      ghost var before := sample[..];
      var out, after := RenderFrame(sounds, sample, i, chnum, maxPhaseTime, states[|mix|], shares);
      FilledMore(before, sample[..], mix, out, chnum);
      FrameStepsMore(states, mix, out, after, maxPhaseTime);
      mix, states := mix + [out], states + [after];
      i := i + chnum;
    }
    FramesAre(|mix|, sampleNum, chnum);
    if Quiet(initial, shares) {
      FilledQuietly(sample[..], mix, chnum);
    }
    if i > sampleNum {
      i := i - chnum;
    }
    bytes := i * 2;
  }

  /** Before a frame is started there is room for it. */
  lemma RoomForFrame(n: nat, sampleNum: int, chnum: int)
    requires chnum > 0 && Samples(n, chnum) < sampleNum
    ensures Samples(n + 1, chnum) == Samples(n, chnum) + chnum <= Samples(Frames(sampleNum, chnum), chnum)
  {
    assert (n + 1) * chnum == n * chnum + chnum;
    DivGrows(n * chnum, sampleNum - 1, chnum);
    DivIs(n * chnum, chnum, n);
    MulKeepsOrder(n + 1, Frames(sampleNum, chnum), chnum);
  }

  /** The number of frames, and how far whole frames reach. */
  lemma FramesAre(n: nat, sampleNum: int, chnum: int)
    requires chnum > 0 && Samples(n, chnum) >= sampleNum && (n > 0 ==> Samples(n, chnum) - chnum < sampleNum)
    ensures n == Frames(sampleNum, chnum) && (sampleNum <= 0 ==> n == 0 && Samples(n, chnum) == 0)
    ensures sampleNum >= 0 ==>
              Samples(sampleNum / chnum, chnum) == Samples(n, chnum) - if Samples(n, chnum) > sampleNum then chnum else 0
  {
    if n > 0 {
      assert (n - 1 + 1) * chnum == n * chnum;
      DivIs(sampleNum - 1, chnum, n - 1);
      if n * chnum > sampleNum {
        DivIs(sampleNum, chnum, n - 1);
        assert (n - 1) * chnum == n * chnum - chnum;
      } else {
        DivIs(sampleNum, chnum, n);
      }
    } else if sampleNum == 0 {
      DivIs(0, chnum, 0);
    }
  }

  ghost method Snapshot(sounds: seq<Sound>) returns (states: seq<SoundState>)
    requires Apart(sounds)
    ensures Are(sounds, states)
  {
    states := [];
    for i := 0 to |sounds|
      invariant |states| == i
      invariant forall k :: 0 <= k < i ==>
        states[k] == SoundState(sounds[k].Tree(), sounds[k].phaseTime, sounds[k].volume)
    {
      states := states + [SoundState(sounds[i].Tree(), sounds[i].phaseTime, sounds[i].volume)];
    }
  }

  ghost method ObjectsOf(sounds: seq<Sound>) returns (objects: seq<set<object>>)
    ensures |objects| == |sounds| && forall k :: 0 <= k < |sounds| ==> objects[k] == sounds[k].repr
  {
    objects := [];
    for i := 0 to |sounds|
      invariant |objects| == i && forall k :: 0 <= k < i ==> objects[k] == sounds[k].repr
    {
      objects := objects + [sounds[i].repr];
    }
  }

  ghost function Union(objects: seq<set<object>>): set<object> {
    set k, o | 0 <= k < |objects| && o in objects[k] :: o
  }

  lemma ObjectsAre(sounds: seq<Sound>, objects: seq<set<object>>)
    requires |objects| == |sounds| && forall k :: 0 <= k < |sounds| ==> objects[k] == sounds[k].repr
    ensures Objects(sounds) == Union(objects)
  {
    forall o ensures o in Objects(sounds) <==> o in Union(objects) {
      if o in Objects(sounds) {
        var s :| s in sounds && o in s.repr;
        var k :| 0 <= k < |sounds| && sounds[k] == s;
        assert o in objects[k];
      }
      if o in Union(objects) {
        var k :| 0 <= k < |objects| && o in objects[k];
        assert sounds[k] in sounds;
      }
    }
  }

  /** A sample, and what the sounds are before and after it. */
  method MixStates(sounds: seq<Sound>, maxPhaseTime: int, ghost before: seq<SoundState>)
    returns (out: int, ghost after: seq<SoundState>, ghost outs: seq<int>, ghost feds: seq<Row>)
    requires Apart(sounds) && Are(sounds, before)
    modifies Objects(sounds)
    ensures Apart(sounds) && Objects(sounds) == old(Objects(sounds))
    ensures Are(sounds, after) && FrameBy(before, after, outs, feds, maxPhaseTime) && out == Sum(outs)
  {
    hide FmOperator.Modulate, Refed, Able, CDiv, TookIn, Earlier, Sound.Nodes, NextPhaseTime, Sum, Sound.Tree, Sound.Valid, Union;
    ghost var objects := ObjectsOf(sounds);
    ObjectsAre(sounds, objects);
    out, outs, feds := Mix(sounds, maxPhaseTime, objects);
    ObjectsAre(sounds, objects);
    after := Snapshot(sounds);
    forall k | 0 <= k < |sounds| ensures SoundStep(before[k], after[k], outs[k], feds[k], maxPhaseTime) {
      assert Played(sounds[k], outs[k], maxPhaseTime, feds[k]);
    }
  }

  /** A frame; quiet sounds are in range and stay quiet. */
  method MixFrame(sounds: seq<Sound>, maxPhaseTime: int, ghost before: seq<SoundState>, ghost shares: seq<int>)
    returns (out: int, ghost after: seq<SoundState>)
    requires Apart(sounds) && Are(sounds, before)
    modifies Objects(sounds)
    ensures Apart(sounds) && Objects(sounds) == old(Objects(sounds))
    ensures Are(sounds, after) && FrameStep(before, after, out, maxPhaseTime)
    ensures Quiet(before, shares) ==> Quiet(after, shares) && -SHRT_MAX <= out <= SHRT_MAX
  {
    hide Quiet, FrameBy, Sum;
    ghost var outs, feds;
    out, after, outs, feds := MixStates(sounds, maxPhaseTime, before);
    if Quiet(before, shares) {
      QuietFrame(before, after, outs, feds, maxPhaseTime, shares);
    }
  }

  /** A frame, put on all channels. */
  method RenderFrame(sounds: seq<Sound>, sample: array<int>, i: nat, chnum: int, maxPhaseTime: int,
                     ghost before: seq<SoundState>, ghost shares: seq<int>)
    returns (out: int, ghost after: seq<SoundState>)
    requires Apart(sounds) && Are(sounds, before) && sample !in Objects(sounds)
    requires chnum > 0 && i + chnum <= sample.Length
    modifies Objects(sounds), sample
    ensures Apart(sounds) && Objects(sounds) == old(Objects(sounds))
    ensures Are(sounds, after) && FrameStep(before, after, out, maxPhaseTime)
    ensures Quiet(before, shares) ==> Quiet(after, shares) && -SHRT_MAX <= out <= SHRT_MAX
    ensures forall j :: 0 <= j < sample.Length ==>
              sample[j] == if i <= j < i + chnum then Int16(out) else old(sample[j])
  {
    hide Quiet, FrameStep, Int16;
    out, after := MixFrame(sounds, maxPhaseTime, before, shares);
    Spread(sample, i, chnum, Int16(out));
  }

  /** The same value on every channel. */
  method Spread(sample: array<int>, i: nat, chnum: int, value: int)
    requires chnum > 0 && i + chnum <= sample.Length
    modifies sample
    ensures forall j :: i <= j < i + chnum ==> sample[j] == value
    ensures forall j :: 0 <= j < i || i + chnum <= j < sample.Length ==> sample[j] == old(sample[j])
  {
    for ch := 0 to chnum
      invariant forall j :: i <= j < i + ch ==> sample[j] == value
      invariant forall j :: 0 <= j < i || i + ch <= j < sample.Length ==> sample[j] == old(sample[j])
    {
      sample[i + ch] := value;
    }
  }
}
