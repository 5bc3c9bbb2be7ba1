/**
  The wave generators of the FM synthesizer, on phases that are any integers.  A period is
  2 PI = 131072 steps and an amplitude is at most 32767.
*/
module FmWave {
  import opened CInt
  import opened FmSineTable

  const PI: int := 0x10000
  const HALF: int := 0x8000

  /** PHASE_ADJUST: negative phases are mirrored before they are reduced. */
  function PhaseAdjust(theta: int): (t: int)
    ensures 0 <= t < 2 * PI
  {
    (if theta < 0 then PI - theta else theta) % (2 * PI)
  }

  /** From entry `a` towards entry `b`, `rest` of 128 steps; the shift rounds down. */
  function Interpolate(a: nat, b: nat, rest: nat): int
    requires 1 <= a <= 257 && 1 <= b <= 257
  {
    Entry(a) + (Entry(b) - Entry(a)) * rest / 128
  }

  /** The table, looked up for a phase of the first period. */
  function LookUp(t: int): int
    requires 0 <= t < 2 * PI
  {
    var rest, phase, idx := t % 128, t / HALF, t % HALF / 128;
    var value := if phase % 2 == 1 then Interpolate(257 - idx, 256 - idx, rest)
                 else Interpolate(idx + 1, idx + 2, rest);
    if phase / 2 % 2 == 1 then -value else value
  }

  /** pseudo_sin256 */
  function PseudoSin(theta: int): int {
    LookUp(PhaseAdjust(theta))
  }

  // ----- A quarter and the whole -----

  /** The rising quarter, both ends included. */
  function Quarter(x: nat): int
    requires x <= HALF
  {
    if x == HALF then Entry(257) else Interpolate(x / 128 + 1, x / 128 + 2, x % 128)
  }

  /** A period made of one quarter, mirrored and negated. */
  function Arch(t: int): int
    requires 0 <= t < 2 * PI
  {
    if t <= PI then Quarter(if t <= HALF then t else PI - t)
    else -Quarter(if t - PI <= HALF then t - PI else 2 * PI - t)
  }

  /** Interpolating downwards from the other end gives the same value, rounding included. */
  lemma InterpolateMirrored(a: nat, b: nat, rest: nat)
    requires 1 <= a <= 257 && 1 <= b <= 257 && 0 <= rest <= 128
    ensures Interpolate(b, a, 128 - rest) == Interpolate(a, b, rest)
  {
    hide Entry;
    var d := Entry(b) - Entry(a);
    assert (Entry(a) - Entry(b)) * (128 - rest) == -d * 128 + d * rest;
    DivAdds(-d, d * rest, 128);
  }

  lemma InterpolateAtStart(a: nat, b: nat)
    requires 1 <= a <= 257 && 1 <= b <= 257
    ensures Interpolate(a, b, 0) == Entry(a)
  {
  }

  lemma FallingQuarter(u: nat)
    requires u < HALF
    ensures Interpolate(257 - u / 128, 256 - u / 128, u % 128) == Quarter(HALF - u)
  {
    hide Entry;
    var i, r := u / 128, u % 128;
    var x := HALF - u;
    if r == 0 {
      InterpolateAtStart(257 - i, 256 - i);
      if u > 0 {
        assert x / 128 == 256 - i && x % 128 == 0;
        InterpolateAtStart(257 - i, 258 - i);
      }
    } else {
      assert x / 128 == 255 - i && x % 128 == 128 - r;
      InterpolateMirrored(256 - i, 257 - i, 128 - r);
    }
  }

  lemma EntryStart()
    ensures Entry(1) == 0
  {
  }

  lemma PeriodParts(t: int)
    requires 0 <= t < 2 * PI
    ensures PhaseAdjust(t) == t && t % HALF % 128 == t % 128
    ensures 0 <= t / HALF < 4 && t == t / HALF * HALF + t % HALF && 0 <= t % HALF < HALF
  {
  }

  lemma SinOnPeriod(t: int)
    requires 0 <= t < 2 * PI
    ensures PseudoSin(t) == Arch(t)
  {
    hide Entry, Interpolate, Quarter, PhaseAdjust;
    var u, phase := t % HALF, t / HALF;
    PeriodParts(t);
    FallingQuarter(u);
    RisingQuarter(u);
    QuarterAtZero();
    match phase
    case 0 =>
    case 1 =>
    case 2 =>
    case 3 =>
  }

  lemma RisingQuarter(u: nat)
    requires u < HALF
    ensures Interpolate(u / 128 + 1, u / 128 + 2, u % 128) == Quarter(u)
  {
  }

  lemma QuarterAtZero()
    ensures Quarter(0) == 0
  {
    hide Row;
    EntryStart();
    InterpolateAtStart(1, 2);
  }

  lemma ArchMirrored(t: int)
    requires 0 <= t < 2 * PI
    ensures Arch((PI - t) % (2 * PI)) == Arch(t)
  {
    hide Quarter;
    assert t <= PI ==> (PI - t) % (2 * PI) == PI - t;
    assert t > PI ==> (PI - t) % (2 * PI) == 3 * PI - t;
  }

  lemma ArchHalfPeriod(t: int)
    requires 0 <= t < 2 * PI
    ensures Arch((t + PI) % (2 * PI)) == -Arch(t)
  {
    hide Quarter;
    QuarterAtZero();
    assert t < PI ==> (t + PI) % (2 * PI) == t + PI;
    assert t >= PI ==> (t + PI) % (2 * PI) == t - PI;
  }

  // ----- The sine on all integers -----

  /** The remap of negative phases is the periodic extension. */
  lemma SinIsPeriodicExtension(theta: int)
    ensures PseudoSin(theta) == Arch(theta % (2 * PI))
  {
    hide PseudoSin, Arch;
    AdjustOnce(theta);
    SinOnPeriod(PhaseAdjust(theta));
    if theta < 0 {
      var m := theta % (2 * PI);
      assert PhaseAdjust(theta) == (PI - m) % (2 * PI);
      ArchMirrored(m);
    }
  }

  lemma AdjustOnce(theta: int)
    ensures PseudoSin(PhaseAdjust(theta)) == PseudoSin(theta)
  {
    hide LookUp;
    var t := PhaseAdjust(theta);
    PeriodParts(t);
  }

  lemma SinPeriod(theta: int)
    ensures PseudoSin(theta + 2 * PI) == PseudoSin(theta)
  {
    hide PseudoSin, Arch;
    SinIsPeriodicExtension(theta);
    SinIsPeriodicExtension(theta + 2 * PI);
  }

  lemma SinMirrored(theta: int)
    ensures PseudoSin(PI - theta) == PseudoSin(theta)
  {
    hide PseudoSin, Arch;
    var m := theta % (2 * PI);
    SinIsPeriodicExtension(theta);
    SinIsPeriodicExtension(PI - theta);
    assert (PI - theta) % (2 * PI) == (PI - m) % (2 * PI);
    ArchMirrored(m);
  }

  lemma SinHalfPeriod(theta: int)
    ensures PseudoSin(theta + PI) == -PseudoSin(theta)
  {
    hide PseudoSin, Arch;
    var m := theta % (2 * PI);
    SinIsPeriodicExtension(theta);
    SinIsPeriodicExtension(theta + PI);
    assert (theta + PI) % (2 * PI) == (m + PI) % (2 * PI);
    ArchHalfPeriod(m);
  }

  lemma SinOdd(theta: int)
    ensures PseudoSin(-theta) == -PseudoSin(theta)
  {
    hide PseudoSin;
    SinHalfPeriod(-theta);
    SinMirrored(theta);
    assert -theta + PI == PI - theta;
  }

  // ----- Amplitudes -----

  lemma InterpolateBetween(a: nat, rest: nat)
    requires 1 <= a < 257 && rest <= 128
    ensures Entry(a) <= Interpolate(a, a + 1, rest) <= Entry(a + 1)
  {
    hide Entry;
    EntryRises(a);
    var d := Entry(a + 1) - Entry(a);
    MulKeepsOrder(0, rest, d);
    MulKeepsOrder(rest, 128, d);
    DivGrows(0, d * rest, 128);
    DivGrows(d * rest, d * 128, 128);
    DivIs(d * 128, 128, d);
  }

  lemma QuarterInRange(x: nat)
    requires x <= HALF
    ensures 0 <= Quarter(x) <= SHRT_MAX
  {
    hide Interpolate, Row;
    if x < HALF {
      InterpolateBetween(x / 128 + 1, x % 128);
      EntryRises(x / 128 + 1);
    }
  }

  lemma SinInRange(theta: int)
    ensures -SHRT_MAX <= PseudoSin(theta) <= SHRT_MAX
  {
    hide PseudoSin, Quarter;
    var t := theta % (2 * PI);
    SinIsPeriodicExtension(theta);
    if t <= PI {
      QuarterInRange(if t <= HALF then t else PI - t);
    } else {
      QuarterInRange(if t - PI <= HALF then t - PI else 2 * PI - t);
    }
  }

  lemma {:induction false} EntriesRise(a: nat, b: nat)
    requires 1 <= a <= b <= 257
    ensures Entry(a) <= Entry(b)
    decreases b - a
  {
    hide Entry;
    if a < b {
      EntriesRise(a, b - 1);
      EntryRises(b - 1);
    }
  }

  lemma QuarterRises(x: nat, y: nat)
    requires x <= y <= HALF
    ensures Quarter(x) <= Quarter(y)
  {
    hide Entry;
    if x < HALF {
      var i, r := x / 128 + 1, x % 128;
      var j, s := y / 128 + 1, y % 128;
      EntryRises(i);
      if y == HALF {
        InterpolateBetween(i, r);
        EntriesRise(i + 1, 257);
      } else if i == j {
        var d := Entry(i + 1) - Entry(i);
        MulKeepsOrder(r, s, d);
        DivGrows(d * r, d * s, 128);
      } else {
        InterpolateBetween(i, r);
        InterpolateBetween(j, s);
        EntriesRise(i + 1, j);
      }
    }
  }

  /** From the trough to the crest the sine does not fall. */
  lemma SinRises(x: int, y: int)
    requires -HALF <= x <= y <= HALF
    ensures PseudoSin(x) <= PseudoSin(y)
    ensures PseudoSin(0) == 0 && PseudoSin(HALF) == SHRT_MAX
  {
    hide PseudoSin, Quarter;
    RisingHalf(x);
    RisingHalf(y);
    RisingHalf(0);
    RisingHalf(HALF);
    QuarterAtZero();
    QuarterAtTop();
    if x >= 0 {
      QuarterRises(x, y);
    } else if y <= 0 {
      QuarterRises(-y, -x);
    } else {
      QuarterInRange(-x);
      QuarterInRange(y);
    }
  }

  lemma RisingHalf(x: int)
    requires -HALF <= x <= HALF
    ensures PseudoSin(x) == if x >= 0 then Quarter(x) else -Quarter(-x)
  {
    hide PseudoSin, Quarter;
    if x >= 0 {
      SinIsPeriodicExtension(x);
    } else {
      SinOdd(-x);
      SinIsPeriodicExtension(-x);
    }
  }

  /** Between two entries of the table the sine is interpolated, and rounded down. */
  lemma SinInterpolates(i: nat, rest: nat)
    requires i < 256 && rest < 128
    ensures var v, a, b := PseudoSin(128 * i + rest), Entry(i + 1), Entry(i + 2);
            128 * (v - a) <= (b - a) * rest < 128 * (v - a + 1)
  {
    hide Entry;
    var x := 128 * i + rest;
    assert x / 128 == i && x % 128 == rest;
    SinIsPeriodicExtension(x);
    SinOnPeriod(x);
    Fits((Entry(i + 2) - Entry(i + 1)) * rest, 128);
  }

  lemma QuarterAtTop()
    ensures Quarter(HALF) == SHRT_MAX
  {
  }

  // ----- The other generators -----

  /** triangle_wave */
  function Triangle(theta: int): int {
    var t := PhaseAdjust(theta);
    var phase, offset := t / HALF, t % HALF;
    match phase
    case 0 => SHRT_MAX * offset / HALF
    case 1 => SHRT_MAX + -SHRT_MAX * offset / HALF
    case 2 => -SHRT_MAX * offset / HALF
    case _ => -SHRT_MAX + SHRT_MAX * offset / HALF
  }

  /** A zigzag of one period: up to a quarter, down to the third, and up again. */
  function Zigzag(t: int): int {
    if t <= HALF then t else if t <= 3 * HALF then PI - t else t - 2 * PI
  }

  /** The triangle is the zigzag at full amplitude, rounded down. */
  lemma TriangleIsZigzag(theta: int)
    ensures var z := SHRT_MAX * Zigzag(PhaseAdjust(theta));
            Triangle(theta) * HALF <= z < (Triangle(theta) + 1) * HALF
  {
    hide PhaseAdjust;
    var t := PhaseAdjust(theta);
    var phase, offset := t / HALF, t % HALF;
    assert t == phase * HALF + offset && 0 <= phase < 4;
    Fits(SHRT_MAX * offset, HALF);
    Fits(-SHRT_MAX * offset, HALF);
  }

  /** Phases are taken modulo a period, and negative ones are those of the opposite value. */
  lemma PhaseIs(theta: int)
    ensures theta >= 0 ==> PhaseAdjust(theta) == theta % (2 * PI)
    ensures theta < 0 ==> PhaseAdjust(theta) == PhaseAdjust(PI - theta)
    ensures theta < 0 ==> Zigzag(PhaseAdjust(theta)) == -Zigzag(PhaseAdjust(-theta))
  {
    var x := -theta;
    if x > 0 {
      var t := x % (2 * PI);
      if t < PI {
        ModIs(PI + x, x / (2 * PI), t + PI);
      } else {
        ModIs(PI + x, x / (2 * PI) + 1, t - PI);
      }
    }
  }

  lemma ModIs(a: int, q: int, r: int)
    requires a == q * (2 * PI) + r && 0 <= r < 2 * PI
    ensures a % (2 * PI) == r
  {
  }

  lemma TriangleInRange(theta: int)
    ensures -SHRT_MAX <= Triangle(theta) <= SHRT_MAX
  {
  }

  /** sawtooth_wave */
  function Sawtooth(theta: int): int {
    PhaseAdjust(theta) / 2 - SHRT_MAX
  }

  /** The sawtooth goes one above the range, on the last two steps of each period only. */
  lemma SawtoothInRange(theta: int)
    ensures -SHRT_MAX <= Sawtooth(theta) <= SHRT_MAX + 1
    ensures Sawtooth(theta) <= SHRT_MAX <==> PhaseAdjust(theta) < 2 * PI - 2
  {
  }

  /** It rises by one every two steps, from the lowest value. */
  lemma SawtoothRises(theta: int)
    requires theta >= 0
    ensures Sawtooth(2 * PI * theta) == -SHRT_MAX
    ensures (theta + 2) % (2 * PI) >= 2 ==> Sawtooth(theta + 2) == Sawtooth(theta) + 1
  {
    assert 2 * PI * theta % (2 * PI) == 0;
  }

  /** square_wave */
  function Square(theta: int): int {
    if PhaseAdjust(theta) < PI then SHRT_MAX else -SHRT_MAX
  }

  /** Each half of a period has one value, and the other half the opposite. */
  lemma SquareIs(theta: int)
    ensures 0 <= theta < PI ==> Square(theta) == 32767
    ensures theta >= 0 ==> Square(theta + PI) == -Square(theta)
    ensures theta < 0 ==> Square(theta) == -Square(-theta)
    decreases theta < 0
  {
    if theta >= 0 {
      var t := theta % (2 * PI);
      if t < PI {
        ModIs(theta + PI, theta / (2 * PI), t + PI);
      } else {
        ModIs(theta + PI, theta / (2 * PI) + 1, t - PI);
      }
    } else {
      SquareIs(-theta);
    }
  }
}
