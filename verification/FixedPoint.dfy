/** Table interpolation in 32-bit fixed point: two truncating high-word multiplies and a shift. */
module FixedPoint {

  import opened MachineTypes

  const TWO_9 := 0x200
  const TWO_10 := 0x400
  const TWO_11 := 0x800
  const TWO_16 := 0x1_0000
  const TWO_20 := 0x10_0000
  const TWO_21 := 0x20_0000
  const TWO_22 := 0x40_0000
  const INT32_MAX := TWO_31 - 1

  /** `smmul`: the high word of the signed 64-bit product. */
  function Smmul(a: Int32, b: Int32): Int32 {
    ToInt32(a * b / TWO_32)
  }

  /** `smmla`: the same, added to a third operand in 64 bits before the low word is dropped. */
  function Smmla(a: Int32, b: Int32, c: Int32): Int32 {
    ToInt32((c * TWO_32 + a * b) / TWO_32)
  }

  /** `ssat` to `bits` bits, for a bound of two to the power `bits - 1`. */
  function Saturate(x: Int32, bound: int): (r: int)
    requires 0 < bound <= TWO_31
    ensures -bound <= r < bound
  {
    if x < -bound then -bound else if x >= bound then bound - 1 else x
  }

  function Accumulate(y1: Int32, y2: Int32, pf: Int32): Int32
    requires 0 <= pf
  {
    Smmla(y2, pf, Smmul(y1, INT32_MAX - pf))
  }

  function Interpolate(y1: Int32, y2: Int32, pf: Int32): Int32
    requires 0 <= pf
  {
    ToInt32(2 * Accumulate(y1, y2, pf))
  }

  /** `r` lies in (-5, 1] around the exact linear interpolation between `y1` and `y2` at the
    * fraction `f / one`. */
  predicate Near(r: int, y1: int, y2: int, f: int, one: int) {
    -5 * one < one * r - (y1 * (one - f) + y2 * f) <= one
  }

  // ---- One interpolation ----

  lemma Scale(y: Int32, w: nat)
    ensures -TWO_31 * w <= y * w <= INT32_MAX * w
  {
  }

  lemma HighWord(a: int, w: nat)
    requires w <= INT32_MAX && -TWO_31 * w <= a <= INT32_MAX * w
    ensures 0 - w - 1 <= 2 * (a / TWO_32) <= w && (0 < w ==> 2 * (a / TWO_32) < w)
  {
  }

  lemma Wraps(a: int, b: int)
    requires -TWO_31 <= a / TWO_32 < TWO_31 && -TWO_31 <= a / TWO_32 + b / TWO_32 < TWO_31
    ensures ToInt32(a / TWO_32) == a / TWO_32
    ensures ToInt32((a / TWO_32 * TWO_32 + b) / TWO_32) == a / TWO_32 + b / TWO_32
  {
    assert (a / TWO_32 * TWO_32 + b) / TWO_32 == a / TWO_32 + b / TWO_32;
  }

  lemma SumFits(a: int, b: int, pf: nat)
    requires pf <= INT32_MAX && pf % 2 == 0
    requires var w := INT32_MAX - pf; 0 - w - 1 <= 2 * a <= w && (0 < w ==> 2 * a < w)
    requires 0 - pf - 1 <= 2 * b <= pf && (0 < pf ==> 2 * b < pf)
    ensures -TWO_31 <= a < TWO_31 && -TWO_31 <= 2 * (a + b) < TWO_31
  {
  }

  /** Neither multiply, nor the accumulate, nor the final shift wraps. */
  lemma NoOverflow(y1: Int32, y2: Int32, pf: Int32)
    requires 0 <= pf && pf % 2 == 0
    ensures var sum := y1 * (INT32_MAX - pf) / TWO_32 + y2 * pf / TWO_32;
      && -TWO_31 <= 2 * sum < TWO_31
      && Accumulate(y1, y2, pf) == sum
      && Interpolate(y1, y2, pf) == 2 * sum
  {
    hide ToInt32;
    var pfc := INT32_MAX - pf;
    var (a, b) := (y1 * pfc, y2 * pf);
    Scale(y1, pfc);
    Scale(y2, pf);
    HighWord(a, pfc);
    HighWord(b, pf);
    SumFits(a / TWO_32, b / TWO_32, pf);
    Wraps(a, b);
    InRange(2 * (a / TWO_32 + b / TWO_32));
  }

  lemma InRange(x: int)
    requires -TWO_31 <= x < TWO_31
    ensures ToInt32(x) == x
  {
  }

  lemma InterpolationError(y1: Int32, y2: Int32, pf: Int32)
    requires 0 <= pf && pf % 2 == 0
    ensures Near(Interpolate(y1, y2, pf), y1, y2, pf, TWO_31)
  {
    hide Interpolate;
    NoOverflow(y1, y2, pf);
    var (a, b) := (y1 * (INT32_MAX - pf), y2 * pf);
    assert a == y1 * (TWO_31 - pf) - y1;
  }

  lemma Rescaled(y1: int, y2: int, f: int, one: int, scale: int)
    ensures y1 * (one * scale - f * scale) + y2 * (f * scale) == (y1 * (one - f) + y2 * f) * scale
  {
    calc {
      y1 * (one * scale - f * scale) + y2 * (f * scale);
      y1 * ((one - f) * scale) + y2 * (f * scale);
      (y1 * (one - f)) * scale + (y2 * f) * scale;
      (y1 * (one - f) + y2 * f) * scale;
    }
  }

  lemma Twice(x: int)
    ensures 2 * x % 2 == 0
  {
  }

  lemma ScaledFraction(f: nat, one: nat, half: nat)
    requires half > 0 && one * (2 * half) == TWO_31 && f < one
    ensures 0 <= f * (2 * half) < TWO_31 && f * (2 * half) % 2 == 0
  {
    Ordered(f + 1, one, 2 * half);
    assert f * (2 * half) == 2 * (f * half);
    Twice(f * half);
  }

  lemma Regrouped(one: int, scale: int, r: int, x: int)
    ensures one * scale * r - x * scale == (one * r - x) * scale
  {
    assert one * scale * r == (one * r) * scale;
  }

  /** The fraction bits of a phase, scaled up to 31 bits, give the same interpolation. */
  lemma ErrorAt(y1: Int32, y2: Int32, f: nat, one: nat, half: nat)
    requires half > 0 && one * (2 * half) == TWO_31 && f < one
    ensures var pf := f * (2 * half); 0 <= pf < TWO_31 && pf % 2 == 0 && Near(Interpolate(y1, y2, pf), y1, y2, f, one)
  {
    hide Interpolate;
    var scale := 2 * half;
    ScaledFraction(f, one, half);
    var pf: Int32 := f * scale;
    InterpolationError(y1, y2, pf);
    var (r, x) := (Interpolate(y1, y2, pf), y1 * (one - f) + y2 * f);
    Rescaled(y1, y2, f, one, scale);
    Regrouped(one, scale, r, x);
    Divide(one * r - x, one, scale);
  }

  lemma Divide(d: int, one: nat, scale: nat)
    requires scale > 0 && -5 * (one * scale) < d * scale <= one * scale
    ensures -5 * one < d <= one
  {
    Ordered(d, -5 * one, scale);
    Ordered(one + 1, d, scale);
  }

  lemma Ordered(a: int, b: int, scale: nat)
    ensures a <= b ==> a * scale <= b * scale
  {
  }

  // ---- The four table functions ----

  /** The sine of a phase; a full turn is 2^32, the table holds 4096 steps of it. */
  function SinQ31(table: seq<Int32>, phase: Int32): Int32
    requires |table| == 4097
  {
    var p := ToUint32(phase);
    var pi := p / TWO_20;
    Interpolate(table[pi], table[1 + pi], p % TWO_20 * TWO_11)
  }

  lemma SinIsNear(table: seq<Int32>, phase: Int32)
    requires |table| == 4097
    ensures var (k, f) := (ToUint32(phase) / TWO_20, ToUint32(phase) % TWO_20);
      0 <= k < 4096 && Near(SinQ31(table, phase), table[k], table[k + 1], f, TWO_20)
  {
    hide Interpolate, Near;
    var (k, f) := (ToUint32(phase) / TWO_20, ToUint32(phase) % TWO_20);
    ErrorAt(table[k], table[k + 1], f, TWO_20, TWO_11 / 2);
  }

  /** The window function, from 16-bit entries; the value is returned as an unsigned word. */
  function HannQ31(table: seq<Int16>, phase: Int32): Uint32
    requires |table| == 1025
  {
    var p := ToUint32(phase);
    var pi := p / TWO_22;
    ToUint32(Interpolate(table[pi] * TWO_16, table[1 + pi] * TWO_16, p % TWO_22 * TWO_9))
  }

  lemma HannIsNear(table: seq<Int16>, phase: Int32)
    requires |table| == 1025
    ensures var (k, f) := (ToUint32(phase) / TWO_22, ToUint32(phase) % TWO_22);
      0 <= k < 1024 && Near(ToInt32(HannQ31(table, phase)), table[k] * TWO_16, table[k + 1] * TWO_16, f, TWO_22)
  {
    hide Interpolate, Near;
    var (k, f) := (ToUint32(phase) / TWO_22, ToUint32(phase) % TWO_22);
    ErrorAt(table[k] * TWO_16, table[k + 1] * TWO_16, f, TWO_22, TWO_9 / 2);
    ThereAndBack(Interpolate(table[k] * TWO_16, table[1 + k] * TWO_16, f * TWO_9));
  }

  lemma ThereAndBack(x: Int32)
    ensures ToInt32(ToUint32(x)) == x
  {
  }

  /** Pitch to frequency: saturate, look up by semitone, interpolate. The unsigned table index
    * wraps for negative pitches, and comes back into range when 128 is added. */
  function PitchToFrequency(table: seq<Uint32>, p: int): Uint32
    requires |table| == 257 && -0x1000_0000 <= p < 0x1000_0000
  {
    var pi := ToUint32(p / TWO_21);
    var (y1, y2) := (ToInt32(table[ToUint32(128 + pi)]), ToInt32(table[ToUint32(128 + 1 + pi)]));
    ToUint32(Interpolate(y1, y2, p % TWO_21 * TWO_10))
  }

  function Mtof48kQ31(table: seq<Uint32>, pitch: Int32): Uint32
    requires |table| == 257
  {
    PitchToFrequency(table, Saturate(pitch, 0x800_0000))
  }

  function Mtof48kExtQ31(table: seq<Uint32>, pitch: Int32): Uint32
    requires |table| == 257
  {
    PitchToFrequency(table, Saturate(pitch, 0x1000_0000))
  }

  lemma PitchIsNear(table: seq<Uint32>, p: int)
    requires |table| == 257 && -0x1000_0000 <= p < 0x1000_0000
    ensures var (k, f) := (128 + p / TWO_21, p % TWO_21);
      0 <= k < 256 && Near(ToInt32(PitchToFrequency(table, p)), ToInt32(table[k]), ToInt32(table[k + 1]), f, TWO_21)
  {
    hide Interpolate, Near, ToInt32, ToUint32;
    var (k, f) := (128 + p / TWO_21, p % TWO_21);
    PitchIndex(p / TWO_21);
    var (y1, y2) := (ToInt32(table[k]), ToInt32(table[k + 1]));
    ErrorAt(y1, y2, f, TWO_21, TWO_10 / 2);
    ThereAndBack(Interpolate(y1, y2, f * TWO_10));
  }

  lemma PitchIndex(q: int)
    requires -128 <= q < 128
    ensures ToUint32(128 + ToUint32(q)) == 128 + q && ToUint32(128 + 1 + ToUint32(q)) == 128 + 1 + q
  {
  }

  /** Both pitch functions stay inside the table for every pitch; the plain one uses its middle half. */
  lemma MtofIsNear(table: seq<Uint32>, pitch: Int32)
    requires |table| == 257
    ensures var p := Saturate(pitch, 0x800_0000); var (k, f) := (128 + p / TWO_21, p % TWO_21);
      64 <= k < 192 && Near(ToInt32(Mtof48kQ31(table, pitch)), ToInt32(table[k]), ToInt32(table[k + 1]), f, TWO_21)
    ensures var p := Saturate(pitch, 0x1000_0000); var (k, f) := (128 + p / TWO_21, p % TWO_21);
      0 <= k < 256 && Near(ToInt32(Mtof48kExtQ31(table, pitch)), ToInt32(table[k]), ToInt32(table[k + 1]), f, TWO_21)
  {
    hide Interpolate, Near, PitchToFrequency, ToInt32;
    PitchIsNear(table, Saturate(pitch, 0x800_0000));
    PitchIsNear(table, Saturate(pitch, 0x1000_0000));
  }

  /** A word read as a signed one. */
  function Signed(x: Uint32): int {
    if x < 0x8000_0000 then x else x - 0x1_0000_0000
  }

  /** A phase counted up from zero: negative phases are the second half of a turn. */
  function Turn(phase: Int32): (p: int)
    ensures 0 <= p < 0x1_0000_0000
  {
    if phase < 0 then phase + 0x1_0000_0000 else phase
  }

  lemma SignedWord(x: Uint32)
    ensures ToInt32(x) == Signed(x)
  {
  }

  lemma TurnOfPhase(phase: Int32)
    ensures ToUint32(phase) == Turn(phase)
  {
  }

  lemma Entry(p: int)
    requires -0x1000_0000 <= p < 0x1000_0000
    ensures 0 <= 128 + p / 0x20_0000 < 256
  {
  }

  /** In its range the plain function reads the entries of the pitch itself: entry 128 is pitch 0,
    * and a step of 2^21 is one entry. */
  lemma MtofOfPitch(table: seq<Uint32>, pitch: Int32)
    requires |table| == 257 && -0x800_0000 <= pitch < 0x800_0000
    ensures var (k, f) := (128 + pitch / 0x20_0000, pitch % 0x20_0000);
      && 0 <= k < 256
      && Near(Signed(Mtof48kQ31(table, pitch)), Signed(table[k]), Signed(table[k + 1]), f, 0x20_0000)
  {
    hide Mtof48kQ31, Mtof48kExtQ31, ToInt32, Signed, Near;
    Entry(pitch);
    MtofIsNear(table, pitch);
    SignedWord(Mtof48kQ31(table, pitch));
    SignedWord(table[128 + pitch / 0x20_0000]);
    SignedWord(table[128 + pitch / 0x20_0000 + 1]);
  }

  lemma MtofExtOfPitch(table: seq<Uint32>, pitch: Int32)
    requires |table| == 257 && -0x1000_0000 <= pitch < 0x1000_0000
    ensures var (k, f) := (128 + pitch / 0x20_0000, pitch % 0x20_0000);
      && 0 <= k < 256
      && Near(Signed(Mtof48kExtQ31(table, pitch)), Signed(table[k]), Signed(table[k + 1]), f, 0x20_0000)
  {
    hide Mtof48kQ31, Mtof48kExtQ31, ToInt32, Signed, Near;
    Entry(pitch);
    MtofIsNear(table, pitch);
    SignedWord(Mtof48kExtQ31(table, pitch));
    SignedWord(table[128 + pitch / 0x20_0000]);
    SignedWord(table[128 + pitch / 0x20_0000 + 1]);
  }

  /** Outside of their ranges both give the value at the nearer end. */
  lemma MtofOutside(table: seq<Uint32>, pitch: Int32)
    requires |table| == 257
    ensures pitch < -0x800_0000 ==> Mtof48kQ31(table, pitch) == Mtof48kQ31(table, -0x800_0000)
    ensures pitch > 0x7FF_FFFF ==> Mtof48kQ31(table, pitch) == Mtof48kQ31(table, 0x7FF_FFFF)
    ensures pitch < -0x1000_0000 ==> Mtof48kExtQ31(table, pitch) == Mtof48kExtQ31(table, -0x1000_0000)
    ensures pitch > 0xFFF_FFFF ==> Mtof48kExtQ31(table, pitch) == Mtof48kExtQ31(table, 0xFFF_FFFF)
  {
    hide PitchToFrequency;
  }

  lemma SinOfPhase(table: seq<Int32>, phase: Int32)
    requires |table| == 4097
    ensures var (k, f) := (Turn(phase) / 0x10_0000, Turn(phase) % 0x10_0000);
      0 <= k < 4096 && Near(SinQ31(table, phase), table[k], table[k + 1], f, 0x10_0000)
  {
    hide SinQ31, ToUint32, Turn, Near;
    TurnOfPhase(phase);
    SinIsNear(table, phase);
  }

  lemma HannOfPhase(table: seq<Int16>, phase: Int32)
    requires |table| == 1025
    ensures var (k, f) := (Turn(phase) / 0x40_0000, Turn(phase) % 0x40_0000);
      && 0 <= k < 1024
      && Near(Signed(HannQ31(table, phase)),
              table[k] as int * 0x1_0000, table[k + 1] as int * 0x1_0000, f, 0x40_0000)
  {
    hide HannQ31, ToInt32, ToUint32, Signed, Turn, Near;
    TurnOfPhase(phase);
    HannIsNear(table, phase);
    SignedWord(HannQ31(table, phase));
  }

  // ---- Monotonicity ----

  /** On a rising segment a later phase can come out lower, but by no more than 2. */
  lemma NearlyMonotone(y1: Int32, y2: Int32, pf: Int32, later: Int32)
    requires 0 <= pf <= later && pf % 2 == 0 && later % 2 == 0 && y1 <= y2
    ensures Interpolate(y1, y2, pf) <= Interpolate(y1, y2, later) + 2
  {
    hide Interpolate, Accumulate;
    NoOverflow(y1, y2, pf);
    NoOverflow(y1, y2, later);
    WeightedSums(y1, y2, INT32_MAX - pf, pf, later - pf);
    TwoFloors(y1 * (INT32_MAX - pf), y2 * pf, y1 * (INT32_MAX - later), y2 * later);
  }

  /** What a rising segment gains from `pf` to `later` outweighs the truncations. */
  lemma Monotone(y1: Int32, y2: Int32, pf: Int32, later: Int32)
    requires 0 <= pf <= later && pf % 2 == 0 && later % 2 == 0
    requires (y2 - y1) * (later - pf) >= TWO_32
    ensures Interpolate(y1, y2, pf) <= Interpolate(y1, y2, later)
  {
    hide Interpolate, Accumulate;
    NoOverflow(y1, y2, pf);
    NoOverflow(y1, y2, later);
    var n := later - pf;
    assert y1 * (INT32_MAX - later) == y1 * (INT32_MAX - pf) - y1 * n;
    assert y2 * later == y2 * pf + y2 * n;
    assert (y2 - y1) * n == y2 * n - y1 * n;
    GainedFloor(y1 * (INT32_MAX - pf), y2 * pf, y1 * (INT32_MAX - later), y2 * later);
  }

  lemma GainedFloor(a: int, b: int, c: int, d: int)
    requires a + b + TWO_32 <= c + d
    ensures a / TWO_32 + b / TWO_32 <= c / TWO_32 + d / TWO_32
  {
  }

  /** Between two table entries that rise by 2^21 or more, a later phase never gives a lower sine. */
  lemma SinMonotone(table: seq<Int32>, phase: Int32, later: Int32)
    requires |table| == 4097
    requires ToUint32(phase) <= ToUint32(later) && ToUint32(phase) / TWO_20 == ToUint32(later) / TWO_20
    requires var k := ToUint32(phase) / TWO_20; table[k + 1] - table[k] >= TWO_21
    ensures SinQ31(table, phase) <= SinQ31(table, later)
  {
    hide Interpolate, ToUint32;
    var (k, f, g) := (ToUint32(phase) / TWO_20, ToUint32(phase) % TWO_20, ToUint32(later) % TWO_20);
    SameStep(ToUint32(phase), ToUint32(later));
    SegmentMonotone(table[k], table[k + 1], f, g);
  }

  lemma SameStep(p: nat, q: nat)
    requires p <= q && p / TWO_20 == q / TWO_20
    ensures p % TWO_20 <= q % TWO_20
  {
  }

  lemma SegmentMonotone(y1: Int32, y2: Int32, f: nat, g: nat)
    requires f <= g < TWO_20 && y2 - y1 >= TWO_21
    ensures Interpolate(y1, y2, f * TWO_11) <= Interpolate(y1, y2, g * TWO_11)
  {
    hide Interpolate;
    if f < g {
      Scaled(f, g);
      var pf: Int32, later: Int32 := f * TWO_11, g * TWO_11;
      StepMonotone(y1, y2, pf, later);
    }
  }

  lemma Scaled(f: nat, g: nat)
    requires f < g < TWO_20
    ensures f * TWO_11 + TWO_11 <= g * TWO_11 < TWO_31
    ensures f * TWO_11 % 2 == 0 && g * TWO_11 % 2 == 0
  {
    Ordered(f + 1, g, TWO_11);
    Ordered(g, TWO_20 - 1, TWO_11);
    Even(f);
    Even(g);
  }

  lemma Even(f: nat)
    ensures f * TWO_11 % 2 == 0
  {
    assert f * TWO_11 == 2 * (f * 1024);
    Twice(f * 1024);
  }

  lemma StepMonotone(y1: Int32, y2: Int32, pf: Int32, later: Int32)
    requires 0 <= pf && pf + TWO_11 <= later && pf % 2 == 0 && later % 2 == 0 && y2 - y1 >= TWO_21
    ensures Interpolate(y1, y2, pf) <= Interpolate(y1, y2, later)
  {
    hide Interpolate;
    Product(y2 - y1, later - pf);
    Monotone(y1, y2, pf, later);
  }

  lemma Product(slope: int, n: int)
    requires slope >= TWO_21 && n >= TWO_11
    ensures slope * n >= TWO_32
  {
    Ordered(TWO_21, slope, n);
  }

  /** Moving weight `n` from `y1` to `y2`. */
  lemma WeightedSums(y1: int, y2: int, w1: int, w2: int, n: nat)
    requires y1 <= y2
    ensures y1 * w1 + y2 * w2 <= y1 * (w1 - n) + y2 * (w2 + n)
  {
    assert y1 * (w1 - n) == y1 * w1 - y1 * n;
    assert y2 * (w2 + n) == y2 * w2 + y2 * n;
    Ordered(y1, y2, n);
  }

  lemma TwoFloors(a: int, b: int, c: int, d: int)
    requires a + b <= c + d
    ensures a / TWO_32 + b / TWO_32 <= c / TWO_32 + d / TWO_32 + 1
  {
  }

  /** The bound is met: even between equal entries the two truncations can cost 2. */
  lemma NotMonotone()
    ensures Interpolate(-1, -1, 0) == Interpolate(-1, -1, TWO_10) + 2
  {
    NoOverflow(-1, -1, 0);
    NoOverflow(-1, -1, TWO_10);
  }
}
