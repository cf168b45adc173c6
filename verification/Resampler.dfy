/**
 The sample rate converter: a ring of recent input, an exact position between
 input samples, and a walk along the kernel table that never divides.
 */
module Resampler {
  import opened Arithmetic
  import opened Convolution
  import opened Wrappers

  const HISTORY := 512

  ghost predicate Divides(d: nat, x: nat) {
    d > 0 && x % d == 0
  }

  lemma DividesByQuotient(d: nat, x: nat, q: int)
    requires d > 0 && x == q * d
    ensures Divides(d, x)
  {
    DivModUnique(x, d, q, 0);
  }

  /** One step of Euclid's algorithm keeps the common divisors. */
  lemma CommonDivisorsStep(a: nat, b: nat, d: nat)
    requires b > 0
    ensures Divides(d, a) && Divides(d, b) <==> Divides(d, b) && Divides(d, a % b)
  {
    if Divides(d, b) {
      var k := b / d;
      assert b == k * d;
      assert a == (a / b) * b + a % b;
      assert (a / b) * b == ((a / b) * k) * d;
      if Divides(d, a) {
        assert a % b == (a / d - (a / b) * k) * d by {
          assert a == (a / d) * d;
        }
        DividesByQuotient(d, a % b, a / d - (a / b) * k);
      }
      if Divides(d, a % b) {
        var r := a % b;
        assert a == (r / d + (a / b) * k) * d by {
          assert r == (r / d) * d;
        }
        DividesByQuotient(d, a, r / d + (a / b) * k);
      }
    }
  }

  /** The greatest common divisor: it divides both, and what divides both divides it; that of zeros is zero. */
  method Gcd(x: nat, y: nat) returns (g: nat)
    ensures x > 0 || y > 0 ==> Divides(g, x) && Divides(g, y)
    ensures x > 0 || y > 0 ==> forall d: nat :: Divides(d, x) && Divides(d, y) ==> Divides(d, g)
    ensures x == 0 && y == 0 ==> g == 0
  {
    var a, b := x, y;
    while b != 0
      invariant a >= 0 && b >= 0 && (a > 0 || b > 0 <==> x > 0 || y > 0)
      invariant forall d: nat :: Divides(d, a) && Divides(d, b) <==> Divides(d, x) && Divides(d, y)
      decreases b
    {
      forall d: nat ensures Divides(d, a) && Divides(d, b) <==> Divides(d, b) && Divides(d, a % b) {
        CommonDivisorsStep(a, b, d);
      }
      a, b := b, a % b;
    }
    if a > 0 {
      DividesByQuotient(a, a, 1);
      DividesByQuotient(a, b, 0);
    }
    g := a;
  }

  ghost predicate Coprime(a: nat, b: nat) {
    forall d: nat :: Divides(d, a) && Divides(d, b) ==> d == 1
  }

  lemma DivisorIsNoLarger(d: nat, x: nat)
    requires Divides(d, x) && x > 0
    ensures d <= x
  {
    if x < d {
      DivModUnique(x, d, 0, x);
    }
  }

  lemma CommonFactorIsOne(up: nat, down: nat, common: nat, d: nat)
    requires common > 0 && Divides(d, up) && Divides(d, down)
    requires forall e: nat :: Divides(e, down * common) && Divides(e, up * common) ==> Divides(e, common)
    ensures d == 1
  {
    var i, j := up / d, down / d;
    MulAssociates(i, d, common);
    MulAssociates(j, d, common);
    MulMonotone(1, d, common);
    DividesByQuotient(d * common, up * common, i);
    DividesByQuotient(d * common, down * common, j);
    if d > 1 {
      MulMonotone(2, d, common);
      DivModUnique(common, d * common, 0, common);
    }
  }

  /** Dividing two rates by their greatest common divisor keeps their ratio and leaves nothing to divide by. */
  lemma LowestTerms(fromHz: nat, toHz: nat, common: nat)
    requires toHz > 0 && Divides(common, fromHz) && Divides(common, toHz)
    requires forall d: nat :: Divides(d, fromHz) && Divides(d, toHz) ==> Divides(d, common)
    ensures toHz / common > 0 && fromHz / common >= 0
    ensures (toHz / common) * fromHz == (fromHz / common) * toHz
    ensures fromHz > 0 <==> fromHz / common > 0
    ensures Coprime(toHz / common, fromHz / common)
    ensures forall d: nat :: Divides(d, fromHz) && Divides(d, toHz) ==>
              d * (toHz / common) <= toHz && d * (fromHz / common) <= fromHz
  {
    var up, down := toHz / common, fromHz / common;
    assert toHz == up * common && fromHz == down * common;
    DivAtLeast(toHz, common, 0);
    DivAtLeast(fromHz, common, 0);
    assert up * (down * common) == down * (up * common);
    forall d: nat | Divides(d, up) && Divides(d, down) ensures d == 1 {
      CommonFactorIsOne(up, down, common, d);
    }
    forall d: nat | Divides(d, fromHz) && Divides(d, toHz) ensures d * up <= toHz && d * down <= fromHz {
      DivisorIsNoLarger(d, common);
      MulMonotone(d, common, up);
      MulMonotone(d, common, down);
    }
  }

  /** `up` to `down` is the output rate to the input rate, exactly and in lowest terms. */
  ghost predicate IsRatio(fromHz: nat, toHz: nat, up: nat, down: nat) {
    && up > 0 && (down > 0 <==> fromHz > 0)
    && up * fromHz == down * toHz
    && Coprime(up, down)
    && (forall d: nat :: Divides(d, fromHz) && Divides(d, toHz) ==> d * up <= toHz && d * down <= fromHz)
  }

  method Ratio(fromHz: nat, toHz: nat) returns (up: nat, down: nat)
    requires toHz > 0
    ensures IsRatio(fromHz, toHz, up, down)
  {
    var common := Gcd(fromHz, toHz);
    LowestTerms(fromHz, toHz, common);
    up, down := toHz / common, fromHz / common;
  }

  /** The constants a walk along the table needs. */
  method Constants(v: Converter)
    returns (scale: nat, taps: nat, gain: nat, reciprocal: nat, stepIndex: nat, stepFraction: nat)
    requires v.Valid()
    ensures scale == v.Scale() && taps == v.Taps() && gain == v.Gain() && reciprocal == v.Reciprocal()
    ensures stepIndex == v.up * STEPS / v.Scale() && stepFraction == v.up * STEPS % v.Scale()
  {
    TapsPositive(v);
    if v.down > v.up {
      DivAtLeast(v.up * TWO_16, v.down, 0);
    }
    DivAtLeast(TWO_32, v.Scale(), 0);
    DivAtLeast(v.up * STEPS, v.Scale(), 0);
    scale := if v.up > v.down then v.up else v.down;
    taps := CeilDiv(ZERO_CROSSINGS * scale, v.up);
    gain := if v.down > v.up then v.up * TWO_16 / v.down else 0;
    reciprocal := TWO_32 / scale;
    stepIndex, stepFraction := v.up * STEPS / scale, v.up * STEPS % scale;
  }

  /** Two's complement: what a signed 64-bit position becomes as an array index. */
  function AsUsize(i: int): nat {
    i % TWO_64
  }

  /** Where the ring keeps input `i`, negative positions included. */
  function Slot(i: int): (slot: nat)
    ensures slot < HISTORY
  {
    AsUsize(i) % HISTORY
  }

  lemma SlotIsRemainder(i: int)
    ensures Slot(i) == i % HISTORY
  {
    WrapKeepsRemainder(i, HISTORY, TWO_64 / HISTORY);
  }

  /** Inputs less than a ring apart never share a slot. */
  lemma SlotsDistinct(i: int, j: int)
    requires i < j < i + HISTORY
    ensures Slot(i) != Slot(j)
  {
    SlotIsRemainder(i);
    SlotIsRemainder(j);
  }

  function Silence(channels: nat): Frame {
    seq(channels, _ => 0)
  }

  function FrameAt(x: seq<Frame>, channels: nat, i: int): Frame {
    if 0 <= i < |x| then x[i] else Silence(channels)
  }

  /** Moving `down` units of 1 / `up` past the phase carries into the centre. */
  lemma PhaseCarries(up: int, down: int, n: nat, center: int, phase: int)
    requires up > 0 && center * up + phase == n * down
    ensures (center + (phase + down) / up) * up + (phase + down) % up == (n + 1) * down
  {
    assert phase + down == ((phase + down) / up) * up + (phase + down) % up;
  }

  /** The carried table walk is the division it avoids. */
  lemma WalkStep(position: int, step: int, scale: int, index: int, fraction: int)
    requires scale > 0 && index == position / scale && fraction == position % scale
    ensures var f := fraction + step % scale;
            var carried := if f >= scale then 1 else 0;
            (position + step) / scale == index + step / scale + carried &&
            (position + step) % scale == f - carried * scale
  {
    var f := fraction + step % scale;
    var carried := if f >= scale then 1 else 0;
    assert position + step == (index + step / scale + carried) * scale + (f - carried * scale) by {
      assert position == index * scale + fraction;
      assert step == (step / scale) * scale + step % scale;
      assert (index + step / scale + carried) * scale == index * scale + (step / scale) * scale + carried * scale;
    }
    DivModUnique(position + step, scale, index + step / scale + carried, f - carried * scale);
  }

  lemma CoefficientAt(v: Converter, distance: nat, index: nat, fraction: nat)
    requires v.Valid() && index == distance * STEPS / v.Scale() && fraction == distance * STEPS % v.Scale()
    requires index < LIMIT
    ensures v.Coefficient(distance) == v.Amplified(v.Interpolated(index, fraction))
  {
  }

  lemma NextTap(tap: int, up: int)
    ensures (tap + 1) * up == tap * up + up
  {
  }

  class Resampler {
    const kernel: seq<int>
    const channels: nat
    var fromHz: nat
    var toHz: nat
    var up: nat
    var down: nat
    var scale: nat
    var taps: nat
    var gain: nat
    var reciprocal: nat
    var stepIndex: nat
    var stepFraction: nat
    var pushed: nat
    var center: nat
    var phase: nat
    const history: array<Frame>

    /** Every frame pushed since the last reset, and the number of frames popped. */
    ghost var input: seq<Frame>
    ghost var popped: nat

    ghost function Spec(): Converter
      reads this
    {
      Converter(kernel, up, down)
    }

    /** The constants a reset derives from the ratio. */
    ghost predicate Derived()
      reads this
    {
      var v := Spec();
      && v.Valid()
      && scale == v.Scale()
      && taps == v.Taps()
      && gain == v.Gain()
      && reciprocal == v.Reciprocal()
      && stepIndex == up * STEPS / scale
      && stepFraction == up * STEPS % scale
    }

    /** The position is exact: no rounding is ever carried from one output to the next. */
    ghost predicate NoDrift()
      reads this
    {
      center * up + phase == popped * down && phase < up
    }

    /** The ring holds the last `HISTORY` inputs, silence standing for those before the first. */
    ghost predicate HistoryHolds()
      reads this, history
    {
      && history.Length == HISTORY
      && pushed == |input|
      && (forall k | 0 <= k < pushed :: |input[k]| == channels)
      && (forall k | 0 <= k < HISTORY :: |history[k]| == channels)
      && (forall i | pushed - HISTORY <= i < pushed :: history[Slot(i)] == FrameAt(input, channels, i))
    }

    ghost predicate Shaped() {
      |kernel| == ENTRIES && history.Length == HISTORY
    }

    ghost predicate Valid()
      reads this, history
    {
      && Shaped()
      && HistoryHolds()
      && (up > 0 ==> Derived() && NoDrift())
      && (up > 0 && popped > 0 ==> Spec().Center(popped - 1) + taps < pushed)
    }

    /** The oldest input the next output needs is still in the ring. */
    ghost predicate Retained()
      reads this
    {
      pushed - HISTORY <= center - taps + 1
    }

    lemma CenterIsSpec()
      requires up > 0 && Spec().Valid() && NoDrift()
      ensures Spec().Center(popped) == center
    {
      DivModUnique(popped * down, up, center, phase);
    }

    /** Zero in every field: converts nothing until reset. */
    constructor Boxed(kernel: seq<int>, channels: nat)
      requires |kernel| == ENTRIES
      ensures Valid() && fresh(history)
      ensures this.kernel == kernel && this.channels == channels
      ensures up == 0 && (fromHz, toHz) == (0, 0) && input == []
    {
      this.kernel, this.channels := kernel, channels;
      fromHz, toHz, up, down, scale, taps, gain, reciprocal := 0, 0, 0, 0, 0, 0, 0, 0;
      stepIndex, stepFraction, pushed, center, phase := 0, 0, 0, 0, 0;
      input, popped := [], 0;
      history := new Frame[HISTORY](_ => Silence(channels));
    }

    constructor New(kernel: seq<int>, channels: nat, fromHz: nat, toHz: nat)
      requires |kernel| == ENTRIES && toHz > 0
      ensures Valid() && fresh(history)
      ensures this.kernel == kernel && this.channels == channels
      ensures (this.fromHz, this.toHz) == (fromHz, toHz)
      ensures IsRatio(fromHz, toHz, up, down) && popped == 0 && input == []
    {
      this.kernel, this.channels := kernel, channels;
      this.fromHz, this.toHz, up, down, scale, taps, gain, reciprocal := 0, 0, 0, 0, 0, 0, 0, 0;
      stepIndex, stepFraction, pushed, center, phase := 0, 0, 0, 0, 0;
      input, popped := [], 0;
      history := new Frame[HISTORY](_ => Silence(channels));
      new;
      Reset(fromHz, toHz);
    }

    method Clear()
      requires Valid()
      modifies this
      ensures Valid() && up == 0 && (fromHz, toHz) == (0, 0)
      ensures input == old(input) && popped == old(popped)
    {
      fromHz, toHz := 0, 0;
      up := 0;
    }

    method SetRatio(fromHz: nat, toHz: nat)
      requires Shaped() && toHz > 0
      modifies this
      ensures Derived() && (this.fromHz, this.toHz) == (fromHz, toHz)
      ensures IsRatio(fromHz, toHz, up, down)
    {
      up, down := Ratio(fromHz, toHz);
      scale, taps, gain, reciprocal, stepIndex, stepFraction := Constants(Converter(kernel, up, down));
      this.fromHz, this.toHz := fromHz, toHz;
    }

    /** Back to the first input and the first output, with silence before them. */
    method Restart()
      requires Shaped() && Derived()
      modifies this`pushed, this`center, this`phase, this`input, this`popped, history
      ensures Valid()
      ensures popped == 0 && input == [] && (center, phase, pushed) == (0, 0, 0)
    {
      pushed, center, phase := 0, 0, 0;
      input, popped := [], 0;
      forall i | 0 <= i < HISTORY {
        history[i] := Silence(channels);
      }
    }

    /** Starts over; the ratio of the rates is kept exactly, in lowest terms. */
    method Reset(fromHz: nat, toHz: nat)
      requires Shaped() && toHz > 0
      modifies this, history
      ensures Valid()
      ensures (this.fromHz, this.toHz) == (fromHz, toHz)
      ensures IsRatio(fromHz, toHz, up, down)
      ensures popped == 0 && input == [] && (center, phase, pushed) == (0, 0, 0)
    {
      SetRatio(fromHz, toHz);
      Restart();
    }

    /** The new frame takes the place of the one `HISTORY` frames before it. */
    method Push(frame: Frame)
      requires Valid() && |frame| == channels
      modifies this`pushed, this`input, history
      ensures Valid()
      ensures input == old(input) + [frame]
    {
      ghost var held := history[..];
      history[Slot(pushed)] := frame;
      input := input + [frame];
      pushed := pushed + 1;
      forall i | pushed - HISTORY <= i < pushed
        ensures history[Slot(i)] == FrameAt(input, channels, i)
      {
        if i < pushed - 1 {
          SlotsDistinct(i, pushed - 1);
          assert held[Slot(i)] == FrameAt(old(input), channels, i);
        }
      }
    }

    /** Where a side starts. */
    ghost function First(direction: int): int
      reads this
    {
      if direction < 0 then center else center + 1
    }

    /** How far, in units of 1 / `up`, the first tap of a side lies from the output. */
    ghost predicate Starts(direction: int, distance: nat)
      reads this
    {
      && (direction == -1 || direction == 1)
      && distance == if direction < 0 then phase else up - phase
    }

    /** The walk stands where a division would put it, `away` from the output. */
    ghost predicate Walking(away: nat, index: int, fraction: int)
      requires scale > 0
      reads this
    {
      0 <= index == away * STEPS / scale && 0 <= fraction == away * STEPS % scale
    }

    /** The table's value at the walk's position. */
    method Lookup(index: nat, fraction: nat, ghost away: nat) returns (coefficient: int)
      requires Shaped() && up > 0 && Derived() && Walking(away, index, fraction) && index < LIMIT
      ensures coefficient == Spec().Coefficient(away)
    {
      var left, right := kernel[index], kernel[index + 1];
      var weight := fraction * reciprocal / TWO_16;
      coefficient := left + (right - left) * weight / TWO_16;
      assert coefficient == Spec().Interpolated(index, fraction);
      CoefficientAt(Spec(), away, index, fraction);
      if gain != 0 {
        coefficient := coefficient * gain / TWO_16;
      }
    }

    /** One input sample further out. */
    method Walk(index: nat, fraction: nat, ghost away: nat) returns (index': nat, fraction': nat)
      requires Shaped() && up > 0 && Derived() && Walking(away, index, fraction)
      ensures Walking(away + up, index', fraction')
    {
      WalkStep(away * STEPS, up * STEPS, scale, index, fraction);
      DivAtLeast(up * STEPS, scale, 0);
      index' := index + stepIndex;
      fraction' := fraction + stepFraction;
      if fraction' >= scale {
        fraction' := fraction' - scale;
        index' := index' + 1;
      }
    }

    /** One tap on every channel. */
    method AddTap(sums: array<int>, frame: Frame, coefficient: int)
      requires sums.Length == channels == |frame|
      modifies sums
      ensures forall c | 0 <= c < channels :: sums[c] == old(sums[c]) + frame[c] * coefficient
    {
      var channel := 0;
      while channel < channels
        invariant 0 <= channel <= channels
        invariant forall c | 0 <= c < channel :: sums[c] == old(sums[c]) + frame[c] * coefficient
        invariant forall c | channel <= c < channels :: sums[c] == old(sums[c])
      {
        sums[channel] := sums[channel] + frame[channel] * coefficient;
        channel := channel + 1;
      }
    }

    /** The first `tap` terms of one side, counted away from the output. */
    ghost function Side(c: nat, direction: int, tap: nat): int
      requires Spec().Valid()
      reads this
    {
      if direction < 0 then Window(Spec(), input, c, popped, center - tap + 1, center + 1)
      else Window(Spec(), input, c, popped, center + 1, center + tap + 1)
    }

    /** Tap `tap` lies `tap` input samples further out than the first one of its side. */
    lemma TapDistance(direction: int, distance: nat, tap: nat)
      requires Spec().Valid() && NoDrift() && Starts(direction, distance)
      ensures Spec().Distance(popped, First(direction) + direction * tap) == distance + tap * up
    {
      if direction < 0 {
        assert (center - tap) * up == center * up - tap * up;
      } else {
        assert (center + 1 + tap) * up == center * up + up + tap * up;
      }
    }

    /** The ring still has what tap `tap` reads, at a wrapped position if need be. */
    lemma TapFrame(direction: int, tap: nat)
      requires Valid() && up > 0 && Retained() && center + taps < pushed && tap < taps
      requires direction == -1 || direction == 1
      ensures var i := First(direction) + direction * tap;
              history[AsUsize(i) % HISTORY] == FrameAt(input, channels, i)
    {
      var i := First(direction) + direction * tap;
      assert Slot(i) == AsUsize(i) % HISTORY;
    }

    /** A side grows by one term at its outer end. */
    lemma SideGrows(c: nat, direction: int, tap: nat)
      requires Spec().Valid() && (direction == -1 || direction == 1)
      ensures Side(c, direction, tap + 1) ==
              Side(c, direction, tap) + Term(Spec(), input, c, popped, First(direction) + direction * tap)
    {
      if direction < 0 {
        var i := center - tap;
        WindowSplit(Spec(), input, c, popped, i, i + 1, center + 1);
        assert Window(Spec(), input, c, popped, i, i) == 0;
      }
    }

    lemma SideStep(c: nat, direction: int, distance: nat, tap: nat, away: nat)
      requires Valid() && up > 0 && Retained() && c < channels && center + taps < pushed && tap < taps
      requires Starts(direction, distance) && away == distance + tap * up
      ensures Side(c, direction, tap + 1) ==
              Side(c, direction, tap)
                + history[AsUsize(First(direction) + direction * tap) % HISTORY][c] * Spec().Coefficient(away)
    {
      TapFrame(direction, tap);
      TapDistance(direction, distance, tap);
      SideGrows(c, direction, tap);
    }

    lemma TapOutside(c: nat, direction: int, distance: nat, tap: nat, away: nat, further: nat)
      requires up > 0 && Derived() && NoDrift() && tap <= further
      requires Starts(direction, distance) && away == distance + tap * up
      requires away * STEPS / scale >= LIMIT
      ensures Term(Spec(), input, c, popped, First(direction) + direction * further) == 0
    {
      TapDistance(direction, distance, further);
      MulMonotone(tap, further, up);
      DivMonotone(away * STEPS, (distance + further * up) * STEPS, scale);
    }

    /** Once the walk has left the table, every further tap is zero. */
    lemma {:induction false} BreakLosesNothing(c: nat, direction: int, distance: nat, tap: nat, away: nat, further: nat)
      requires up > 0 && Derived() && NoDrift() && tap <= further
      requires Starts(direction, distance) && away == distance + tap * up
      requires away * STEPS / scale >= LIMIT
      ensures Side(c, direction, further) == Side(c, direction, tap)
      decreases further - tap
    {
      if tap < further {
        BreakLosesNothing(c, direction, distance, tap, away, further - 1);
        TapOutside(c, direction, distance, tap, away, further - 1);
        SideGrows(c, direction, further - 1);
      }
    }

    /** Adds one side of the sum: the terms up to the centre, or those past it. */
    method AddSide(sums: array<int>, direction: int, distance: nat)
      requires Valid() && up > 0 && sums.Length == channels && center + taps < pushed
      requires Starts(direction, distance)
      modifies sums
      ensures Retained() ==> forall c | 0 <= c < channels :: sums[c] == old(sums[c]) + Side(c, direction, taps)
    {
      DivAtLeast(distance * STEPS, scale, 0);
      var index, fraction := distance * STEPS / scale, distance * STEPS % scale;
      var first := if direction < 0 then center else center + 1;
      ghost var away := distance;
      var tap := 0;
      while tap < taps
        invariant 0 <= tap <= taps
        invariant away == distance + tap * up && Walking(away, index, fraction)
        invariant Retained() ==> forall c | 0 <= c < channels :: sums[c] == old(sums[c]) + Side(c, direction, tap)
      {
        if index >= LIMIT {
          forall c | 0 <= c < channels ensures Side(c, direction, taps) == Side(c, direction, tap) {
            BreakLosesNothing(c, direction, distance, tap, away, taps);
          }
          break;
        }
        var coefficient := Lookup(index, fraction, away);
        var frame := history[AsUsize(first + direction * tap) % HISTORY];
        AddTap(sums, frame, coefficient);
        forall c | 0 <= c < channels && Retained()
          ensures Side(c, direction, tap + 1) == Side(c, direction, tap) + frame[c] * coefficient
        {
          SideStep(c, direction, distance, tap, away);
        }
        index, fraction := Walk(index, fraction, away);
        NextTap(tap, up);
        away := away + up;
        tap := tap + 1;
      }
    }

    /** What the two sides add up to is the whole sum, and it is final. */
    lemma SidesMakeTheSum(c: nat)
      requires Valid() && up > 0 && center + taps < pushed
      ensures Side(c, -1, taps) + Side(c, 1, taps) == Support(Spec(), input, c, popped)
    {
      CenterIsSpec();
      WindowSplit(Spec(), input, c, popped, center - taps + 1, center + 1, center + taps + 1);
    }

    lemma SumIsFinal(c: nat, onwards: seq<Frame>)
      requires Valid() && up > 0 && center + taps < pushed && input <= onwards
      ensures SumsTo(Spec(), onwards, c, popped, Support(Spec(), input, c, popped))
    {
      CenterIsSpec();
      SupportIsTheSum(Spec(), onwards, c, popped);
      SupportIsCausal(Spec(), input, onwards, c, popped);
    }

    /** The sums of both sides on every channel. */
    method Sums() returns (sums: array<int>)
      requires Valid() && up > 0 && center + taps < pushed
      ensures fresh(sums) && sums.Length == channels
      ensures Retained() ==> forall c: nat | c < channels :: sums[c] == Support(Spec(), input, c, popped)
    {
      sums := new int[channels](_ => 0);
      AddSide(sums, -1, phase);
      AddSide(sums, 1, up - phase);
      forall c: nat | c < channels && Retained() ensures sums[c] == Support(Spec(), input, c, popped) {
        SidesMakeTheSum(c);
      }
    }

    /** On to the next output's position. */
    method Advance()
      requires Valid() && up > 0 && center + taps < pushed
      modifies this`center, this`phase, this`popped
      ensures Valid() && popped == old(popped) + 1 && center >= old(center)
    {
      CenterIsSpec();
      PhaseCarries(up, down, popped, center, phase);
      DivAtLeast(phase + down, up, 0);
      phase := phase + down;
      center := center + phase / up;
      phase := phase % up;
      popped := popped + 1;
    }

    /**
     Output `popped`, once the input half a kernel past it has arrived. While the
     ring still holds what it needs, the frame is the rounded sum over all
     integers, and stays so however the input goes on.
     */
    method Pop() returns (frame: Option<Frame>)
      requires Valid()
      modifies this`center, this`phase, this`popped
      ensures Valid()
      ensures frame.None? <==> up == 0 || pushed <= old(center) + taps
      ensures frame.None? ==> unchanged(this)
      ensures frame.Some? ==> popped == old(popped) + 1 && center >= old(center) && |frame.value| == channels
      ensures frame.Some? && old(Retained()) ==> forall c: nat | c < channels ::
                frame.value[c] == Rounded(Support(Spec(), input, c, old(popped)))
      ensures frame.Some? ==> forall c: nat, onwards: seq<Frame> | c < channels && input <= onwards ::
                SumsTo(Spec(), onwards, c, old(popped), Support(Spec(), input, c, old(popped)))
    {
      if up == 0 || pushed <= center + taps {
        return None;
      }
      forall c: nat, onwards: seq<Frame> | c < channels && input <= onwards
        ensures SumsTo(Spec(), onwards, c, popped, Support(Spec(), input, c, popped))
      {
        SumIsFinal(c, onwards);
      }
      var sums := Sums();
      frame := Some(seq(channels, c requires 0 <= c < channels reads sums => Rounded(sums[c])));
      Advance();
    }
  }
}
