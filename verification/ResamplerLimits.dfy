/**
 What the resampler's fixed-width arithmetic and its fixed-size ring allow: the
 rates it is right for, the error of a table lookup, and the room left in 64 bits.
 */
module ResamplerLimits {
  import opened Arithmetic
  import opened CardRates
  import opened Convolution
  import opened Resampler

  const TABLE_BOUND := 0x4000_0000
  const SAMPLE_BOUND := 0x80_0000
  const TERM_BOUND := SAMPLE_BOUND * TABLE_BOUND

  ghost predicate TableBounded(v: Converter) {
    forall k | 0 <= k < |v.kernel| :: -TABLE_BOUND <= v.kernel[k] <= TABLE_BOUND
  }

  ghost predicate SamplesBounded(x: seq<Frame>) {
    forall c: nat, i: int {:trigger At(x, c, i)} :: -SAMPLE_BOUND <= At(x, c, i) <= SAMPLE_BOUND
  }

  lemma ScaledOrder(a: int, b: int, k: int)
    requires k > 0
    ensures a <= b <==> a * k <= b * k
  {
    if a <= b {
      MulMonotone(a, b, k);
    } else {
      MulMonotone(b + 1, a, k);
    }
  }

  /** Whether `count` outputs cover `inputs` inputs reads the same in rates as in lowest terms. */
  lemma RatioInHertz(fromHz: nat, toHz: nat, up: nat, down: nat, inputs: int, count: int)
    requires toHz > 0 && IsRatio(fromHz, toHz, up, down)
    ensures inputs * up <= count * down <==> inputs * toHz <= count * fromHz
  {
    // Both sides times up * fromHz, which is down * toHz.
    ScaledOrder(inputs * up, count * down, toHz);
    ScaledOrder(inputs * toHz, count * fromHz, up);
    assert inputs * up * toHz == inputs * toHz * up;
    assert count * down * toHz == count * fromHz * up by {
      MulAssociates(count, down, toHz);
      MulAssociates(count, fromHz, up);
    }
  }

  /** The half width follows from the rates alone: at least 32 input samples, more when converting down. */
  lemma TapsWithin(v: Converter, fromHz: nat, toHz: nat, taps: int)
    requires v.Valid() && fromHz > 0 && toHz > 0 && IsRatio(fromHz, toHz, v.up, v.down)
    ensures v.Taps() <= taps <==> ZERO_CROSSINGS <= taps && ZERO_CROSSINGS * fromHz <= taps * toHz
  {
    CeilDivAtMost(ZERO_CROSSINGS * v.Scale(), v.up, taps);
    ScaledOrder(ZERO_CROSSINGS, taps, v.up);
    // 32 * down <= taps * up, in hertz.
    RatioInHertz(fromHz, toHz, v.up, v.down, -taps, -ZERO_CROSSINGS);
  }

  /** The ring has room for the kernel's whole width exactly when the input rate is at most 8 times the output rate. */
  lemma RingFits(v: Converter, fromHz: nat, toHz: nat)
    requires v.Valid() && fromHz > 0 && toHz > 0 && IsRatio(fromHz, toHz, v.up, v.down)
    ensures 2 * v.Taps() <= HISTORY <==> fromHz <= 8 * toHz
  {
    TapsWithin(v, fromHz, toHz, 256);
    assert ZERO_CROSSINGS * fromHz <= 256 * toHz <==> fromHz <= 8 * toHz;
  }

  /** Every pair of the card's rates fits, with the room to spare that a reset asserts. */
  lemma CardRatesFit(v: Converter, from: SampleRate, to: SampleRate)
    requires v.Valid() && IsRatio(from.Hz(), to.Hz(), v.up, v.down)
    ensures ZERO_CROSSINGS <= v.Taps() <= 160
    ensures 2 * v.Taps() + CeilDiv(v.down, v.up) + 1 < HISTORY
    ensures v.up <= 640 && v.down <= 640
  {
    TapsWithin(v, from.Hz(), to.Hz(), 160);
    TapsWithin(v, from.Hz(), to.Hz(), 31);
    RatioInHertz(from.Hz(), to.Hz(), v.up, v.down, -5, -1);
    CeilDivAtMost(v.down, v.up, 5);
    assert 300 * v.up <= to.Hz() && 300 * v.down <= from.Hz() by {
      assert Divides(300, from.Hz()) && Divides(300, to.Hz());
    }
  }

  lemma WeightBelow(scale: nat, reciprocal: int, fraction: nat, weight: int)
    requires 0 <= fraction < scale && reciprocal == TWO_32 / scale
    requires weight == fraction * reciprocal / TWO_16
    ensures 0 <= weight <= TWO_16 && weight * scale <= fraction * TWO_16
  {
    DivAtLeast(TWO_32, scale, 0);
    DivAtLeast(fraction * reciprocal, TWO_16, 0);
    assert reciprocal * scale <= TWO_32;
    assert weight * TWO_16 <= fraction * reciprocal;
    calc {
      weight * scale * TWO_16;
    ==
      weight * TWO_16 * scale;
    <=  { MulMonotone(weight * TWO_16, fraction * reciprocal, scale); }
      fraction * reciprocal * scale;
    ==  { MulAssociates(fraction, reciprocal, scale); }
      fraction * (reciprocal * scale);
    <=  { MulMonotone(reciprocal * scale, TWO_32, fraction); }
      fraction * TWO_32;
    }
    if weight > TWO_16 {
      MulMonotone(TWO_16 + 1, weight, scale);
    }
  }

  lemma WeightAbove(scale: nat, reciprocal: int, fraction: nat, weight: int)
    requires 0 <= fraction < scale <= TWO_16 && reciprocal == TWO_32 / scale
    requires weight == fraction * reciprocal / TWO_16
    ensures fraction * TWO_16 < (weight + 2) * scale
  {
    assert TWO_32 < reciprocal * scale + scale;
    assert fraction * reciprocal < (weight + 1) * TWO_16;
    calc {
      fraction * TWO_32;
    <=  { MulMonotone(TWO_32, reciprocal * scale + scale, fraction); }
      fraction * (reciprocal * scale + scale);
    ==  { MulAssociates(fraction, reciprocal, scale); }
      fraction * reciprocal * scale + fraction * scale;
    <   { MulMonotone(fraction * reciprocal + 1, (weight + 1) * TWO_16, scale); }
      (weight + 1) * TWO_16 * scale + fraction * scale;
    <=  { MulMonotone(fraction, TWO_16, scale); }
      (weight + 2) * TWO_16 * scale;
    }
  }

  /** The Q16 weight is the exact fraction less under two units, and never more than it. */
  lemma WeightError(v: Converter, fraction: nat)
    requires v.Valid() && fraction < v.Scale() <= TWO_16
    ensures var weight := fraction * v.Reciprocal() / TWO_16;
            0 <= weight <= TWO_16 &&
            weight * v.Scale() <= fraction * TWO_16 < (weight + 2) * v.Scale()
  {
    var scale, reciprocal := v.Scale(), v.Reciprocal();
    var weight := fraction * reciprocal / TWO_16;
    WeightBelow(scale, reciprocal, fraction, weight);
    WeightAbove(scale, reciprocal, fraction, weight);
  }

  lemma FractionOf(difference: int, weight: nat)
    requires weight <= TWO_16
    ensures Min(difference, 0) <= difference * weight / TWO_16 <= Max(difference, 0)
  {
    if difference >= 0 {
      MulMonotone(weight, TWO_16, difference);
    } else {
      MulMonotone(weight, TWO_16, -difference);
      assert -difference * weight == -(difference * weight);
    }
  }

  /** A lookup lies between the two entries around it. */
  lemma BetweenNeighbours(v: Converter, index: nat, fraction: nat)
    requires v.Valid() && index < LIMIT && fraction < v.Scale() <= TWO_16
    ensures var (left, right) := (v.kernel[index], v.kernel[index + 1]);
            Min(left, right) <= v.Interpolated(index, fraction) <= Max(left, right)
  {
    WeightError(v, fraction);
    FractionOf(v.kernel[index + 1] - v.kernel[index], fraction * v.Reciprocal() / TWO_16);
  }

  lemma ProductBound(a: int, b: int, bound: int)
    requires 0 <= b <= bound
    ensures Abs(a * b) <= Abs(a) * bound
  {
    MulMonotone(b, bound, Abs(a));
  }

  lemma ErrorParts(rise: int, fraction: int, weight: int, scale: nat, step: int, rounding: int)
    requires rise * weight == step * TWO_16 + rounding
    ensures rise * fraction * TWO_16 - step * TWO_16 * scale
              == rise * (fraction * TWO_16 - weight * scale) + rounding * scale
  {
    assert rise * weight * scale == (step * TWO_16 + rounding) * scale;
  }

  lemma LineError(rise: int, fraction: int, weight: int, scale: nat, step: int, rounding: int)
    requires 0 <= fraction * TWO_16 - weight * scale <= 2 * scale
    requires rise * weight == step * TWO_16 + rounding && 0 <= rounding < TWO_16
    ensures Abs(rise * fraction * TWO_16 - step * TWO_16 * scale) <= 2 * Abs(rise) * scale + TWO_16 * scale
  {
    var short := fraction * TWO_16 - weight * scale;
    ProductBound(rise, short, 2 * scale);
    MulMonotone(0, rounding, scale);
    MulMonotone(rounding, TWO_16, scale);
    ErrorParts(rise, fraction, weight, scale, step, rounding);
  }

  /** A lookup is within two Q16 units of the step between its entries, and one for rounding, of the exact line. */
  lemma LookupError(v: Converter, index: nat, fraction: nat)
    requires v.Valid() && index < LIMIT && fraction < v.Scale() <= TWO_16
    ensures var rise := v.kernel[index + 1] - v.kernel[index];
            var found := (v.Interpolated(index, fraction) - v.kernel[index]) * TWO_16 * v.Scale();
            Abs(rise * fraction * TWO_16 - found) <= 2 * Abs(rise) * v.Scale() + TWO_16 * v.Scale()
  {
    WeightError(v, fraction);
    var rise, weight := v.kernel[index + 1] - v.kernel[index], fraction * v.Reciprocal() / TWO_16;
    assert v.Interpolated(index, fraction) - v.kernel[index] == rise * weight / TWO_16;
    LineError(rise, fraction, weight, v.Scale(), rise * weight / TWO_16, rise * weight % TWO_16);
  }

  lemma GainParts(up: int, down: int, gain: int, found: int, scaled: int, rounding: int)
    requires found * gain == scaled * TWO_16 + rounding
    ensures (scaled * down - up * found) * TWO_16
              == -(found * (up * TWO_16 - gain * down)) - rounding * down
  {
    assert found * gain * down == (scaled * TWO_16 + rounding) * down;
  }

  /** Converting down, the gain is the output rate over the input rate in Q16, rounded down. */
  lemma GainIsRatio(v: Converter)
    requires v.Valid() && v.down > v.up
    ensures v.Gain() * v.down <= v.up * TWO_16 < (v.Gain() + 1) * v.down
    ensures 0 <= v.Gain() && (v.Gain() != 0 <==> v.down <= v.up * TWO_16)
  {
    DivModParts(v.up * TWO_16, v.down);
    DivAtLeast(v.up * TWO_16, v.down, 1);
  }

  /** What one rounding of the gain and one of its product leave of `up` / `down` times a lookup. */
  lemma GainError(up: int, down: int, gain: int, found: int)
    requires down > 0 && gain * down <= up * TWO_16 < (gain + 1) * down
    ensures Abs((found * gain / TWO_16) * down - up * found) * TWO_16 <= (TWO_16 + Abs(found)) * down
  {
    var scaled, short := found * gain / TWO_16, up * TWO_16 - gain * down;
    var rounding := found * gain % TWO_16;
    ProductBound(found, short, down);
    MulMonotone(0, rounding, down);
    MulMonotone(rounding, TWO_16, down);
    GainParts(up, down, gain, found, scaled, rounding);
    MulDistributes(TWO_16, Abs(found), down);
  }

  /**
   Inside the table the coefficient is the value between its two entries, and
   converting down `up` / `down` of it, so that the wider kernel weighs no more in all.
   */
  lemma CoefficientIsScaled(v: Converter, distance: nat)
    requires v.Valid() && distance * STEPS / v.Scale() < LIMIT
    ensures var (index, fraction) := (distance * STEPS / v.Scale(), distance * STEPS % v.Scale());
            && index >= 0
            && (v.down <= v.up || v.down > v.up * TWO_16 ==>
                  v.Coefficient(distance) == v.Interpolated(index, fraction))
            && (v.up < v.down <= v.up * TWO_16 ==>
                  Abs(v.Coefficient(distance) * v.down - v.up * v.Interpolated(index, fraction)) * TWO_16
                    <= (TWO_16 + Abs(v.Interpolated(index, fraction))) * v.down)
  {
    DivAtLeast(distance * STEPS, v.Scale(), 0);
    if v.down > v.up {
      GainIsRatio(v);
      GainError(v.up, v.down, v.Gain(),
                v.Interpolated(distance * STEPS / v.Scale(), distance * STEPS % v.Scale()));
    }
  }

  lemma GainBounded(v: Converter)
    requires v.Valid()
    ensures 0 <= v.Gain() <= TWO_16
  {
    if v.down > v.up {
      DivAtLeast(v.up * TWO_16, v.down, 0);
      DivAtLeast(v.up * TWO_16, v.down, TWO_16 + 1);
    }
  }

  /** A coefficient is no larger than the table's entries, before and after the gain. */
  lemma CoefficientBounded(v: Converter, distance: nat)
    requires v.Valid() && TableBounded(v) && v.Scale() <= TWO_16
    ensures -TABLE_BOUND <= v.Coefficient(distance) <= TABLE_BOUND
  {
    var index, fraction := distance * STEPS / v.Scale(), distance * STEPS % v.Scale();
    DivAtLeast(distance * STEPS, v.Scale(), 0);
    if index < LIMIT {
      BetweenNeighbours(v, index, fraction);
      GainBounded(v);
      FractionOf(v.Interpolated(index, fraction), v.Gain());
    }
  }

  lemma TermBounded(sample: int, coefficient: int)
    requires -SAMPLE_BOUND <= sample <= SAMPLE_BOUND && -TABLE_BOUND <= coefficient <= TABLE_BOUND
    ensures -TERM_BOUND <= sample * coefficient <= TERM_BOUND
  {
    ProductBound(sample, Abs(coefficient), TABLE_BOUND);
    MulMonotone(Abs(sample), SAMPLE_BOUND, TABLE_BOUND);
  }

  /** What the loop holds after any number of taps: each adds at most one sample times one table entry. */
  lemma {:induction false} WindowBounded(v: Converter, x: seq<Frame>, c: nat, n: nat, lo: int, hi: int)
    requires v.Valid() && TableBounded(v) && SamplesBounded(x) && v.Scale() <= TWO_16 && lo <= hi
    ensures -(hi - lo) * TERM_BOUND <= Window(v, x, c, n, lo, hi) <= (hi - lo) * TERM_BOUND
    decreases hi - lo
  {
    if lo < hi {
      WindowBounded(v, x, c, n, lo, hi - 1);
      CoefficientBounded(v, v.Distance(n, hi - 1));
      TermBounded(At(x, c, hi - 1), v.Coefficient(v.Distance(n, hi - 1)));
    }
  }

  /** No product of a lookup between the card's rates leaves 64 bits. */
  lemma LookupFits(v: Converter, index: nat, fraction: nat)
    requires v.Valid() && TableBounded(v) && index < LIMIT && fraction < v.Scale() <= TWO_16
    ensures 0 <= fraction * v.Reciprocal() <= TWO_32
    ensures Abs((v.kernel[index + 1] - v.kernel[index]) * (fraction * v.Reciprocal() / TWO_16)) < TWO_64 / 2
    ensures Abs(v.Interpolated(index, fraction) * v.Gain()) < TWO_64 / 2
  {
    WeightError(v, fraction);
    assert 0 <= fraction * v.Reciprocal() <= TWO_32 by {
      DivAtLeast(TWO_32, v.Scale(), 0);
      MulMonotone(fraction, v.Scale(), v.Reciprocal());
    }
    ProductBound(v.kernel[index + 1] - v.kernel[index], fraction * v.Reciprocal() / TWO_16, TWO_16);
    BetweenNeighbours(v, index, fraction);
    GainBounded(v);
    ProductBound(v.Interpolated(index, fraction), v.Gain(), TWO_16);
  }

  lemma SideFits(v: Converter, x: seq<Frame>, c: nat, n: nat, lo: int, hi: int)
    requires v.Valid() && TableBounded(v) && SamplesBounded(x) && v.Scale() <= TWO_16 && lo <= hi <= lo + 160
    ensures -160 * TERM_BOUND <= Window(v, x, c, n, lo, hi) <= 160 * TERM_BOUND
  {
    WindowBounded(v, x, c, n, lo, hi);
  }

  /**
   With 24-bit samples and any table in Q30, no partial sum of the two sides
   between the card's rates leaves 64 bits, with the rounding term on top.
   */
  lemma SumsFit(v: Converter, from: SampleRate, to: SampleRate, x: seq<Frame>, c: nat, n: nat, left: nat, right: nat)
    requires v.Valid() && TableBounded(v) && SamplesBounded(x)
    requires IsRatio(from.Hz(), to.Hz(), v.up, v.down)
    requires left <= v.Taps() && right <= v.Taps()
    ensures var sum := Window(v, x, c, n, v.Center(n) + 1 - left, v.Center(n) + 1)
                     + Window(v, x, c, n, v.Center(n) + 1, v.Center(n) + 1 + right);
            -(TWO_64 / 4) <= sum && sum + 0x2000_0000 < TWO_64 / 4
  {
    CardRatesFit(v, from, to);
    SideFits(v, x, c, n, v.Center(n) + 1 - left, v.Center(n) + 1);
    SideFits(v, x, c, n, v.Center(n) + 1, v.Center(n) + 1 + right);
  }
}
