/**
 What the resampler is meant to compute, without its state: output `n` of a
 conversion lies at input position `n * down / up` and is the sum, over every
 input sample there ever was or will be, of the sample times the kernel's value
 at its distance.
 */
module Convolution {
  import opened Arithmetic

  /** The table holds one side of the kernel, `STEPS` entries per zero crossing, and a closing entry. */
  const ZERO_CROSSINGS := 32
  const STEPS := 256
  const LIMIT := 8192
  const ENTRIES := 8194

  /** One sample per channel. */
  type Frame = seq<int>

  /** The sample at position `i` of channel `c`; silence before the stream and past the frames given. */
  function At(x: seq<Frame>, c: nat, i: int): int {
    if 0 <= i < |x| && c < |x[i]| then x[i][c] else 0
  }

  datatype Converter = Converter(kernel: seq<int>, up: int, down: int) {

    predicate Valid() {
      |kernel| == ENTRIES && up > 0 && down >= 0
    }

    function Scale(): int {
      Max(up, down)
    }

    /** Half the kernel's width, in input samples. */
    function Taps(): int
      requires Valid()
    {
      CeilDiv(ZERO_CROSSINGS * Scale(), up)
    }

    function Gain(): int
      requires Valid()
    {
      if down > up then up * TWO_16 / down else 0
    }

    function Reciprocal(): int
      requires Valid()
    {
      TWO_32 / Scale()
    }

    /** The kernel between entries `index` and `index + 1`, `fraction` / `scale` of the way. */
    function Interpolated(index: nat, fraction: nat): int
      requires Valid() && index < LIMIT
    {
      var weight := fraction * Reciprocal() / TWO_16;
      kernel[index] + (kernel[index + 1] - kernel[index]) * weight / TWO_16
    }

    function Amplified(coefficient: int): int
      requires Valid()
    {
      if Gain() != 0 then coefficient * Gain() / TWO_16 else coefficient
    }

    /** The kernel's value `distance` / `up` input samples from its centre. */
    function Coefficient(distance: nat): int
      requires Valid()
    {
      var position := distance * STEPS;
      if position / Scale() >= LIMIT then 0
      else
        assert position / Scale() >= 0 by { DivAtLeast(position, Scale(), 0); }
        Amplified(Interpolated(position / Scale(), position % Scale()))
    }

    /** The space between input `i` and output `n`, in parts of which `up` make an input sample. */
    function Distance(n: nat, i: int): nat {
      Abs(i * up - n * down)
    }

    /** The last input that does not lie past output `n`. */
    function Center(n: nat): int
      requires Valid()
    {
      n * down / up
    }
  }

  function Term(v: Converter, x: seq<Frame>, c: nat, n: nat, i: int): int
    requires v.Valid()
  {
    At(x, c, i) * v.Coefficient(v.Distance(n, i))
  }

  /** The terms of output `n` from inputs `lo` up to but not including `hi`. */
  function Window(v: Converter, x: seq<Frame>, c: nat, n: nat, lo: int, hi: int): int
    requires v.Valid()
    decreases hi - lo
  {
    if hi <= lo then 0 else Window(v, x, c, n, lo, hi - 1) + Term(v, x, c, n, hi - 1)
  }

  /** Every window that reaches at least `reach` to both sides of zero is worth `total`. */
  ghost predicate Settled(v: Converter, x: seq<Frame>, c: nat, n: nat, total: int, reach: nat)
    requires v.Valid()
  {
    forall lo: int, hi: int | lo + reach <= 0 && reach <= hi :: Window(v, x, c, n, lo, hi) == total
  }

  /** The sum over all integers: windows are worth `total` from some size on. */
  ghost predicate SumsTo(v: Converter, x: seq<Frame>, c: nat, n: nat, total: int)
    requires v.Valid()
  {
    exists reach: nat :: Settled(v, x, c, n, total, reach)
  }

  /** Q30 to 24 bits: rounded to nearest and clamped. */
  function Rounded(sum: int): (sample: int)
    ensures MIN_SAMPLE <= sample <= MAX_SAMPLE
  {
    Clamp((sum + 0x2000_0000) / 0x4000_0000, MIN_SAMPLE, MAX_SAMPLE)
  }

  /** Within 24 bits the sample is the nearest to the sum over 2^30, the upper of two; beyond, the last one that way. */
  lemma RoundedIsNearest(sum: int)
    ensures MIN_SAMPLE * 0x4000_0000 - 0x2000_0000 <= sum < MAX_SAMPLE * 0x4000_0000 + 0x2000_0000 ==>
              -0x2000_0000 <= sum - Rounded(sum) * 0x4000_0000 < 0x2000_0000
    ensures sum < MIN_SAMPLE * 0x4000_0000 - 0x2000_0000 ==> Rounded(sum) == MIN_SAMPLE
    ensures sum >= MAX_SAMPLE * 0x4000_0000 + 0x2000_0000 ==> Rounded(sum) == MAX_SAMPLE
  {
    DivModParts(sum + 0x2000_0000, 0x4000_0000);
  }

  lemma {:induction false} WindowSplit(v: Converter, x: seq<Frame>, c: nat, n: nat, lo: int, mid: int, hi: int)
    requires v.Valid() && lo <= mid <= hi
    ensures Window(v, x, c, n, lo, hi) == Window(v, x, c, n, lo, mid) + Window(v, x, c, n, mid, hi)
    decreases hi - mid
  {
    if mid < hi {
      WindowSplit(v, x, c, n, lo, mid, hi - 1);
    }
  }

  lemma {:induction false} WindowZero(v: Converter, x: seq<Frame>, c: nat, n: nat, lo: int, hi: int)
    requires v.Valid()
    requires forall i | lo <= i < hi :: Term(v, x, c, n, i) == 0
    ensures Window(v, x, c, n, lo, hi) == 0
    decreases hi - lo
  {
    if lo < hi {
      WindowZero(v, x, c, n, lo, hi - 1);
    }
  }

  lemma {:induction false} WindowAgree(v: Converter, x: seq<Frame>, y: seq<Frame>, c: nat, n: nat, lo: int, hi: int)
    requires v.Valid()
    requires forall i | lo <= i < hi :: Term(v, x, c, n, i) == Term(v, y, c, n, i)
    ensures Window(v, x, c, n, lo, hi) == Window(v, y, c, n, lo, hi)
    decreases hi - lo
  {
    if lo < hi {
      WindowAgree(v, x, y, c, n, lo, hi - 1);
    }
  }

  lemma SumIsUnique(v: Converter, x: seq<Frame>, c: nat, n: nat, a: int, b: int)
    requires v.Valid() && SumsTo(v, x, c, n, a) && SumsTo(v, x, c, n, b)
    ensures a == b
  {
    var r: nat :| Settled(v, x, c, n, a, r);
    var s: nat :| Settled(v, x, c, n, b, s);
    assert Window(v, x, c, n, 0 - r - s, r + s) == a;
  }

  /** The table reaches exactly its zero crossings, which `Scale` units lie apart; from the last on there is nothing. */
  lemma TableReach(v: Converter, distance: nat)
    requires v.Valid()
    ensures distance * STEPS / v.Scale() < LIMIT <==> distance < ZERO_CROSSINGS * v.Scale()
    ensures distance >= ZERO_CROSSINGS * v.Scale() ==> v.Coefficient(distance) == 0
  {
    DivAtLeast(distance * STEPS, v.Scale(), LIMIT);
  }

  /** Beyond `Taps` input samples the kernel is zero. */
  lemma CoefficientBeyondTaps(v: Converter, tap: int, distance: nat)
    requires v.Valid() && tap >= v.Taps() && distance >= tap * v.up
    ensures v.Coefficient(distance) == 0
  {
    CeilDivAtMost(ZERO_CROSSINGS * v.Scale(), v.up, tap);
    assert distance * STEPS >= LIMIT * v.Scale();
    DivAtLeast(distance * STEPS, v.Scale(), LIMIT);
  }

  /** Between equal rates an input weighs what the table has as many zero crossings out as it lies from the output. */
  lemma EqualRates(v: Converter, n: nat, i: int)
    requires v.Valid() && v.up == v.down
    ensures v.Coefficient(v.Distance(n, i)) == if Abs(i - n) < 32 then v.kernel[256 * Abs(i - n)] else 0
  {
    var away := Abs(i - n);
    MulDistributes(i - n, n, v.up);
    assert v.Distance(n, i) == away * v.up;
    DivModUnique(v.Distance(n, i) * STEPS, v.up, 256 * away, 0);
  }

  lemma CenterBounds(v: Converter, n: nat)
    requires v.Valid()
    ensures 0 <= v.Center(n)
    ensures v.Center(n) * v.up <= n * v.down < (v.Center(n) + 1) * v.up
  {
    DivAtLeast(n * v.down, v.up, 0);
    DivAtLeast(n * v.down, v.up, v.Center(n));
    DivAtLeast(n * v.down, v.up, v.Center(n) + 1);
  }

  /** No input outside the `Taps` samples on either side contributes. */
  lemma TermBeyondTaps(v: Converter, x: seq<Frame>, c: nat, n: nat, i: int)
    requires v.Valid()
    requires i <= v.Center(n) - v.Taps() || v.Center(n) + v.Taps() < i
    ensures Term(v, x, c, n, i) == 0
  {
    CenterBounds(v, n);
    var center := v.Center(n);
    if i <= center - v.Taps() {
      assert (center - i) * v.up == center * v.up - i * v.up;
      CoefficientBeyondTaps(v, center - i, v.Distance(n, i));
    } else {
      assert (i - center - 1) * v.up == i * v.up - (center + 1) * v.up;
      CoefficientBeyondTaps(v, i - center - 1, v.Distance(n, i));
    }
  }

  /** The inputs that matter for output `n`. */
  function Support(v: Converter, x: seq<Frame>, c: nat, n: nat): int
    requires v.Valid()
  {
    Window(v, x, c, n, v.Center(n) - v.Taps() + 1, v.Center(n) + v.Taps() + 1)
  }

  lemma TapsPositive(v: Converter)
    requires v.Valid()
    ensures v.Taps() >= 1
  {
    CeilDivAtMost(ZERO_CROSSINGS * v.Scale(), v.up, 0);
  }

  lemma WindowCovers(v: Converter, x: seq<Frame>, c: nat, n: nat, lo: int, hi: int)
    requires v.Valid() && lo <= v.Center(n) - v.Taps() + 1 && v.Center(n) + v.Taps() + 1 <= hi
    ensures Window(v, x, c, n, lo, hi) == Support(v, x, c, n)
  {
    TapsPositive(v);
    var first, last := v.Center(n) - v.Taps() + 1, v.Center(n) + v.Taps() + 1;
    forall i | lo <= i < first || last <= i < hi ensures Term(v, x, c, n, i) == 0 {
      TermBeyondTaps(v, x, c, n, i);
    }
    WindowSplit(v, x, c, n, lo, first, hi);
    WindowSplit(v, x, c, n, first, last, hi);
    WindowZero(v, x, c, n, lo, first);
    WindowZero(v, x, c, n, last, hi);
  }

  /** Summing the `Taps` inputs on either side of the output sums all of them. */
  lemma SupportIsTheSum(v: Converter, x: seq<Frame>, c: nat, n: nat)
    requires v.Valid()
    ensures SumsTo(v, x, c, n, Support(v, x, c, n))
  {
    var reach: nat := Abs(v.Center(n) - v.Taps() + 1) + Abs(v.Center(n) + v.Taps() + 1);
    forall lo: int, hi: int | lo + reach <= 0 && reach <= hi
      ensures Window(v, x, c, n, lo, hi) == Support(v, x, c, n)
    {
      WindowCovers(v, x, c, n, lo, hi);
    }
    assert Settled(v, x, c, n, Support(v, x, c, n), reach);
  }

  /** An output whose inputs have all arrived is final, whatever the stream goes on with. */
  lemma SupportIsCausal(v: Converter, x: seq<Frame>, y: seq<Frame>, c: nat, n: nat)
    requires v.Valid() && x <= y && v.Center(n) + v.Taps() < |x|
    ensures Support(v, y, c, n) == Support(v, x, c, n)
  {
    WindowAgree(v, y, x, c, n, v.Center(n) - v.Taps() + 1, v.Center(n) + v.Taps() + 1);
  }

  lemma {:induction false} WindowAdds(v: Converter, x: seq<Frame>, y: seq<Frame>, z: seq<Frame>, c: nat, n: nat,
                                      lo: int, hi: int)
    requires v.Valid()
    requires forall i: int :: At(z, c, i) == At(x, c, i) + At(y, c, i)
    ensures Window(v, z, c, n, lo, hi) == Window(v, x, c, n, lo, hi) + Window(v, y, c, n, lo, hi)
    decreases hi - lo
  {
    if lo < hi {
      WindowAdds(v, x, y, z, c, n, lo, hi - 1);
      MulDistributes(At(x, c, hi - 1), At(y, c, hi - 1), v.Coefficient(v.Distance(n, hi - 1)));
    }
  }

  /** The sum of two signals converts to the sum of what each converts to, each channel on its own. */
  lemma Superposition(v: Converter, x: seq<Frame>, y: seq<Frame>, z: seq<Frame>, c: nat, n: nat, a: int, b: int)
    requires v.Valid() && |x| == |y| == |z|
    requires forall i | 0 <= i < |x| :: c < |x[i]| && c < |y[i]| && c < |z[i]| && z[i][c] == x[i][c] + y[i][c]
    requires SumsTo(v, x, c, n, a) && SumsTo(v, y, c, n, b)
    ensures SumsTo(v, z, c, n, a + b)
  {
    var r: nat :| Settled(v, x, c, n, a, r);
    var s: nat :| Settled(v, y, c, n, b, s);
    forall lo: int, hi: int | lo + (r + s) <= 0 && r + s <= hi ensures Window(v, z, c, n, lo, hi) == a + b {
      WindowAdds(v, x, y, z, c, n, lo, hi);
      assert Window(v, x, c, n, lo, hi) == a && Window(v, y, c, n, lo, hi) == b;
    }
    assert Settled(v, z, c, n, a + b, r + s);
  }

  /** A single sample is heard in every output as much as the kernel has at its distance, on its own channel only. */
  lemma ImpulseResponse(v: Converter, x: seq<Frame>, c: nat, n: nat, i: nat)
    requires v.Valid() && i < |x| && c < |x[i]|
    requires forall k | 0 <= k < |x| && k != i && c < |x[k]| :: x[k][c] == 0
    ensures SumsTo(v, x, c, n, x[i][c] * v.Coefficient(Abs(i * v.up - n * v.down)))
  {
    var total := x[i][c] * v.Coefficient(Abs(i * v.up - n * v.down));
    forall lo: int, hi: int | lo + (i + 1) <= 0 && i + 1 <= hi ensures Window(v, x, c, n, lo, hi) == total {
      WindowSplit(v, x, c, n, lo, i, hi);
      WindowSplit(v, x, c, n, i, i + 1, hi);
      WindowZero(v, x, c, n, lo, i);
      WindowZero(v, x, c, n, i + 1, hi);
    }
    assert Settled(v, x, c, n, total, i + 1);
  }
}
