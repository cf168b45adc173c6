/**
 Whole conversions: what a stream of pushes and pops computes, how many frames
 it takes in and gives out, and when the ring is large enough for it.
 */
module Conversion {
  import opened Arithmetic
  import opened Convolution
  import opened Resampler
  import opened ResamplerLimits
  import opened Wrappers

  /** The outputs that `pushed` input frames make available. */
  function Available(v: Converter, pushed: int): nat
    requires v.Valid() && v.down > 0
  {
    Max(0, CeilDiv((pushed - v.Taps()) * v.up, v.down))
  }

  function OutputFrame(v: Converter, channels: nat, x: seq<Frame>, n: nat): Frame
    requires v.Valid()
  {
    seq(channels, c requires 0 <= c < channels => Rounded(Support(v, x, c, n)))
  }

  /** The outputs from the first to the one before `count`. */
  function Outputs(v: Converter, channels: nat, x: seq<Frame>, count: nat): seq<Frame>
    requires v.Valid()
  {
    seq(count, n requires 0 <= n < count => OutputFrame(v, channels, x, n))
  }

  /** The same count in terms of the two rates. */
  lemma AvailableInHertz(v: Converter, fromHz: nat, toHz: nat, pushed: int, n: nat)
    requires v.Valid() && fromHz > 0 && toHz > 0 && IsRatio(fromHz, toHz, v.up, v.down)
    ensures n < Available(v, pushed) <==> n * fromHz < (pushed - v.Taps()) * toHz
  {
    CeilDivAtMost((pushed - v.Taps()) * v.up, v.down, n);
    RatioInHertz(fromHz, toHz, v.up, v.down, pushed - v.Taps(), n);
  }

  /** Between a push and the next, every frame that was ready has been popped. */
  ghost predicate Drained(r: Resampler)
    reads r
  {
    r.up > 0 && r.pushed <= r.center + r.taps
  }

  /**
   Pushing only after a pop has come back empty loses no frame still needed in a
   ring of twice the kernel's half width, and in a smaller one loses some at every output.
   */
  lemma PushesRetain(r: Resampler)
    requires r.up > 0 && r.pushed <= r.center + r.taps + 1
    ensures 2 * r.taps <= HISTORY ==> r.Retained()
    ensures r.center + r.taps < r.pushed ==> (r.Retained() <==> 2 * r.taps <= HISTORY)
  {
  }

  /** An output is ready from the push that completes its right-hand taps on. */
  lemma ReadyFrom(v: Converter, n: nat, pushed: int)
    requires v.Valid() && v.down > 0
    ensures v.Center(n) + v.Taps() < pushed <==> n < Available(v, pushed)
  {
    DivAtLeast(n * v.down, v.up, pushed - v.Taps());
    CeilDivAtMost((pushed - v.Taps()) * v.up, v.down, n);
  }

  /** Drained pushes have let out exactly the frames their number makes available. */
  lemma DrainedCount(v: Converter, pushed: nat, popped: nat)
    requires v.Valid() && v.down > 0
    requires popped > 0 ==> v.Center(popped - 1) + v.Taps() < pushed
    requires pushed <= v.Center(popped) + v.Taps()
    ensures popped == Available(v, pushed)
  {
    ReadyFrom(v, popped, pushed);
    if popped > 0 {
      ReadyFrom(v, popped - 1, pushed);
    }
  }

  /** Rounding the whole down and the part up keeps them apart by the rest. */
  lemma LagBounds(whole: int, rest: int, part: int, d: nat)
    requires d > 0 && whole == part + rest && rest >= d
    ensures whole / d - (rest / d + 1) <= CeilDiv(part, d) <= whole / d
  {
    DivMonotone(part + d - 1, whole, d);
    DivModParts(whole, d);
    DivModParts(rest, d);
    MulDistributes(whole / d, -(rest / d + 1), d);
    MulDistributes(rest / d, 1, d);
    DivAtLeast(part + d - 1, d, whole / d - (rest / d + 1));
  }

  /**
   Outputs follow the ratio of the rates: never more than the input is worth, and
   fewer by no more than the half kernel the first one waits for.
   */
  lemma OutputsFollowTheRatio(v: Converter, pushed: nat)
    requires v.Valid() && v.down > 0
    ensures pushed * v.up / v.down - (v.Taps() * v.up / v.down + 1) <= Available(v, pushed) <= pushed * v.up / v.down
  {
    var up, down, taps := v.up, v.down, v.Taps();
    CeilDivAtMost(ZERO_CROSSINGS * v.Scale(), up, taps);
    MulDistributes(pushed - taps, taps, up);
    DivAtLeast(pushed * up, down, 0);
    LagBounds(pushed * up, taps * up, (pushed - taps) * up, down);
  }

  /** What has come out stays the same as more goes in. */
  lemma OutputsAreCausal(v: Converter, channels: nat, x: seq<Frame>, y: seq<Frame>, count: nat)
    requires v.Valid() && v.down > 0 && x <= y && count <= Available(v, |x|)
    ensures Outputs(v, channels, x, count) == Outputs(v, channels, y, count)
  {
    forall n: nat | n < count ensures OutputFrame(v, channels, x, n) == OutputFrame(v, channels, y, n) {
      ReadyFrom(v, n, |x|);
      forall c: nat | c < channels ensures Support(v, x, c, n) == Support(v, y, c, n) {
        SupportIsCausal(v, x, y, c, n);
      }
    }
  }

  /** Every sample of every output is the rounded sum over the whole signal, past and future. */
  lemma OutputsAreTheSum(v: Converter, channels: nat, x: seq<Frame>, signal: seq<Frame>, n: nat, c: nat, total: int)
    requires v.Valid() && v.down > 0 && x <= signal && n < Available(v, |x|) && c < channels
    requires SumsTo(v, signal, c, n, total)
    ensures Outputs(v, channels, x, Available(v, |x|))[n][c] == Rounded(total)
  {
    ReadyFrom(v, n, |x|);
    SupportIsCausal(v, x, signal, c, n);
    SupportIsTheSum(v, signal, c, n);
    SumIsUnique(v, signal, c, n, total, Support(v, signal, c, n));
  }

  /** How far what has been pushed is ahead of what has been popped. */
  ghost function Backlog(r: Resampler): nat
    reads r
  {
    Max(0, (r.pushed - r.taps) * r.up - r.popped * r.down)
  }

  lemma PopTerminates(r: Resampler)
    requires r.Valid() && r.up > 0
    ensures r.pushed > r.center + r.taps ==> (r.pushed - r.taps) * r.up - r.popped * r.down > 0
    ensures (r.popped + 1) * r.down == r.popped * r.down + r.down
  {
    MulDistributes(r.popped, 1, r.down);
    if r.pushed > r.center + r.taps {
      MulMonotone(r.center + 1, r.pushed - r.taps, r.up);
      NextTap(r.center, r.up);
    }
  }

  /** The next output if the resampler has enough for it, for a client that never gives it more than that needs. */
  method PopNext(r: Resampler) returns (next: Option<Frame>)
    requires r.Valid() && r.up > 0 && r.down > 0 && 2 * r.taps <= HISTORY && r.pushed <= r.center + r.taps + 1
    modifies r`center, r`phase, r`popped
    ensures r.Valid() && r.pushed <= r.center + r.taps + 1
    ensures next.None? ==> Drained(r) && unchanged(r)
    ensures next.Some? ==>
              && r.popped == old(r.popped) + 1 && Backlog(r) < old(Backlog(r))
              && r.pushed == r.Spec().Center(old(r.popped)) + r.taps + 1
              && next.value == OutputFrame(r.Spec(), r.channels, r.input, old(r.popped))
  {
    r.CenterIsSpec();
    PushesRetain(r);
    PopTerminates(r);
    next := r.Pop();
  }

  /** `out` is outputs `from`, `from` + 1, ... of the conversion of `x`. */
  ghost predicate AreOutputs(v: Converter, channels: nat, x: seq<Frame>, from: nat, out: seq<Frame>)
    requires v.Valid()
  {
    forall k: nat | k < |out| :: out[k] == OutputFrame(v, channels, x, from + k)
  }

  /** Gives all that is ready. */
  method Drain(r: Resampler) returns (out: seq<Frame>)
    requires r.Valid() && r.up > 0 && r.down > 0 && 2 * r.taps <= HISTORY && r.pushed <= r.center + r.taps + 1
    modifies r`center, r`phase, r`popped
    ensures r.Valid() && Drained(r)
    ensures r.popped == old(r.popped) + |out|
    ensures AreOutputs(r.Spec(), r.channels, r.input, old(r.popped), out)
  {
    out := [];
    ghost var from := r.popped;
    var next := PopNext(r);
    while next.Some?
      invariant r.Valid() && r.pushed <= r.center + r.taps + 1
      invariant next.None? ==> Drained(r)
      invariant r.popped == from + |out| + if next.Some? then 1 else 0
      invariant AreOutputs(r.Spec(), r.channels, r.input, from, if next.Some? then out + [next.value] else out)
      decreases if next.Some? then Backlog(r) + 1 else 0
    {
      out := out + [next.value];
      next := PopNext(r);
    }
  }

  /** Takes one frame and gives all that it makes available, as a capturing stream does. */
  method PushAndDrain(r: Resampler, frame: Frame) returns (out: seq<Frame>)
    requires r.Valid() && Drained(r) && r.down > 0 && 2 * r.taps <= HISTORY && |frame| == r.channels
    modifies r`pushed, r`input, r`center, r`phase, r`popped, r.history
    ensures r.Valid() && Drained(r)
    ensures r.input == old(r.input) + [frame]
    ensures r.popped == old(r.popped) + |out|
    ensures AreOutputs(r.Spec(), r.channels, r.input, old(r.popped), out)
  {
    r.Push(frame);
    out := Drain(r);
  }

  /** A conversion from a reset to the last frame pushed gives exactly the reference outputs. */
  method Convert(r: Resampler, fromHz: nat, toHz: nat, x: seq<Frame>) returns (out: seq<Frame>)
    requires r.Shaped() && toHz > 0 && 0 < fromHz <= 8 * toHz
    requires forall k | 0 <= k < |x| :: |x[k]| == r.channels
    modifies r, r.history
    ensures r.Valid() && IsRatio(fromHz, toHz, r.up, r.down) && r.Spec().Valid()
    ensures out == Outputs(r.Spec(), r.channels, x, Available(r.Spec(), |x|))
  {
    r.Reset(fromHz, toHz);
    RingFits(r.Spec(), fromHz, toHz);
    out := [];
    for k := 0 to |x|
      invariant r.Valid() && Drained(r) && IsRatio(fromHz, toHz, r.up, r.down) && 2 * r.taps <= HISTORY
      invariant r.input == x[..k] && r.popped == |out|
      invariant out == Outputs(r.Spec(), r.channels, x[..k], |out|)
    {
      ghost var before, was := out, r.input;
      r.CenterIsSpec();
      DrainedCount(r.Spec(), r.pushed, r.popped);
      var more := PushAndDrain(r, x[k]);
      OutputsAreCausal(r.Spec(), r.channels, was, r.input, |before|);
      out := out + more;
      assert x[..k] + [x[k]] == x[..k + 1];
    }
    r.CenterIsSpec();
    DrainedCount(r.Spec(), r.pushed, r.popped);
    assert x[..|x|] == x;
  }
}
