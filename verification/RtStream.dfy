/**
 A stream at its own rate on a card at another: frames pass between the ring of
 packets and the card through the resampler, which is asked for as many as it
 can give and given as many as it needs.
 */
module RtStream {
  import opened Arithmetic
  import opened CardRates
  import opened Conversion
  import opened Convolution
  import opened PacketRing
  import opened Resampler
  import opened ResamplerLimits
  import opened Sequences
  import opened Wrappers

  /** The resampler has been given as much as its last output needed, and no more. */
  ghost predicate Fed(r: Resampler)
    requires r.up > 0 && r.Spec().Valid()
    reads r
  {
    r.pushed == if r.popped == 0 then 0 else r.Spec().Center(r.popped - 1) + r.Spec().Taps() + 1
  }

  /** The resampler is idle or converts between two of the card's rates. */
  ghost predicate Tuned(r: Resampler)
    reads r, r.history
  {
    && r.Valid() && r.channels == 2
    && (r.up > 0 ==> r.down > 0 && 2 * r.taps <= HISTORY && IsRatio(r.fromHz, r.toHz, r.up, r.down))
    && (r.up == 0 ==> (r.fromHz, r.toHz) == (0, 0))
  }

  /** A fed resampler has been given no more than its next output needs. */
  lemma FedIsBehind(r: Resampler)
    requires r.Valid() && r.up > 0 && Fed(r)
    ensures r.pushed <= r.center + r.taps + 1
  {
    r.CenterIsSpec();
    TapsPositive(r.Spec());
    if r.popped > 0 {
      MulMonotone(r.popped - 1, r.popped, r.down);
      DivMonotone((r.popped - 1) * r.down, r.popped * r.down, r.up);
    }
  }

  lemma OutputsGrow(v: Converter, x: seq<Frame>, y: seq<Frame>, out: seq<Frame>, frame: Frame)
    requires v.Valid() && v.down > 0 && x <= y && frame == OutputFrame(v, 2, y, |out|)
    requires out != [] ==> |out| <= Available(v, |x|) && out == Outputs(v, 2, x, |out|)
    ensures out + [frame] == Outputs(v, 2, y, |out| + 1)
  {
    if out != [] {
      OutputsAreCausal(v, 2, x, y, |out|);
    }
  }

  /** What the last output needed makes all outputs up to it available. */
  lemma ReadyWhenFed(v: Converter, count: nat, given: nat)
    requires v.Valid() && v.down > 0 && count > 0 && given == v.Center(count - 1) + v.Taps() + 1
    ensures count <= Available(v, given)
  {
    ReadyFrom(v, count - 1, given);
  }

  class RtStream {
    const rate: SampleRate
    const ring: PacketRing
    const resampler: Resampler

    ghost predicate Valid()
      reads ring, resampler, resampler.history
    {
      ring.Valid() && Tuned(resampler)
    }

    /** A stream that plays. */
    ghost predicate Renders()
      reads ring, resampler, resampler.history
    {
      Valid() && (resampler.up > 0 ==> Fed(resampler))
    }

    /** A stream that records. */
    ghost predicate Captures()
      reads ring, resampler, resampler.history
    {
      Valid() && (resampler.up > 0 ==> Drained(resampler))
    }

    constructor (kernel: seq<int>, containerBytes: nat, rate: SampleRate)
      requires |kernel| == ENTRIES && (containerBytes == 2 || containerBytes == 4)
      ensures Renders() && Captures() && this.rate == rate && ring.count == 0
    {
      this.rate := rate;
      ring := new PacketRing(containerBytes);
      resampler := new Resampler.Boxed(kernel, 2);
    }

    method Reset()
      requires Valid()
      modifies ring.cursor, ring`captured, ring`rendered, resampler
      ensures Renders() && Captures() && (resampler.fromHz, resampler.toHz) == (0, 0)
      ensures ring.cursor.frames == 0 && ring.rendered == [] && ring.captured == []
      ensures ring.count > 0 ==> ring.Paced() && ring.HoldsNewest()
    {
      ring.Reset();
      resampler.Clear();
    }

    /** The conversion a frame from or to the card goes through, started over when the card's rate has changed. */
    method Tune(from: SampleRate, to: SampleRate)
      requires Tuned(resampler)
      modifies resampler, resampler.history
      ensures Tuned(resampler) && resampler.up > 0
      ensures (resampler.fromHz, resampler.toHz) == (from.Hz(), to.Hz())
      ensures old((resampler.fromHz, resampler.toHz)) == (from.Hz(), to.Hz()) ==>
                unchanged(resampler) && unchanged(resampler.history)
      ensures old((resampler.fromHz, resampler.toHz)) != (from.Hz(), to.Hz()) ==>
                && IsRatio(from.Hz(), to.Hz(), resampler.up, resampler.down)
                && resampler.popped == 0 && resampler.input == [] && (resampler.center, resampler.pushed) == (0, 0)
    {
      if (resampler.fromHz, resampler.toHz) != (from.Hz(), to.Hz()) {
        resampler.Reset(from.Hz(), to.Hz());
        RingFits(resampler.Spec(), from.Hz(), to.Hz());
      }
    }

    /** The card's rate has not changed since the last conversion. */
    ghost predicate Continues(from: SampleRate, to: SampleRate)
      reads resampler
    {
      (resampler.fromHz, resampler.toHz) == (from.Hz(), to.Hz())
    }

    /** The resampler converts from one rate to the other. */
    ghost predicate Converting(from: SampleRate, to: SampleRate)
      reads resampler
    {
      Continues(from, to) && resampler.up > 0
    }

    /** The ratio of the conversion is that of the two rates. */
    lemma RatioIsExact(from: SampleRate, to: SampleRate)
      requires Valid() && Converting(from, to)
      ensures IsRatio(from.Hz(), to.Hz(), resampler.up, resampler.down)
    {
    }

    /**
     On top of `before` the resampler has been given the frames rendered since:
     those in the packets from `frames` on.
     */
    ghost predicate Given(before: seq<Frame>, rendered: seq<Stereo>, frames: nat)
      reads ring, ring.cursor, ring.buffers, resampler`input
    {
      && ring.Valid() && rendered <= ring.rendered
      && ring.Plays(frames, ring.rendered[|rendered|..])
      && resampler.input == before + ring.rendered[|rendered|..]
      && ring.cursor.frames == frames + if ring.count == 0 then 0 else |ring.rendered| - |rendered|
    }

    /** If a frame has moved since, the position was taken at `time`. */
    ghost predicate Stamped(frames: nat, time: nat)
      reads ring, ring.cursor
    {
      ring.count > 0 && ring.cursor.frames > frames ==> ring.cursor.qpc == time
    }

    /** One more frame from the ring. */
    method Feed(time: nat, ghost before: seq<Frame>, ghost rendered: seq<Stereo>, ghost frames: nat)
      requires Valid() && Given(before, rendered, frames)
      modifies ring.cursor, ring`rendered, resampler`pushed, resampler`input, resampler.history
      ensures Valid() && Given(before, rendered, frames)
      ensures resampler.pushed == old(resampler.pushed) + 1
      ensures ring.count > 0 ==> ring.cursor.qpc == time
      ensures old(ring.Paced()) ==> ring.Paced()
    {
      ghost var (given, at) := (ring.rendered, ring.cursor.frames);
      var samples := ring.RenderFrame(time);
      ring.PlaysNext(frames, given[|rendered|..], at, samples);
      SuffixGrows(given, |rendered|, samples);
      ConcatAssociates(before, given[|rendered|..], [samples]);
      resampler.Push(samples);
    }

    /** Nothing yet, or output `n`, for which the resampler has been given what it needs. */
    ghost predicate Popped(next: Option<Frame>, n: nat)
      reads ring, resampler, resampler.history
    {
      && Valid() && resampler.up > 0
      && if next.None? then resampler.popped == n && resampler.pushed <= resampler.center + resampler.taps
         else
           && resampler.popped == n + 1 && Fed(resampler)
           && next.value == OutputFrame(resampler.Spec(), 2, resampler.input, n)
    }

    method PopOnce() returns (next: Option<Frame>)
      requires Valid() && resampler.up > 0 && resampler.pushed <= resampler.center + resampler.taps + 1
      modifies resampler`center, resampler`phase, resampler`popped
      ensures Popped(next, old(resampler.popped))
      ensures next.None? ==> unchanged(resampler)
    {
      next := PopNext(resampler);
    }

    /** One frame more than came before, and the output if that was enough. */
    method FeedAndPop(time: nat, ghost n: nat, ghost before: seq<Frame>, ghost rendered: seq<Stereo>, ghost frames: nat)
      returns (next: Option<Frame>)
      requires Popped(None, n) && Given(before, rendered, frames)
      modifies ring.cursor, ring`rendered,
               resampler`pushed, resampler`input, resampler`center, resampler`phase, resampler`popped, resampler.history
      ensures Popped(next, n) && Given(before, rendered, frames)
      ensures next.None? ==> resampler.pushed > old(resampler.pushed) && resampler.center == old(resampler.center)
      ensures ring.count > 0 ==> ring.cursor.qpc == time
      ensures old(ring.Paced()) ==> ring.Paced()
    {
      Feed(time, before, rendered, frames);
      next := PopOnce();
    }

    /** The next output, for which frames are taken from the ring as it needs them. */
    method Pull(time: nat) returns (frame: Frame)
      requires Renders() && resampler.up > 0
      modifies ring.cursor, ring`rendered,
               resampler`pushed, resampler`input, resampler`center, resampler`phase, resampler`popped, resampler.history
      ensures Renders() && resampler.popped == old(resampler.popped) + 1
      ensures frame == OutputFrame(resampler.Spec(), 2, resampler.input, old(resampler.popped))
      ensures Given(old(resampler.input), old(ring.rendered), old(ring.cursor.frames))
      ensures Stamped(old(ring.cursor.frames), time)
      ensures old(ring.Paced()) ==> ring.Paced()
    {
      FedIsBehind(resampler);
      ghost var (n, before, rendered, frames) := (resampler.popped, resampler.input, ring.rendered, ring.cursor.frames);
      var next := PopOnce();
      while next.None?
        invariant Popped(next, n) && Given(before, rendered, frames) && Stamped(frames, time)
        invariant old(ring.Paced()) ==> ring.Paced()
        decreases if next.None? then resampler.center + resampler.taps + 1 - resampler.pushed else 0
      {
        next := FeedAndPop(time, n, before, rendered, frames);
      }
      frame := next.value;
    }

    method RenderConverted(card: SampleRate, time: nat) returns (frame: Frame)
      requires Renders()
      modifies ring.cursor, ring`rendered, resampler, resampler.history
      ensures Renders() && Converting(rate, card)
      ensures Stamped(old(ring.cursor.frames), time)
      ensures old(Continues(rate, card)) ==> resampler.Spec() == old(resampler.Spec())
      ensures old(ring.Paced()) ==> ring.Paced()
      ensures var (input, n) :=
                if old(Continues(rate, card)) then old((resampler.input, resampler.popped)) else ([], 0);
              && resampler.popped == n + 1
              && frame == OutputFrame(resampler.Spec(), 2, resampler.input, n) && Are24Bit(frame)
              && Given(input, old(ring.rendered), old(ring.cursor.frames))
    {
      Tune(rate, card);
      frame := Pull(time);
    }

    /** One frame at the card's rate, from the ring as it is or converted. */
    method Render(card: SampleRate, time: nat) returns (frame: Frame)
      requires Renders()
      modifies ring.cursor, ring`rendered, resampler, resampler.history
      ensures Renders() && |frame| == 2 && Are24Bit(frame)
      ensures Stamped(old(ring.cursor.frames), time)
      ensures old(ring.Paced()) ==> ring.Paced()
      ensures card == rate ==>
                unchanged(resampler) && frame == old(ring.Supplied(ring.cursor.frames))
                    && ring.rendered == old(ring.rendered) + [frame]
      ensures card != rate ==> Converting(rate, card)
      ensures card != rate && old(Continues(rate, card)) ==> resampler.Spec() == old(resampler.Spec())
      ensures card != rate ==>
                var (input, n) :=
                  if old(Continues(rate, card)) then old((resampler.input, resampler.popped)) else ([], 0);
                && resampler.popped == n + 1
                && frame == OutputFrame(resampler.Spec(), 2, resampler.input, n)
                && resampler.pushed == resampler.Spec().Center(n) + resampler.Spec().Taps() + 1
                && Given(input, old(ring.rendered), old(ring.cursor.frames))
    {
      if rate == card {
        frame := ring.RenderFrame(time);
        return;
      }
      frame := RenderConverted(card, time);
    }

    /** What a captured frame makes available at the stream's rate. */
    method Convert(samples: Stereo, card: SampleRate) returns (out: seq<Frame>)
      requires Captures()
      modifies resampler, resampler.history
      ensures Captures() && Converting(card, rate)
      ensures old(Continues(card, rate)) ==> resampler.Spec() == old(resampler.Spec())
      ensures forall k | 0 <= k < |out| :: |out[k]| == 2
      ensures var (input, n) :=
                if old(Continues(card, rate)) then old((resampler.input, resampler.popped)) else ([], 0);
              && resampler.input == input + [samples]
              && resampler.popped == n + |out|
              && (forall k | 0 <= k < |out| :: out[k] == OutputFrame(resampler.Spec(), 2, resampler.input, n + k))
    {
      Tune(card, rate);
      out := PushAndDrain(resampler, samples);
    }

    /** Puts converted frames into the ring. */
    method StoreAll(out: seq<Frame>, time: nat)
      requires ring.Valid() && (forall k | 0 <= k < |out| :: |out[k]| == 2)
      modifies ring.cursor, ring`captured, ring.buffers
      ensures ring.Valid() && ring.captured == old(ring.captured) + out
      ensures Stamped(old(ring.cursor.frames), time)
      ensures old(ring.Paced()) ==> ring.Paced()
      ensures ring.count > 0 && old(ring.HoldsNewest()) ==> ring.HoldsNewest()
    {
      for k := 0 to |out|
        invariant ring.Valid() && ring.captured == old(ring.captured) + out[..k]
        invariant Stamped(old(ring.cursor.frames), time)
        invariant old(ring.Paced()) ==> ring.Paced()
        invariant ring.count > 0 && old(ring.HoldsNewest()) ==> ring.HoldsNewest()
      {
        TakeNext(out, k);
        ring.CaptureFrame(out[k], time);
      }
      assert out[..|out|] == out;
    }

    /** Takes a frame the card captured. */
    method Capture(samples: Stereo, card: SampleRate, time: nat)
      requires Captures()
      modifies ring.cursor, ring`captured, ring.buffers, resampler, resampler.history
      ensures Captures()
      ensures Stamped(old(ring.cursor.frames), time)
      ensures old(ring.Paced()) ==> ring.Paced()
      ensures ring.count > 0 && old(ring.HoldsNewest()) ==> ring.HoldsNewest()
      ensures card == rate ==> unchanged(resampler) && ring.captured == old(ring.captured) + [samples]
      ensures card != rate ==> Converting(card, rate)
      ensures card != rate && old(Continues(card, rate)) ==> resampler.Spec() == old(resampler.Spec())
      ensures card != rate ==>
                var (input, n) :=
                  if old(Continues(card, rate)) then old((resampler.input, resampler.popped)) else ([], 0);
                && resampler.input == input + [samples]
                && resampler.popped == n + |ring.captured| - |old(ring.captured)|
                && old(ring.captured) <= ring.captured
                && (forall k | |old(ring.captured)| <= k < |ring.captured| ::
                      ring.captured[k]
                          == OutputFrame(resampler.Spec(), 2, resampler.input, n + k - |old(ring.captured)|))
    {
      if rate == card {
        ring.CaptureFrame(samples, time);
        return;
      }
      var out := Convert(samples, card);
      StoreAll(out, time);
    }

    /** All frames rendered so far are those in the packets, from the first on. */
    ghost predicate FromPackets()
      requires ring.Valid()
      reads ring, ring.cursor, ring.buffers
    {
      && ring.Plays(0, ring.rendered)
      && (ring.count > 0 ==> ring.Paced())
      && ring.cursor.frames == if ring.count == 0 then 0 else |ring.rendered|
    }

    /** And so they are when more has been given. */
    lemma PacketsGoOn(before: seq<Frame>, rendered: seq<Stereo>, frames: nat)
      requires ring.Valid() && ring.Plays(0, rendered) && Given(before, rendered, frames)
      requires frames == if ring.count == 0 then 0 else |rendered|
      ensures ring.Plays(0, ring.rendered)
      ensures before == rendered ==> resampler.input == ring.rendered
    {
      ring.PlaysJoin(0, rendered, ring.rendered[|rendered|..]);
      PrefixJoins(rendered, ring.rendered);
    }

    /** Output `n` of a conversion that has been given `before`. */
    method RenderAfter(card: SampleRate, time: nat, ghost before: seq<Frame>, ghost n: nat) returns (frame: Frame)
      requires card != rate && Renders()
      requires before == ring.rendered && FromPackets()
      requires (before, n) == if Continues(rate, card) then (resampler.input, resampler.popped) else ([], 0)
      modifies ring.cursor, ring`rendered, resampler, resampler.history
      ensures Renders() && Converting(rate, card)
      ensures old(Continues(rate, card)) ==> resampler.Spec() == old(resampler.Spec())
      ensures resampler.popped == n + 1 && frame == OutputFrame(resampler.Spec(), 2, resampler.input, n)
      ensures before <= ring.rendered == resampler.input && FromPackets()
    {
      ghost var rendered, at := ring.rendered, ring.cursor.frames;
      frame := Render(card, time);
      PacketsGoOn(before, rendered, at);
    }

    /** `out` is all that has been played at one rate of the card's, and took exactly what its last frame needs. */
    ghost predicate Played(card: SampleRate, out: seq<Frame>)
      reads this, ring, ring.cursor, ring.buffers, resampler, resampler.history
    {
      && Renders() && FromPackets()
      && if out == [] then !Continues(rate, card) && ring.rendered == []
         else
           && Converting(rate, card) && resampler.popped == |out| && resampler.input == ring.rendered
           && out == Outputs(resampler.Spec(), 2, ring.rendered, |out|)
    }

    method PlayNext(card: SampleRate, time: nat, ghost out: seq<Frame>) returns (frame: Frame)
      requires card != rate && Played(card, out)
      modifies ring.cursor, ring`rendered, resampler, resampler.history
      ensures Played(card, out + [frame])
    {
      ghost var was := ring.rendered;
      if out != [] {
        ReadyWhenFed(resampler.Spec(), |out|, |was|);
      }
      frame := RenderAfter(card, time, was, |out|);
      OutputsGrow(resampler.Spec(), was, ring.rendered, out, frame);
    }

    /** Playing `count` frames from a reset on. */
    method Play(card: SampleRate, clock: nat -> nat, count: nat) returns (out: seq<Frame>)
      requires Valid() && card != rate
      modifies ring.cursor, ring`captured, ring`rendered, resampler, resampler.history
      ensures |out| == count && Played(card, out)
      ensures |ring.rendered|
                == if count == 0 then 0 else resampler.Spec().Center(count - 1) + resampler.Spec().Taps() + 1
    {
      Reset();
      out := [];
      for n := 0 to count
        invariant |out| == n && Played(card, out)
      {
        var frame := PlayNext(card, clock(n), out);
        out := out + [frame];
      }
    }

    /**
     What has been recorded of `frames` at one rate of the card's is their
     conversion, and the ring holds the newest part of it.
     */
    ghost predicate Recorded(card: SampleRate, frames: seq<Stereo>)
      reads this, ring, ring.cursor, ring.buffers, resampler, resampler.history
    {
      && Captures()
      && (ring.count > 0 ==> ring.Paced() && ring.HoldsNewest())
      && if frames == [] then !Continues(card, rate) && ring.captured == []
         else
           && Converting(card, rate) && resampler.input == frames
           && resampler.popped == Available(resampler.Spec(), |frames|)
           && ring.captured == Outputs(resampler.Spec(), 2, frames, Available(resampler.Spec(), |frames|))
    }

    method RecordNext(card: SampleRate, time: nat, ghost frames: seq<Stereo>, frame: Stereo)
      requires card != rate && Recorded(card, frames)
      modifies ring.cursor, ring`captured, ring.buffers, resampler, resampler.history
      ensures Recorded(card, frames + [frame])
    {
      ghost var before := ring.captured;
      Capture(frame, card, time);
      resampler.CenterIsSpec();
      DrainedCount(resampler.Spec(), resampler.pushed, resampler.popped);
      if frames != [] {
        OutputsAreCausal(resampler.Spec(), 2, frames, resampler.input, |before|);
      }
    }

    /** Capturing `frames` from a reset on. */
    method Record(card: SampleRate, clock: nat -> nat, frames: seq<Stereo>)
      requires Valid() && card != rate
      modifies ring.cursor, ring`captured, ring`rendered, ring.buffers,
               resampler, resampler.history
      ensures Recorded(card, frames)
    {
      Reset();
      for k := 0 to |frames|
        invariant Recorded(card, frames[..k])
      {
        TakeNext(frames, k);
        RecordNext(card, clock(k), frames[..k], frames[k]);
      }
      assert frames[..|frames|] == frames;
    }
  }
}
