/** The four samples of a played frame: each a clipped sum. */
module AudioMixing {
  import opened Arithmetic
  import opened Mode2
  import opened PacketRing
  import opened Wrappers

  /** A sum the driver's 32-bit addition does not wrap. */
  function Add32(x: int, y: int): int
    requires -0x8000_0000 <= x + y < 0x8000_0000
  {
    x + y
  }

  /** What channel `c` gets from its pair, zero without a stream there. */
  function StreamSample(pairs: seq<Option<Stereo>>, c: nat): int
    requires |pairs| == 2 && c < CHANNELS
  {
    if pairs[c / 2].Some? then pairs[c / 2].value[c % 2] else 0
  }

  function HostSample(host: Option<Mode2.Frame>, c: nat): int
    requires c < CHANNELS
  {
    if host.Some? then host.value[c] else 0
  }

  /**
   Each output is the session's sample and its stream's, what is too loud clipped,
   and no sum wraps. A stream alone is heard as it is, the first pair on outputs
   1/2 and the second on 3/4, and so is a session alone.
   */
  method Render(host: Option<Mode2.Frame>, pairs: seq<Option<Stereo>>) returns (out: Mode2.Frame)
    requires |pairs| == 2
    requires host.Some? ==> Are24Bit(host.value)
    requires forall i | 0 <= i < 2 && pairs[i].Some? :: Are24Bit(pairs[i].value)
    ensures forall c | 0 <= c < CHANNELS ::
              out[c] == Clamp(HostSample(host, c) + StreamSample(pairs, c), MIN_SAMPLE, MAX_SAMPLE)
    ensures Are24Bit(out)
    ensures host.None? && pairs[0].Some? && pairs[1].None? ==> out == [pairs[0].value[0], pairs[0].value[1], 0, 0]
    ensures host.None? && pairs[0].None? && pairs[1].Some? ==> out == [0, 0, pairs[1].value[0], pairs[1].value[1]]
    ensures host.Some? && pairs[0].None? && pairs[1].None? ==> out == host.value
  {
    var frame := new int[CHANNELS](c requires 0 <= c => if c < CHANNELS then HostSample(host, c) else 0);
    for i := 0 to 2
      invariant forall c | 0 <= c < CHANNELS ::
                  frame[c] == HostSample(host, c) + if c < 2 * i then StreamSample(pairs, c) else 0
    {
      if pairs[i].Some? {
        var first := 2 * i;
        assert Is24Bit(pairs[i].value[0]) && Is24Bit(pairs[i].value[1]);
        assert Is24Bit(HostSample(host, first)) && Is24Bit(HostSample(host, first + 1));
        frame[first] := Add32(frame[first], pairs[i].value[0]);
        frame[first + 1] := Add32(frame[first + 1], pairs[i].value[1]);
      }
    }
    out := seq(CHANNELS, c requires 0 <= c < CHANNELS reads frame => Clamp(frame[c], MIN_SAMPLE, MAX_SAMPLE));
  }
}
