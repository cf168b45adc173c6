/**
 The wire codec. A frame is two blocks of eight bytes, a left and a right one,
 in which both streams take turns byte by byte. What the encoder writes, read
 four bytes later, is what the decoder reads.
 */
module Mode2 {
  import opened Arithmetic
  import opened Sequences

  const STREAMS := 2
  const CHANNELS := 4
  const BLOCK_BYTES := 8
  const FRAME_BYTES := 16

  type byte = b: int | 0 <= b < 256

  /** Both channels of stream 0, then both of stream 1. */
  type Frame = f: seq<int> | |f| == CHANNELS witness [0, 0, 0, 0]

  datatype CaptureStatus = CaptureStatus(frames: nat, checkErrors: nat, outputRejected: bool)

  function CheckByte(stream: nat, blockIndex: nat): byte
    requires stream < STREAMS
  {
    2 * stream + (if blockIndex % 2 == 0 then 1 else 0)
  }

  /** The low 24 bits, most significant byte first. */
  function ToBe24(sample: int): (b: (byte, byte, byte)) {
    var u := sample % TWO_24;
    (u / 0x1_0000, u / 0x100 % 0x100, u % 0x100)
  }

  function FromBe24(b0: byte, b1: byte, b2: byte): int {
    var u := b0 * 0x1_0000 + b1 * 0x100 + b2;
    if u < TWO_24 / 2 then u else u - TWO_24
  }

  /** The 24-bit sample with the same low 24 bits. */
  function SignExtended(sample: int): (s: int)
    ensures MIN_SAMPLE <= s <= MAX_SAMPLE && (s - sample) % TWO_24 == 0
    ensures MIN_SAMPLE <= sample <= MAX_SAMPLE ==> s == sample
  {
    (sample - MIN_SAMPLE) % TWO_24 + MIN_SAMPLE
  }

  lemma SampleRoundTrip(sample: int)
    ensures var (b0, b1, b2) := ToBe24(sample); FromBe24(b0, b1, b2) == SignExtended(sample)
  {
    var u := sample % TWO_24;
    var (b0, b1, b2) := ToBe24(sample);
    assert u == b0 * 0x1_0000 + b1 * 0x100 + b2 by {
      assert u / 0x100 == b0 * 0x100 + b1;
    }
    assert SignExtended(sample) == if u < TWO_24 / 2 then u else u - TWO_24;
  }

  // ---------------------------------------------------------------- capture

  function BlockSample(block: seq<byte>, stream: nat): int
    requires |block| == BLOCK_BYTES && stream < STREAMS
  {
    FromBe24(block[2 + stream], block[4 + stream], block[6 + stream])
  }

  /** Right comes from the first block and left from the second. */
  function CapturedFrame(bytes: seq<byte>): Frame
    requires |bytes| == FRAME_BYTES
  {
    var right, left := bytes[..BLOCK_BYTES], bytes[BLOCK_BYTES..];
    [BlockSample(left, 0), BlockSample(right, 0), BlockSample(left, 1), BlockSample(right, 1)]
  }

  function Flag(b: bool): nat {
    if b then 1 else 0
  }

  function BlockErrors(block: seq<byte>, even: bool): nat
    requires |block| == BLOCK_BYTES
  {
    Flag(block[0] % 64 != Flag(even)) + Flag(block[1] % 64 != 2 + Flag(even))
  }

  predicate BlockRejected(block: seq<byte>)
    requires |block| == BLOCK_BYTES
  {
    block[0] >= 128 || block[1] >= 128
  }

  /** What decoding a capture packet yields: its whole frames, one after the other. */
  function Captured(packet: seq<byte>): seq<Frame> {
    if |packet| < FRAME_BYTES then [] else [CapturedFrame(packet[..FRAME_BYTES])] + Captured(packet[FRAME_BYTES..])
  }

  function Status(packet: seq<byte>): CaptureStatus {
    if |packet| < FRAME_BYTES then CaptureStatus(0, 0, false)
    else
      var rest := Status(packet[FRAME_BYTES..]);
      CaptureStatus(
        rest.frames + 1,
        BlockErrors(packet[..BLOCK_BYTES], true) + BlockErrors(packet[BLOCK_BYTES..FRAME_BYTES], false)
            + rest.checkErrors,
        BlockRejected(packet[..BLOCK_BYTES]) || BlockRejected(packet[BLOCK_BYTES..FRAME_BYTES]) || rest.outputRejected)
  }

  lemma {:induction false} FramesInPacket(packet: seq<byte>)
    ensures |Captured(packet)| == Status(packet).frames == |packet| / FRAME_BYTES
  {
    if |packet| >= FRAME_BYTES {
      FramesInPacket(packet[FRAME_BYTES..]);
    }
  }

  /** Decoding frame by frame from the front is decoding the front, then the next frame. */
  lemma {:induction false} CapturedAppend(front: seq<byte>, frame: seq<byte>)
    requires |front| % FRAME_BYTES == 0 && |frame| == FRAME_BYTES
    ensures Captured(front + frame) == Captured(front) + [CapturedFrame(frame)]
    ensures var (s, t) := (Status(front + frame), Status(front));
            && s.frames == t.frames + 1
            && s.checkErrors == t.checkErrors + BlockErrors(frame[..BLOCK_BYTES], true)
                + BlockErrors(frame[BLOCK_BYTES..], false)
            && s.outputRejected
                == (t.outputRejected || BlockRejected(frame[..BLOCK_BYTES]) || BlockRejected(frame[BLOCK_BYTES..]))
  {
    var whole := front + frame;
    if front == [] {
      assert whole == frame && frame[..FRAME_BYTES] == frame;
      assert frame[BLOCK_BYTES..FRAME_BYTES] == frame[BLOCK_BYTES..];
    } else {
      assert whole[..FRAME_BYTES] == front[..FRAME_BYTES];
      assert whole[FRAME_BYTES..] == front[FRAME_BYTES..] + frame;
      assert whole[..BLOCK_BYTES] == front[..BLOCK_BYTES];
      assert whole[BLOCK_BYTES..FRAME_BYTES] == front[BLOCK_BYTES..FRAME_BYTES];
      CapturedAppend(front[FRAME_BYTES..], frame);
    }
  }

  /** A partial frame at the end is ignored. */
  lemma {:induction false} TrailingBytesIgnored(packet: seq<byte>, trailing: seq<byte>)
    requires |packet| % FRAME_BYTES == 0 && |trailing| < FRAME_BYTES
    ensures Captured(packet + trailing) == Captured(packet) && Status(packet + trailing) == Status(packet)
  {
    var whole := packet + trailing;
    if packet != [] {
      assert whole[..FRAME_BYTES] == packet[..FRAME_BYTES];
      assert whole[FRAME_BYTES..] == packet[FRAME_BYTES..] + trailing;
      assert whole[..BLOCK_BYTES] == packet[..BLOCK_BYTES];
      assert whole[BLOCK_BYTES..FRAME_BYTES] == packet[BLOCK_BYTES..FRAME_BYTES];
      TrailingBytesIgnored(packet[FRAME_BYTES..], trailing);
    }
  }

  /** The frame at `at` comes after those before it. */
  lemma CapturedNext(packet: seq<byte>, at: nat)
    requires at % FRAME_BYTES == 0 && at + FRAME_BYTES <= |packet|
    ensures var (front, bytes, whole) := (packet[..at], packet[at..at + FRAME_BYTES], packet[..at + FRAME_BYTES]);
            && Captured(whole) == Captured(front) + [CapturedFrame(bytes)]
            && Status(whole) == CaptureStatus(
                 Status(front).frames + 1,
                 Status(front).checkErrors + BlockErrors(bytes[..BLOCK_BYTES], true)
                     + BlockErrors(bytes[BLOCK_BYTES..], false),
                 Status(front).outputRejected || BlockRejected(bytes[..BLOCK_BYTES])
                     || BlockRejected(bytes[BLOCK_BYTES..]))
  {
    assert packet[..at + FRAME_BYTES] == packet[..at] + packet[at..at + FRAME_BYTES];
    CapturedAppend(packet[..at], packet[at..at + FRAME_BYTES]);
  }

  lemma CapturedAll(packet: seq<byte>, at: nat)
    requires at % FRAME_BYTES == 0 && at <= |packet| < at + FRAME_BYTES
    ensures Captured(packet) == Captured(packet[..at]) && Status(packet) == Status(packet[..at])
  {
    assert packet == packet[..at] + packet[at..];
    TrailingBytesIgnored(packet[..at], packet[at..]);
  }

  /** Decodes one block into the samples of its channel, counting what its check bytes say. */
  method DecodeBlock(block: seq<byte>, blockInFrame: nat, blockIndex: nat, samples: Frame, status: CaptureStatus)
    returns (samples': Frame, status': CaptureStatus)
    requires |block| == BLOCK_BYTES && blockInFrame < 2
    ensures samples' == samples[blockInFrame := BlockSample(block, 0)][2 + blockInFrame := BlockSample(block, 1)]
    ensures status' == CaptureStatus(status.frames, status.checkErrors + BlockErrors(block, blockIndex % 2 == 0),
                                     status.outputRejected || BlockRejected(block))
  {
    samples', status' := samples, status;
    for stream := 0 to STREAMS
      invariant samples' == (if stream == 0 then samples
                             else if stream == 1 then samples[blockInFrame := BlockSample(block, 0)]
                             else samples[blockInFrame := BlockSample(block, 0)]
                                         [2 + blockInFrame := BlockSample(block, 1)])
      invariant status'.frames == status.frames
      invariant status'.checkErrors == status.checkErrors
                  + (if stream > 0 then Flag(block[0] % 64 != CheckByte(0, blockIndex)) else 0)
                  + (if stream > 1 then Flag(block[1] % 64 != CheckByte(1, blockIndex)) else 0)
      invariant status'.outputRejected
          == (status.outputRejected || (stream > 0 && block[0] >= 128) || (stream > 1 && block[1] >= 128))
    {
      var check := block[stream];
      if check % 64 != CheckByte(stream, blockIndex) {
        status' := status'.(checkErrors := status'.checkErrors + 1);
      }
      status' := status'.(outputRejected := status'.outputRejected || check >= 128);
      var sample := FromBe24(block[2 + stream], block[4 + stream], block[6 + stream]);
      samples' := samples'[stream * 2 + blockInFrame := sample];
    }
  }

  /** The odd block first: the left channel comes second on the wire. */
  method DecodeFrame(bytes: seq<byte>, index: nat, status: CaptureStatus)
    returns (samples: Frame, status': CaptureStatus)
    requires |bytes| == FRAME_BYTES
    ensures samples == CapturedFrame(bytes)
    ensures status' == CaptureStatus(
      status.frames + 1,
      status.checkErrors + BlockErrors(bytes[..BLOCK_BYTES], true) + BlockErrors(bytes[BLOCK_BYTES..], false),
      status.outputRejected || BlockRejected(bytes[..BLOCK_BYTES]) || BlockRejected(bytes[BLOCK_BYTES..]))
  {
    var right, left := bytes[..BLOCK_BYTES], bytes[BLOCK_BYTES..];
    samples := [0, 0, 0, 0];
    samples, status' := DecodeBlock(left, 0, 2 * index + 1, samples, status);
    samples, status' := DecodeBlock(right, 1, 2 * index, samples, status');
    status' := status'.(frames := status'.frames + 1);
  }

  /** The loop gives exactly `Captured` and `Status` of the packet. */
  method DecodeCapture(packet: seq<byte>) returns (frames: seq<Frame>, status: CaptureStatus)
    ensures frames == Captured(packet) && status == Status(packet)
  {
    frames, status := [], CaptureStatus(0, 0, false);
    var index, at := 0, 0;
    while at + FRAME_BYTES <= |packet|
      invariant 0 <= at == index * FRAME_BYTES <= |packet| && index >= 0
      invariant frames == Captured(packet[..at]) && status == Status(packet[..at])
    {
      var bytes := packet[at..at + FRAME_BYTES];
      var samples;
      samples, status := DecodeFrame(bytes, index, status);
      CapturedNext(packet, at);
      frames := frames + [samples];
      index, at := index + 1, at + FRAME_BYTES;
    }
    CapturedAll(packet, at);
  }

  // --------------------------------------------------------------- playback

  /** Per stream, the last two bytes of a sample whose first byte has been sent. */
  datatype Tail = Tail(first: (byte, byte), second: (byte, byte))

  const NO_TAIL := Tail((0, 0), (0, 0))

  function SampleTail(sample: int): (byte, byte) {
    var (b0, b1, b2) := ToBe24(sample);
    (b1, b2)
  }

  function Opens(tail: Tail): seq<byte> {
    [tail.first.0, tail.second.0, tail.first.1, tail.second.1]
  }

  function Begins(s0: int, s1: int, even: bool): seq<byte> {
    [Flag(even), 2 + Flag(even), ToBe24(s0).0, ToBe24(s1).0]
  }

  /** What a frame puts between the end of the frame before and its own end. */
  function Body(frame: Frame): (bytes: seq<byte>)
    ensures |bytes| == FRAME_BYTES - 4
  {
    Begins(frame[0], frame[2], true) + Opens(Tail(SampleTail(frame[0]), SampleTail(frame[2])))
      + Begins(frame[1], frame[3], false)
  }

  /** A block ends the samples before it and begins its own. */
  function EncodedFrame(tail: Tail, frame: Frame): (bytes: seq<byte>)
    ensures |bytes| == FRAME_BYTES
  {
    Opens(tail) + Body(frame)
  }

  function FrameTail(frame: Frame): Tail {
    Tail(SampleTail(frame[1]), SampleTail(frame[3]))
  }

  function Encoded(tail: Tail, frames: seq<Frame>): (bytes: seq<byte>)
    ensures |bytes| == FRAME_BYTES * |frames|
    decreases |frames|
  {
    if frames == [] then [] else EncodedFrame(tail, frames[0]) + Encoded(FrameTail(frames[0]), frames[1..])
  }

  function TailAfter(tail: Tail, frames: seq<Frame>): Tail {
    if frames == [] then tail else FrameTail(frames[|frames| - 1])
  }

  /** The carried tail joins two packets into one. */
  lemma {:induction false} EncodedJoins(tail: Tail, front: seq<Frame>, back: seq<Frame>)
    ensures Encoded(tail, front + back) == Encoded(tail, front) + Encoded(TailAfter(tail, front), back)
    ensures TailAfter(tail, front + back) == TailAfter(TailAfter(tail, front), back)
    decreases |front|
  {
    if front == [] {
      assert front + back == back;
    } else {
      var next := FrameTail(front[0]);
      assert (front + back)[1..] == front[1..] + back;
      EncodedJoins(next, front[1..], back);
      assert TailAfter(next, front[1..]) == TailAfter(tail, front);
      ConcatAssociates(EncodedFrame(tail, front[0]), Encoded(next, front[1..]), Encoded(TailAfter(tail, front), back));
    }
  }

  function Joined(packets: seq<seq<Frame>>): seq<Frame> {
    if packets == [] then [] else packets[0] + Joined(packets[1..])
  }

  /** And so it joins a packet to one more frame. */
  lemma EncodedNext(tail: Tail, front: seq<Frame>, frame: Frame)
    ensures Encoded(tail, front + [frame]) == Encoded(tail, front) + EncodedFrame(TailAfter(tail, front), frame)
    ensures TailAfter(tail, front + [frame]) == FrameTail(frame)
  {
    EncodedJoins(tail, front, [frame]);
    assert [frame][1..] == [];
  }

  /** Packet after packet, each starting from the tail the one before it left. */
  function EncodedPackets(tail: Tail, packets: seq<seq<Frame>>): seq<byte>
    decreases |packets|
  {
    if packets == [] then []
    else Encoded(tail, packets[0]) + EncodedPackets(TailAfter(tail, packets[0]), packets[1..])
  }

  /** However the frames are split into packets, the bytes on the wire are the same. */
  lemma {:induction false} SplitDoesNotMatter(tail: Tail, packets: seq<seq<Frame>>)
    ensures EncodedPackets(tail, packets) == Encoded(tail, Joined(packets))
    decreases |packets|
  {
    if packets != [] {
      SplitDoesNotMatter(TailAfter(tail, packets[0]), packets[1..]);
      EncodedJoins(tail, packets[0], Joined(packets[1..]));
    }
  }

  /** Left and right exchanged in each stream, samples reduced to 24 bits. */
  function Crossed(frame: Frame): Frame {
    [SignExtended(frame[1]), SignExtended(frame[0]), SignExtended(frame[3]), SignExtended(frame[2])]
  }

  function CrossedAll(frames: seq<Frame>): (crossed: seq<Frame>)
    ensures |crossed| == |frames|
  {
    seq(|frames|, i requires 0 <= i < |frames| => Crossed(frames[i]))
  }

  function InterleavedBlock(a: (byte, byte, byte), b: (byte, byte, byte), even: bool): (block: seq<byte>)
    ensures |block| == BLOCK_BYTES
  {
    [Flag(even), 2 + Flag(even), a.0, b.0, a.1, b.1, a.2, b.2]
  }

  lemma InterleavedIsCapture(a: (byte, byte, byte), b: (byte, byte, byte), even: bool)
    ensures var block := InterleavedBlock(a, b, even);
            && BlockSample(block, 0) == FromBe24(a.0, a.1, a.2) && BlockSample(block, 1) == FromBe24(b.0, b.1, b.2)
            && BlockErrors(block, even) == 0 && !BlockRejected(block)
  {
  }

  /** The beginning of a playback block and the end of the next make a capture block. */
  lemma BlockRoundTrip(s0: int, s1: int, even: bool)
    ensures var block := Begins(s0, s1, even) + Opens(Tail(SampleTail(s0), SampleTail(s1)));
            && BlockSample(block, 0) == SignExtended(s0) && BlockSample(block, 1) == SignExtended(s1)
            && BlockErrors(block, even) == 0 && !BlockRejected(block)
  {
    SampleRoundTrip(s0);
    SampleRoundTrip(s1);
    InterleavedIsCapture(ToBe24(s0), ToBe24(s1), even);
    assert Begins(s0, s1, even) + Opens(Tail(SampleTail(s0), SampleTail(s1)))
        == InterleavedBlock(ToBe24(s0), ToBe24(s1), even);
  }

  /** A playback frame less its opening, with what the next block opens with, is a capture frame. */
  function Rotated(frame: Frame): (bytes: seq<byte>)
    ensures |bytes| == FRAME_BYTES
  {
    Body(frame) + Opens(FrameTail(frame))
  }

  lemma FrameRoundTrip(frame: Frame)
    ensures var bytes := Rotated(frame);
            && CapturedFrame(bytes) == Crossed(frame)
            && BlockErrors(bytes[..BLOCK_BYTES], true) == 0 && BlockErrors(bytes[BLOCK_BYTES..], false) == 0
            && !BlockRejected(bytes[..BLOCK_BYTES]) && !BlockRejected(bytes[BLOCK_BYTES..])
  {
    var right := Begins(frame[0], frame[2], true) + Opens(Tail(SampleTail(frame[0]), SampleTail(frame[2])));
    var left := Begins(frame[1], frame[3], false) + Opens(FrameTail(frame));
    assert Rotated(frame) == right + left;
    ConcatParts(right, left);
    BlockRoundTrip(frame[0], frame[2], true);
    BlockRoundTrip(frame[1], frame[3], false);
  }

  lemma EncodedOpens(tail: Tail, frames: seq<Frame>)
    requires frames != []
    ensures Encoded(tail, frames) == Opens(tail) + Encoded(tail, frames)[4..]
    ensures Encoded(tail, frames)[4..] == Body(frames[0]) + Encoded(FrameTail(frames[0]), frames[1..])
  {
    var onwards := Encoded(FrameTail(frames[0]), frames[1..]);
    ConcatAssociates(Opens(tail), Body(frames[0]), onwards);
    ConcatParts(Opens(tail), Body(frames[0]) + onwards);
  }

  /** Four bytes in, the playback stream is the rotated first frame and then the rest, four bytes in. */
  lemma RotatedStream(tail: Tail, frames: seq<Frame>)
    requires |frames| > 1
    ensures Encoded(tail, frames)[4..] == Rotated(frames[0]) + Encoded(FrameTail(frames[0]), frames[1..])[4..]
  {
    var next := FrameTail(frames[0]);
    EncodedOpens(tail, frames);
    EncodedOpens(next, frames[1..]);
    ConcatAssociates(Body(frames[0]), Opens(next), Encoded(next, frames[1..])[4..]);
  }

  lemma RotatedFront(bytes: seq<byte>, front: seq<byte>, onwards: seq<byte>)
    requires bytes == front + onwards && |front| == FRAME_BYTES
    ensures bytes[..FRAME_BYTES] == front && bytes[FRAME_BYTES..] == onwards
    ensures bytes[..BLOCK_BYTES] == front[..BLOCK_BYTES] && bytes[BLOCK_BYTES..FRAME_BYTES] == front[BLOCK_BYTES..]
  {
  }

  /** The playback stream, four bytes in, decodes as capture: every frame but the unfinished last, channels crossed. */
  lemma {:induction false} WireRoundTrip(tail: Tail, frames: seq<Frame>)
    requires frames != []
    ensures Captured(Encoded(tail, frames)[4..]) == CrossedAll(frames[..|frames| - 1])
    ensures Status(Encoded(tail, frames)[4..]) == CaptureStatus(|frames| - 1, 0, false)
    decreases |frames|
  {
    if |frames| > 1 {
      var bytes, rest := Encoded(tail, frames)[4..], frames[1..];
      RotatedStream(tail, frames);
      FrameRoundTrip(frames[0]);
      WireRoundTrip(FrameTail(frames[0]), rest);
      var onwards := Encoded(FrameTail(frames[0]), rest)[4..];
      RotatedFront(bytes, Rotated(frames[0]), onwards);
      assert frames[..|frames| - 1] == [frames[0]] + rest[..|rest| - 1];
    }
  }

  /** The same for the packets the driver sends, however it cuts the frames. */
  lemma PacketsRoundTrip(tail: Tail, packets: seq<seq<Frame>>)
    requires Joined(packets) != []
    ensures var (bytes, frames) := (EncodedPackets(tail, packets), Joined(packets));
            && |bytes| == FRAME_BYTES * |frames|
            && Captured(bytes[4..]) == CrossedAll(frames[..|frames| - 1])
            && Status(bytes[4..]) == CaptureStatus(|frames| - 1, 0, false)
  {
    SplitDoesNotMatter(tail, packets);
    WireRoundTrip(tail, Joined(packets));
  }

  /** Where the frames to play come from, one at a time. */
  class FrameSource {
    const supply: nat -> Frame
    var taken: nat

    constructor (supply: nat -> Frame)
      ensures this.supply == supply && taken == 0
    {
      this.supply, taken := supply, 0;
    }

    method Next() returns (frame: Frame)
      modifies this`taken
      ensures frame == supply(old(taken)) && taken == old(taken) + 1
    {
      frame := supply(taken);
      taken := taken + 1;
    }
  }

  function Supplied(supply: nat -> Frame, from: nat, to: nat): (frames: seq<Frame>)
    requires from <= to
    ensures |frames| == to - from
  {
    seq(to - from, i requires 0 <= i < to - from => supply(from + i))
  }

  lemma SuppliedJoins(supply: nat -> Frame, from: nat, mid: nat, to: nat)
    requires from <= mid <= to
    ensures Supplied(supply, from, to) == Supplied(supply, from, mid) + Supplied(supply, mid, to)
  {
  }

  /** A playback block: the end of the samples before it, the beginning of its own. */
  function PlaybackBlock(tail: Tail, s0: int, s1: int, even: bool): (bytes: seq<byte>)
    ensures |bytes| == BLOCK_BYTES
  {
    Opens(tail) + Begins(s0, s1, even)
  }

  /** Two blocks, left and right, written one after the other are the frame. */
  lemma BlocksOfFrame(packet: seq<byte>, at: nat, tail: Tail, frame: Frame)
    requires at + FRAME_BYTES <= |packet|
    ensures var first := Spliced(packet, at, PlaybackBlock(tail, frame[0], frame[2], true));
            Spliced(first, at + BLOCK_BYTES,
                    PlaybackBlock(Tail(SampleTail(frame[0]), SampleTail(frame[2])), frame[1], frame[3], false))
              == Spliced(packet, at, EncodedFrame(tail, frame))
  {
    var a := PlaybackBlock(tail, frame[0], frame[2], true);
    var b := PlaybackBlock(Tail(SampleTail(frame[0]), SampleTail(frame[2])), frame[1], frame[3], false);
    SpliceJoins(packet, at, a, b);
    assert a + b == EncodedFrame(tail, frame);
  }

  class PlaybackEncoder {
    var tail: Tail

    constructor ()
      ensures tail == NO_TAIL
    {
      tail := NO_TAIL;
    }

    /** Fills one block at `at`: the end of the samples before, the beginning of these. */
    method EncodeBlock(packet: array<byte>, at: nat, blockIndex: nat, s0: int, s1: int)
      requires at + BLOCK_BYTES <= packet.Length
      modifies this, packet
      ensures tail == Tail(SampleTail(s0), SampleTail(s1))
      ensures packet[..] == Spliced(old(packet[..]), at, PlaybackBlock(old(tail), s0, s1, blockIndex % 2 == 0))
    {
      for stream := 0 to STREAMS
        invariant stream > 0 ==> packet[at] == old(tail).first.0 && packet[at + 2] == old(tail).first.1
        invariant stream > 0 ==> packet[at + 4] == CheckByte(0, blockIndex) && packet[at + 6] == ToBe24(s0).0
        invariant stream > 1 ==> packet[at + 1] == old(tail).second.0 && packet[at + 3] == old(tail).second.1
        invariant stream > 1 ==> packet[at + 5] == CheckByte(1, blockIndex) && packet[at + 7] == ToBe24(s1).0
        invariant tail.first == (if stream > 0 then SampleTail(s0) else old(tail).first)
        invariant tail.second == (if stream > 1 then SampleTail(s1) else old(tail).second)
        invariant packet[..at] == old(packet[..at])
        invariant packet[at + BLOCK_BYTES..] == old(packet[at + BLOCK_BYTES..])
      {
        var (b0, b1, b2) := ToBe24(if stream == 0 then s0 else s1);
        var (t1, t2) := if stream == 0 then tail.first else tail.second;
        packet[at + stream] := t1;
        packet[at + 2 + stream] := t2;
        packet[at + 4 + stream] := CheckByte(stream, blockIndex);
        packet[at + 6 + stream] := b0;
        tail := if stream == 0 then tail.(first := (b1, b2)) else tail.(second := (b1, b2));
      }
    }

    method EncodeFrame(packet: array<byte>, at: nat, index: nat, samples: Frame)
      requires at + FRAME_BYTES <= packet.Length
      modifies this, packet
      ensures tail == FrameTail(samples)
      ensures packet[..] == Spliced(old(packet[..]), at, EncodedFrame(old(tail), samples))
    {
      BlocksOfFrame(packet[..], at, tail, samples);
      EncodeBlock(packet, at, 2 * index, samples[0], samples[2]);
      EncodeBlock(packet, at + BLOCK_BYTES, 2 * index + 1, samples[1], samples[3]);
    }

    /** Writes whole frames from `source` over `length` bytes of `packet` from `start` on. */
    method Encode(packet: array<byte>, start: nat, length: nat, source: FrameSource)
      requires length % FRAME_BYTES == 0 && start + length <= packet.Length
      modifies this, packet, source`taken
      ensures source.taken == old(source.taken) + length / FRAME_BYTES
      ensures var frames := Supplied(source.supply, old(source.taken), source.taken);
              && packet[..] == Spliced(old(packet[..]), start, Encoded(old(tail), frames))
              && tail == TailAfter(old(tail), frames)
    {
      var index, at := 0, start;
      ghost var frames: seq<Frame> := [];
      SpliceNothing(packet[..], start);
      while index < length / FRAME_BYTES
        invariant 0 <= index <= length / FRAME_BYTES && at == start + index * FRAME_BYTES
        invariant source.taken == old(source.taken) + index
        invariant frames == Supplied(source.supply, old(source.taken), source.taken)
        invariant tail == TailAfter(old(tail), frames)
        invariant packet[..] == Spliced(old(packet[..]), start, Encoded(old(tail), frames))
      {
        var samples := source.Next();
        ghost var tail0 := tail;
        EncodeFrame(packet, at, index, samples);
        EncodedNext(old(tail), frames, samples);
        SpliceJoins(old(packet[..]), start, Encoded(old(tail), frames), EncodedFrame(tail0, samples));
        frames := frames + [samples];
        index, at := index + 1, at + FRAME_BYTES;
      }
    }
  }
}
