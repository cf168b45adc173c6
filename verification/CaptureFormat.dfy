/**
 Capture packets byte by byte: which bytes the card sends for which frames, that
 decoding is the inverse of that, and what one wrong byte does.
 */
module CaptureFormat {
  import opened Arithmetic
  import opened Mode2

  /** What byte `at` of a packet, the first or second of its block, has in its low six bits. */
  function Expected(at: nat): byte
    requires at % BLOCK_BYTES < STREAMS
  {
    2 * (at % BLOCK_BYTES) + (if at / BLOCK_BYTES % 2 == 0 then 1 else 0)
  }

  /** The first two bytes of each block of a whole frame are check bytes. */
  predicate IsCheck(packet: seq<byte>, at: nat) {
    at < |packet| / FRAME_BYTES * FRAME_BYTES && at % BLOCK_BYTES < STREAMS
  }

  function Wrong(packet: seq<byte>, at: nat, value: byte): nat {
    Flag(IsCheck(packet, at) && value % 64 != Expected(at))
  }

  /** The check bytes of a frame, as they come. */
  function FrameErrors(bytes: seq<byte>): nat
    requires |bytes| == FRAME_BYTES
  {
    Flag(bytes[0] % 64 != 1) + Flag(bytes[1] % 64 != 3) + Flag(bytes[8] % 64 != 0) + Flag(bytes[9] % 64 != 2)
  }

  predicate FrameRejected(bytes: seq<byte>)
    requires |bytes| == FRAME_BYTES
  {
    bytes[0] >= 128 || bytes[1] >= 128 || bytes[8] >= 128 || bytes[9] >= 128
  }

  lemma StatusOf(packet: seq<byte>)
    requires |packet| >= FRAME_BYTES
    ensures var (bytes, rest) := (packet[..FRAME_BYTES], Status(packet[FRAME_BYTES..]));
            && Status(packet).checkErrors == FrameErrors(bytes) + rest.checkErrors
            && (Status(packet).outputRejected <==> FrameRejected(bytes) || rest.outputRejected)
  {
    var first, second := packet[..BLOCK_BYTES], packet[BLOCK_BYTES..FRAME_BYTES];
    assert second[0] == packet[8] && second[1] == packet[9];
  }

  lemma BlockShifts(at: nat)
    requires at >= 16
    ensures (at - 16) % 8 == at % 8 && (at - 16) / 8 % 2 == at / 8 % 2
  {
    assert (at - 16) / 8 == at / 8 - 2;
  }

  lemma WholeFramesShift(n: nat)
    requires n >= 16
    ensures (n - 16) / 16 * 16 == n / 16 * 16 - 16
  {
  }

  lemma PlaceInRest(packet: seq<byte>, at: nat)
    requires FRAME_BYTES <= at < |packet|
    ensures IsCheck(packet[FRAME_BYTES..], at - FRAME_BYTES) <==> IsCheck(packet, at)
    ensures IsCheck(packet, at) ==> Expected(at - FRAME_BYTES) == Expected(at)
  {
    BlockShifts(at);
    WholeFramesShift(|packet|);
  }

  lemma FrameErrorsAt(bytes: seq<byte>, at: nat, value: byte)
    requires |bytes| == FRAME_BYTES && at < FRAME_BYTES
    ensures FrameErrors(bytes[at := value]) + Wrong(bytes, at, bytes[at])
              == FrameErrors(bytes) + Wrong(bytes, at, value)
  {
  }

  /** Each check byte that is wrong in its low six bits counts once; no other byte counts at all. */
  lemma {:induction false} ErrorsCountWrongBytes(packet: seq<byte>, at: nat, value: byte)
    requires at < |packet|
    ensures Status(packet[at := value]).checkErrors + Wrong(packet, at, packet[at])
              == Status(packet).checkErrors + Wrong(packet, at, value)
  {
    var q := packet[at := value];
    if |packet| >= FRAME_BYTES {
      StatusOf(packet);
      StatusOf(q);
      if at < FRAME_BYTES {
        FrameErrorsAt(packet[..FRAME_BYTES], at, value);
        assert q[..FRAME_BYTES] == packet[..FRAME_BYTES][at := value] && q[FRAME_BYTES..] == packet[FRAME_BYTES..];
      } else {
        PlaceInRest(packet, at);
        ErrorsCountWrongBytes(packet[FRAME_BYTES..], at - FRAME_BYTES, value);
        assert q[..FRAME_BYTES] == packet[..FRAME_BYTES];
        assert q[FRAME_BYTES..] == packet[FRAME_BYTES..][at - FRAME_BYTES := value];
      }
    }
  }

  /** A packet is clean exactly if each of its check bytes is right. */
  lemma {:induction false} CleanMeansRight(packet: seq<byte>)
    ensures Status(packet).checkErrors == 0 <==>
              forall at: nat | IsCheck(packet, at) :: packet[at] % 64 == Expected(at)
  {
    if |packet| >= FRAME_BYTES {
      var rest := packet[FRAME_BYTES..];
      StatusOf(packet);
      CleanMeansRight(rest);
      if Status(packet).checkErrors == 0 {
        forall at: nat | IsCheck(packet, at) ensures packet[at] % 64 == Expected(at) {
          if at >= FRAME_BYTES {
            PlaceInRest(packet, at);
            assert rest[at - FRAME_BYTES] == packet[at];
          }
        }
      } else if FrameErrors(packet[..FRAME_BYTES]) == 0 {
        var at: nat :| IsCheck(rest, at) && rest[at] % 64 != Expected(at);
        PlaceInRest(packet, at + FRAME_BYTES);
        assert packet[at + FRAME_BYTES] == rest[at];
      } else {
        assert IsCheck(packet, 0) && IsCheck(packet, 1) && IsCheck(packet, 8) && IsCheck(packet, 9);
      }
    }
  }

  /** One wrong check byte in a clean packet is one error. */
  lemma OneWrongByte(packet: seq<byte>, at: nat, value: byte)
    requires IsCheck(packet, at) && Status(packet).checkErrors == 0
    ensures Status(packet[at := value]).checkErrors == if value % 64 == packet[at] % 64 then 0 else 1
  {
    CleanMeansRight(packet);
    ErrorsCountWrongBytes(packet, at, value);
  }

  /** Playback was rejected exactly if bit 7 of some check byte says so. */
  lemma {:induction false} RejectedMeansBit7(packet: seq<byte>)
    ensures Status(packet).outputRejected <==> exists at: nat :: IsCheck(packet, at) && packet[at] >= 128
  {
    if |packet| >= FRAME_BYTES {
      var rest := packet[FRAME_BYTES..];
      StatusOf(packet);
      RejectedMeansBit7(rest);
      assert IsCheck(packet, 0) && IsCheck(packet, 1) && IsCheck(packet, 8) && IsCheck(packet, 9);
      if at: nat :| IsCheck(packet, at) && packet[at] >= 128 {
        if at >= FRAME_BYTES {
          PlaceInRest(packet, at);
          assert rest[at - FRAME_BYTES] == packet[at];
        }
      }
      if at: nat :| IsCheck(rest, at) && rest[at] >= 128 {
        PlaceInRest(packet, at + FRAME_BYTES);
        assert packet[at + FRAME_BYTES] == rest[at];
      }
    }
  }

  // ------------------------------------------------------------- what the card sends

  function Extended(frame: Frame): Frame {
    [SignExtended(frame[0]), SignExtended(frame[1]), SignExtended(frame[2]), SignExtended(frame[3])]
  }

  /** Three bytes, most significant first, are the low 24 bits of a sample. */
  predicate Carry(b0: byte, b1: byte, b2: byte, sample: int) {
    b0 * 0x1_0000 + b1 * 0x100 + b2 == sample % TWO_24
  }

  /**
   A frame on the wire: the right block, even, before the left one, and in each
   the two streams byte by byte. The two high bits of a check byte may be anything.
   */
  predicate IsFrame(bytes: seq<byte>, frame: Frame)
    requires |bytes| == FRAME_BYTES
  {
    && bytes[0] % 64 == 1 && bytes[1] % 64 == 3
    && Carry(bytes[2], bytes[4], bytes[6], frame[1])
    && Carry(bytes[3], bytes[5], bytes[7], frame[3])
    && bytes[8] % 64 == 0 && bytes[9] % 64 == 2
    && Carry(bytes[10], bytes[12], bytes[14], frame[0])
    && Carry(bytes[11], bytes[13], bytes[15], frame[2])
  }

  /** The bytes of frame `k` of a packet. */
  function FrameAt(packet: seq<byte>, k: nat): (bytes: seq<byte>)
    requires k < |packet| / 16
    ensures |bytes| == FRAME_BYTES
  {
    packet[16 * k..16 * k + 16]
  }

  /** What the card sends for `frames`. */
  predicate IsPacket(packet: seq<byte>, frames: seq<Frame>) {
    |packet| / 16 == |frames| && forall k | 0 <= k < |frames| :: IsFrame(FrameAt(packet, k), frames[k])
  }

  lemma SignOf(sample: int)
    ensures var u := sample % TWO_24; SignExtended(sample) == if u < TWO_24 / 2 then u else u - TWO_24
  {
    var q, u := sample / TWO_24, sample % TWO_24;
    assert sample == q * TWO_24 + u;
    DivModUnique(sample - MIN_SAMPLE, TWO_24, if u < TWO_24 / 2 then q else q + 1,
                 if u < TWO_24 / 2 then u - MIN_SAMPLE else u + MIN_SAMPLE);
  }

  lemma CarriedDecodes(b0: byte, b1: byte, b2: byte, sample: int)
    requires Carry(b0, b1, b2, sample)
    ensures FromBe24(b0, b1, b2) == SignExtended(sample)
  {
    SignOf(sample);
  }

  lemma CarriesItsOwn(b0: byte, b1: byte, b2: byte)
    ensures Carry(b0, b1, b2, FromBe24(b0, b1, b2))
  {
    var u := b0 * 0x1_0000 + b1 * 0x100 + b2;
    DivModUnique(FromBe24(b0, b1, b2), TWO_24, if u < TWO_24 / 2 then 0 else -1, u);
  }

  lemma FrameDecodes(bytes: seq<byte>, frame: Frame)
    requires |bytes| == FRAME_BYTES && IsFrame(bytes, frame)
    ensures CapturedFrame(bytes) == Extended(frame)
  {
    CarriedDecodes(bytes[2], bytes[4], bytes[6], frame[1]);
    CarriedDecodes(bytes[3], bytes[5], bytes[7], frame[3]);
    CarriedDecodes(bytes[10], bytes[12], bytes[14], frame[0]);
    CarriedDecodes(bytes[11], bytes[13], bytes[15], frame[2]);
  }

  lemma FrameIsItsOwn(bytes: seq<byte>)
    requires |bytes| == FRAME_BYTES && FrameErrors(bytes) == 0
    ensures IsFrame(bytes, CapturedFrame(bytes))
  {
    CarriesItsOwn(bytes[2], bytes[4], bytes[6]);
    CarriesItsOwn(bytes[3], bytes[5], bytes[7]);
    CarriesItsOwn(bytes[10], bytes[12], bytes[14]);
    CarriesItsOwn(bytes[11], bytes[13], bytes[15]);
  }

  lemma NextFrame(packet: seq<byte>, k: nat)
    requires 0 < k < |packet| / 16
    ensures k - 1 < |packet[FRAME_BYTES..]| / 16
    ensures FrameAt(packet[FRAME_BYTES..], k - 1) == FrameAt(packet, k)
  {
  }

  lemma {:induction false} CapturedAt(packet: seq<byte>, k: nat)
    requires k < |packet| / 16
    ensures |Captured(packet)| == |packet| / 16 && Captured(packet)[k] == CapturedFrame(FrameAt(packet, k))
  {
    FramesInPacket(packet);
    if k > 0 {
      NextFrame(packet, k);
      CapturedAt(packet[FRAME_BYTES..], k - 1);
    }
  }

  lemma {:induction false} CleanByFrame(packet: seq<byte>, k: nat)
    requires Status(packet).checkErrors == 0 && k < |packet| / 16
    ensures FrameErrors(FrameAt(packet, k)) == 0
  {
    StatusOf(packet);
    if k > 0 {
      NextFrame(packet, k);
      CleanByFrame(packet[FRAME_BYTES..], k - 1);
    }
  }

  lemma {:induction false} ErrorInFrame(packet: seq<byte>) returns (k: nat)
    requires Status(packet).checkErrors > 0
    ensures k < |packet| / 16 && FrameErrors(FrameAt(packet, k)) > 0
  {
    StatusOf(packet);
    if FrameErrors(FrameAt(packet, 0)) > 0 {
      k := 0;
    } else {
      k := ErrorInFrame(packet[FRAME_BYTES..]);
      k := k + 1;
      NextFrame(packet, k);
    }
  }

  /** Decoding is the inverse of what the card does: its frames come back in order, sign-extended, with no error. */
  lemma CaptureRoundTrip(packet: seq<byte>, frames: seq<Frame>)
    requires IsPacket(packet, frames)
    ensures Status(packet).checkErrors == 0 && |Captured(packet)| == |frames|
    ensures forall k | 0 <= k < |frames| :: Captured(packet)[k] == Extended(frames[k])
  {
    FramesInPacket(packet);
    forall k: nat | k < |frames|
      ensures FrameErrors(FrameAt(packet, k)) == 0 && Captured(packet)[k] == Extended(frames[k])
    {
      CapturedAt(packet, k);
      FrameDecodes(FrameAt(packet, k), frames[k]);
    }
    if Status(packet).checkErrors > 0 {
      var _ := ErrorInFrame(packet);
      assert false;
    }
  }

  /** And a packet without an error is what the card sends for the frames it decodes to. */
  lemma CleanIsItsOwn(packet: seq<byte>)
    requires Status(packet).checkErrors == 0
    ensures IsPacket(packet, Captured(packet))
  {
    FramesInPacket(packet);
    forall k: nat | k < |packet| / 16 ensures IsFrame(FrameAt(packet, k), Captured(packet)[k]) {
      CapturedAt(packet, k);
      CleanByFrame(packet, k);
      FrameIsItsOwn(FrameAt(packet, k));
    }
  }

  /** From its fifth byte on, playback is what the card would send for the same frames, left and right exchanged. */
  lemma PlaybackIsCapture(tail: Tail, frames: seq<Frame>)
    requires frames != []
    ensures IsPacket(Encoded(tail, frames)[4..], CrossedAll(frames[..|frames| - 1]))
  {
    WireRoundTrip(tail, frames);
    CleanIsItsOwn(Encoded(tail, frames)[4..]);
  }
}
