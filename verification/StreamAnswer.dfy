/**
 Answering a capture transfer: every packet the card sent is decoded, a packet
 that was lost is filled with the frames the card took meanwhile, and playback
 packets of the same lengths are laid out one after the other. This is the
 implicit feedback of section 5.12.4.3 of the USB 2.0 specification.
 */
module StreamAnswer {
  import opened Arithmetic
  import opened CaptureFormat
  import opened CardRates
  import opened Mode2
  import opened Sequences
  import opened Wrappers

  const MAX_FRAMES_PER_PACKET := MAX_PACKET_SIZE / FRAME_BYTES

  datatype IsoPacket = IsoPacket(offset: nat, length: nat, success: bool)

  class Transfer {
    const packets: array<IsoPacket>
    const buffer: array<byte>

    constructor ()
      ensures Shaped() && fresh(packets) && fresh(buffer)
    {
      packets := new IsoPacket[PACKETS_PER_TRANSFER](_ => IsoPacket(0, 0, true));
      buffer := new byte[TRANSFER_BYTES](_ => 0);
    }

    predicate Shaped() {
      packets.Length == PACKETS_PER_TRANSFER && buffer.Length == TRANSFER_BYTES
    }
  }

  /** The audio streams: what they are given, and where the frames they play come from. */
  class Frames {
    var captured: seq<(int, int)>
    const source: FrameSource

    constructor (source: FrameSource)
      ensures captured == [] && this.source == source
    {
      this.captured, this.source := [], source;
    }

    method Capture(samples: (int, int))
      modifies this`captured
      ensures captured == old(captured) + [samples]
    {
      captured := captured + [samples];
    }
  }

  // ------------------------------------------------------------ specification

  /** The statistics a capture packet moves. */
  datatype Tally = Tally(invalidPackets: nat, frames: nat, checkErrors: nat, rejectedPackets: nat) {
    function Plus(other: Tally): Tally {
      Tally(invalidPackets + other.invalidPackets, frames + other.frames, checkErrors + other.checkErrors,
            rejectedPackets + other.rejectedPackets)
    }

    lemma PlusAssociates(a: Tally, b: Tally)
      ensures Plus(a.Plus(b)) == Plus(a).Plus(b)
    {
    }
  }

  ghost predicate Contained(packets: seq<IsoPacket>, room: nat) {
    forall k | 0 <= k < |packets| :: packets[k].offset + MAX_PACKET_SIZE <= room
  }

  /** What a stream runs at: the card's rate and the largest packet it may send. */
  datatype Format = Format(rateHz: nat, maxPacketBytes: nat) {

    ghost predicate Valid() {
      rateHz <= 192_000 && maxPacketBytes <= MAX_PACKET_SIZE
    }

    /**
     A packet arrived if it succeeded, is no longer than one may be, and is whole
     frames: success alone does not tell.
     */
    predicate Received(packet: IsoPacket) {
      packet.success && packet.length <= maxPacketBytes && packet.length % FRAME_BYTES == 0
    }

    /** Frames a packet stands for: its own, or what the card took on average in its time. */
    function FrameCount(packet: IsoPacket, remainder: nat): nat {
      if Received(packet) then packet.length / FRAME_BYTES else (remainder + rateHz) / MICROFRAMES_PER_SECOND
    }

    function RemainderAfter(packet: IsoPacket, remainder: nat): nat {
      if Received(packet) then remainder else (remainder + rateHz) % MICROFRAMES_PER_SECOND
    }

    function Remainder(packets: seq<IsoPacket>, remainder: nat): nat
      decreases |packets|
    {
      if packets == [] then remainder else Remainder(packets[1..], RemainderAfter(packets[0], remainder))
    }

    /** Frames in all packets together. */
    function Total(packets: seq<IsoPacket>, remainder: nat): nat
      decreases |packets|
    {
      if packets == [] then 0
      else FrameCount(packets[0], remainder) + Total(packets[1..], RemainderAfter(packets[0], remainder))
    }

    /** Where the playback packet that answers packet `i` starts: right after those before it. */
    function AnswerOffset(packets: seq<IsoPacket>, remainder: nat, i: nat): nat
      requires i <= |packets|
    {
      Total(packets[..i], remainder) * FRAME_BYTES
    }

    /** And how long it is. */
    function AnswerLength(packets: seq<IsoPacket>, remainder: nat, i: nat): nat
      requires i < |packets|
    {
      FrameCount(packets[i], Remainder(packets[..i], remainder)) * FRAME_BYTES
    }

    /** Inputs 1/2 of a packet, silent if it was lost or any check byte is wrong. */
    function Inputs(packet: IsoPacket, data: seq<byte>, count: nat): seq<(int, int)> {
      if Received(packet) && Status(data).checkErrors == 0
      then seq(|Captured(data)|, k requires 0 <= k < |Captured(data)| => (Captured(data)[k][0], Captured(data)[k][1]))
      else seq(count, _ => (0, 0))
    }

    function Data(packet: IsoPacket, buffer: seq<byte>): seq<byte>
      requires Received(packet) ==> packet.offset + packet.length <= |buffer|
    {
      if Received(packet) then buffer[packet.offset..packet.offset + packet.length] else []
    }

    function AllInputs(packets: seq<IsoPacket>, buffer: seq<byte>, remainder: nat): seq<(int, int)>
      requires Valid() && Contained(packets, |buffer|)
      decreases |packets|
    {
      if packets == [] then []
      else
        Inputs(packets[0], Data(packets[0], buffer), FrameCount(packets[0], remainder))
          + AllInputs(packets[1..], buffer, RemainderAfter(packets[0], remainder))
    }

    /** What one packet adds to the statistics. */
    function Counted(packet: IsoPacket, buffer: seq<byte>): Tally
      requires Received(packet) ==> packet.offset + packet.length <= |buffer|
    {
      var status := Status(Data(packet, buffer));
      Tally(Flag(!Received(packet)), status.frames, status.checkErrors, Flag(status.outputRejected))
    }

    function AllCounted(packets: seq<IsoPacket>, buffer: seq<byte>): Tally
      requires Valid() && Contained(packets, |buffer|)
      decreases |packets|
    {
      if packets == [] then Tally(0, 0, 0, 0)
      else
        var last := |packets| - 1;
        AllCounted(packets[..last], buffer).Plus(Counted(packets[last], buffer))
    }

    /** The packet brought the bytes of these frames; or nothing to be heard, lost or with some check byte wrong. */
    ghost predicate Brings(packet: IsoPacket, buffer: seq<byte>, sent: Option<seq<Frame>>)
      requires Received(packet) ==> packet.offset + packet.length <= |buffer|
    {
      if Received(packet) then
        var bytes := buffer[packet.offset..packet.offset + packet.length];
        if sent.Some? then IsPacket(bytes, sent.value)
        else exists at: nat :: IsCheck(bytes, at) && bytes[at] % 64 != Expected(at)
      else sent.None?
    }

    /** What is heard of it on inputs 1/2, left and right of stream 0; silence for as long if nothing. */
    function Heard(sent: Option<seq<Frame>>, count: nat): seq<(int, int)> {
      match sent
      case Some(frames) =>
        seq(|frames|, k requires 0 <= k < |frames| => (SignExtended(frames[k][0]), SignExtended(frames[k][1])))
      case None => seq(count, _ => (0, 0))
    }

    lemma InputsAreHeard(packet: IsoPacket, buffer: seq<byte>, count: nat, sent: Option<seq<Frame>>)
      requires Received(packet) ==> packet.offset + packet.length <= |buffer|
      requires Brings(packet, buffer, sent)
      ensures Inputs(packet, Data(packet, buffer), count) == Heard(sent, count)
    {
      if Received(packet) {
        if sent.Some? {
          CaptureRoundTrip(Data(packet, buffer), sent.value);
        } else {
          CleanMeansRight(Data(packet, buffer));
        }
      }
    }

    lemma BroughtIsHeard(packet: IsoPacket, buffer: seq<byte>, count: nat)
      requires Received(packet) ==> packet.offset + packet.length <= |buffer|
      ensures forall sent | Brings(packet, buffer, sent) ::
                Inputs(packet, Data(packet, buffer), count) == Heard(sent, count)
    {
      forall sent | Brings(packet, buffer, sent)
        ensures Inputs(packet, Data(packet, buffer), count) == Heard(sent, count)
      {
        InputsAreHeard(packet, buffer, count, sent);
      }
    }

    /** What a packet adds to the statistics, told by its length and its bytes. */
    lemma BroughtIsCounted(packet: IsoPacket, buffer: seq<byte>)
      requires Received(packet) ==> packet.offset + packet.length <= |buffer|
      ensures var (tally, bytes) := (Counted(packet, buffer), Data(packet, buffer));
              && tally.invalidPackets == (if Received(packet) then 0 else 1)
              && tally.frames == (if Received(packet) then packet.length / 16 else 0)
              && (tally.rejectedPackets > 0 <==>
                    Received(packet) && exists at: nat :: IsCheck(bytes, at) && bytes[at] >= 128)
      ensures forall sent: Option<seq<Frame>> | sent.Some? && Brings(packet, buffer, sent) ::
                Counted(packet, buffer).checkErrors == 0
    {
      FramesInPacket(Data(packet, buffer));
      RejectedMeansBit7(Data(packet, buffer));
      forall sent: Option<seq<Frame>> | sent.Some? && Brings(packet, buffer, sent)
        ensures Counted(packet, buffer).checkErrors == 0
      {
        CaptureRoundTrip(Data(packet, buffer), sent.value);
      }
    }

    ghost predicate AllBring(packets: seq<IsoPacket>, buffer: seq<byte>, sent: seq<Option<seq<Frame>>>)
      requires Valid() && Contained(packets, |buffer|)
    {
      |sent| == |packets| && forall k | 0 <= k < |packets| :: Brings(packets[k], buffer, sent[k])
    }

    /** What is heard of packets in a row. */
    function AllHeard(packets: seq<IsoPacket>, sent: seq<Option<seq<Frame>>>, remainder: nat): seq<(int, int)>
      requires |sent| == |packets|
      decreases |packets|
    {
      if packets == [] then []
      else
        Heard(sent[0], FrameCount(packets[0], remainder))
          + AllHeard(packets[1..], sent[1..], RemainderAfter(packets[0], remainder))
    }

    lemma {:induction false} AllInputsAreHeard(packets: seq<IsoPacket>, buffer: seq<byte>,
                                               sent: seq<Option<seq<Frame>>>, remainder: nat)
      requires Valid() && Contained(packets, |buffer|) && AllBring(packets, buffer, sent)
      ensures AllInputs(packets, buffer, remainder) == AllHeard(packets, sent, remainder)
      decreases |packets|
    {
      if packets != [] {
        InputsAreHeard(packets[0], buffer, FrameCount(packets[0], remainder), sent[0]);
        AllInputsAreHeard(packets[1..], buffer, sent[1..], RemainderAfter(packets[0], remainder));
      }
    }

    /** Frames filled in for lost packets. */
    function Filled(packets: seq<IsoPacket>, remainder: nat): nat
      decreases |packets|
    {
      if packets == [] then 0
      else (if Received(packets[0]) then 0 else FrameCount(packets[0], remainder))
             + Filled(packets[1..], RemainderAfter(packets[0], remainder))
    }

    function Lost(packets: seq<IsoPacket>): nat {
      if packets == [] then 0 else (if Received(packets[0]) then 0 else 1) + Lost(packets[1..])
    }

    lemma {:induction false} Append(front: seq<IsoPacket>, packet: IsoPacket, remainder: nat)
      ensures Remainder(front + [packet], remainder) == RemainderAfter(packet, Remainder(front, remainder))
      ensures Total(front + [packet], remainder)
                == Total(front, remainder) + FrameCount(packet, Remainder(front, remainder))
      decreases |front|
    {
      if front == [] {
        assert front + [packet] == [packet];
      } else {
        assert (front + [packet])[1..] == front[1..] + [packet];
        Append(front[1..], packet, RemainderAfter(front[0], remainder));
      }
    }

    lemma {:induction false} InputsAppend(front: seq<IsoPacket>, packet: IsoPacket, buffer: seq<byte>, remainder: nat)
      requires Valid() && Contained(front, |buffer|) && packet.offset + MAX_PACKET_SIZE <= |buffer|
      ensures AllInputs(front + [packet], buffer, remainder) == AllInputs(front, buffer, remainder)
                + Inputs(packet, Data(packet, buffer), FrameCount(packet, Remainder(front, remainder)))
      decreases |front|
    {
      if front == [] {
        assert front + [packet] == [packet];
      } else {
        assert (front + [packet])[1..] == front[1..] + [packet];
        InputsAppend(front[1..], packet, buffer, RemainderAfter(front[0], remainder));
      }
    }

    /** A packet never stands for more frames than one can carry. */
    lemma CountFits(packet: IsoPacket, remainder: nat)
      requires Valid() && remainder < MICROFRAMES_PER_SECOND
      ensures FrameCount(packet, remainder) <= MAX_FRAMES_PER_PACKET
      ensures RemainderAfter(packet, remainder) < MICROFRAMES_PER_SECOND
    {
    }

    lemma {:induction false} RemainderFits(packets: seq<IsoPacket>, remainder: nat)
      requires remainder < MICROFRAMES_PER_SECOND
      ensures Remainder(packets, remainder) < MICROFRAMES_PER_SECOND
      decreases |packets|
    {
      if packets != [] {
        RemainderFits(packets[1..], RemainderAfter(packets[0], remainder));
      }
    }

    lemma {:induction false} TotalFits(packets: seq<IsoPacket>, remainder: nat)
      requires Valid() && remainder < MICROFRAMES_PER_SECOND
      ensures Total(packets, remainder) <= 32 * |packets|
      decreases |packets|
    {
      if packets != [] {
        CountFits(packets[0], remainder);
        TotalFits(packets[1..], RemainderAfter(packets[0], remainder));
      }
    }

    lemma AppendCounted(front: seq<IsoPacket>, packet: IsoPacket, buffer: seq<byte>)
      requires Valid() && Contained(front, |buffer|) && packet.offset + MAX_PACKET_SIZE <= |buffer|
      ensures AllCounted(front + [packet], buffer) == AllCounted(front, buffer).Plus(Counted(packet, buffer))
    {
      assert (front + [packet])[..|front|] == front;
    }

    lemma NextCounted(packets: seq<IsoPacket>, buffer: seq<byte>, i: nat, start: Tally)
      requires Valid() && i < |packets| && Contained(packets, |buffer|)
      ensures start.Plus(AllCounted(packets[..i + 1], buffer))
                == start.Plus(AllCounted(packets[..i], buffer)).Plus(Counted(packets[i], buffer))
    {
      TakeNext(packets, i);
      AppendCounted(packets[..i], packets[i], buffer);
      start.PlusAssociates(AllCounted(packets[..i], buffer), Counted(packets[i], buffer));
    }

    /** What packet `i` adds to those before it. */
    lemma Next(packets: seq<IsoPacket>, buffer: seq<byte>, remainder: nat, i: nat)
      requires Valid() && remainder < MICROFRAMES_PER_SECOND && i < |packets| && Contained(packets, |buffer|)
      ensures var kept := Remainder(packets[..i], remainder);
              && kept < MICROFRAMES_PER_SECOND
              && Remainder(packets[..i + 1], remainder) == RemainderAfter(packets[i], kept)
              && AllInputs(packets[..i + 1], buffer, remainder)
                   == AllInputs(packets[..i], buffer, remainder)
                        + Inputs(packets[i], Data(packets[i], buffer), FrameCount(packets[i], kept))
    {
      TakeNext(packets, i);
      RemainderFits(packets[..i], remainder);
      Append(packets[..i], packets[i], remainder);
      InputsAppend(packets[..i], packets[i], buffer, remainder);
    }

    /**
     Playback packets lie back to back from the start of the buffer to its end at
     most, and mirror the packets they answer where those arrived.
     */
    lemma PacketsMirror(packets: seq<IsoPacket>, remainder: nat, i: nat)
      requires Valid() && remainder < MICROFRAMES_PER_SECOND && i < |packets| <= PACKETS_PER_TRANSFER
      ensures AnswerOffset(packets, remainder, 0) == 0
      ensures AnswerOffset(packets, remainder, i + 1)
                == AnswerOffset(packets, remainder, i) + AnswerLength(packets, remainder, i) <= TRANSFER_BYTES
      ensures Received(packets[i]) ==> AnswerLength(packets, remainder, i) == packets[i].length
    {
      TakeNext(packets, i);
      Append(packets[..i], packets[i], remainder);
      TotalFits(packets[..i + 1], remainder);
    }

    /** As many frames are delivered as packets stand for. */
    lemma {:induction false} InputsCounted(packets: seq<IsoPacket>, buffer: seq<byte>, remainder: nat)
      requires Valid() && Contained(packets, |buffer|)
      ensures |AllInputs(packets, buffer, remainder)| == Total(packets, remainder)
      decreases |packets|
    {
      if packets != [] {
        FramesInPacket(Data(packets[0], buffer));
        InputsCounted(packets[1..], buffer, RemainderAfter(packets[0], remainder));
      }
    }

    /** Frames filled and the remainder kept together are what the lost packets' time is worth: nothing drifts. */
    lemma {:induction false} FillConserves(packets: seq<IsoPacket>, remainder: nat)
      ensures remainder + Lost(packets) * rateHz
                == Filled(packets, remainder) * 8000 + Remainder(packets, remainder)
      decreases |packets|
    {
      if packets != [] {
        FillConserves(packets[1..], RemainderAfter(packets[0], remainder));
        if !Received(packets[0]) {
          MulOneMore(Lost(packets), Lost(packets[1..]), rateHz);
        }
      }
    }

    /** Filling goes on from transfer to transfer as over one long row of packets. */
    lemma {:induction false} FillJoins(front: seq<IsoPacket>, back: seq<IsoPacket>, remainder: nat)
      ensures Remainder(front + back, remainder) == Remainder(back, Remainder(front, remainder))
      ensures Filled(front + back, remainder) == Filled(front, remainder) + Filled(back, Remainder(front, remainder))
      decreases |front|
    {
      if front == [] {
        assert front + back == back;
      } else {
        assert (front + back)[1..] == front[1..] + back;
        FillJoins(front[1..], back, RemainderAfter(front[0], remainder));
      }
    }

    /**
     Since the engine started, `m` lost packets have been filled with exactly the
     frames of `m` microframes, rounded down.
     */
    lemma FillIsExact(packets: seq<IsoPacket>)
      requires Valid()
      ensures Filled(packets, 0) == Lost(packets) * rateHz / MICROFRAMES_PER_SECOND
      ensures Remainder(packets, 0) == Lost(packets) * rateHz % MICROFRAMES_PER_SECOND
    {
      FillConserves(packets, 0);
      RemainderFits(packets, 0);
      DivModUnique(Lost(packets) * rateHz, MICROFRAMES_PER_SECOND, Filled(packets, 0), Remainder(packets, 0));
    }
  }

  // ------------------------------------------------------------ the engine

  /** Where an answer starts from: the fill's remainder, the statistics, the tail, and what the streams gave and got. */
  datatype Start = Start(remainder: nat, counts: Tally, tail: Tail, captured: seq<(int, int)>, taken: nat)

  /** What an engine has done since it was made: packets taken in, frames encoded, and their bytes. */
  class Log {
    ghost var row: seq<IsoPacket>
    ghost var played: seq<Frame>
    ghost var written: seq<byte>

    ghost constructor ()
      ensures row == [] && played == [] && written == []
    {
      row, played, written := [], [], [];
    }

    /** Filling ended with `remainder` and encoding with `tail`, as over one row of packets and one stream of frames. */
    ghost predicate Ends(format: Format, remainder: nat, tail: Tail)
      reads this
    {
      && remainder == format.Remainder(row, 0)
      && written == Encoded(NO_TAIL, played) && tail == TailAfter(NO_TAIL, played)
    }

    /** Over every run of answers lost packets have been filled with what their time was worth, rounded down. */
    lemma FilledSoFar(format: Format, remainder: nat, tail: Tail)
      requires format.Valid() && Ends(format, remainder, tail)
      ensures format.Filled(row, 0) == format.Lost(row) * format.rateHz / MICROFRAMES_PER_SECOND
      ensures remainder == format.Lost(row) * format.rateHz % MICROFRAMES_PER_SECOND
    {
      format.FillIsExact(row);
    }

    /** And the bytes laid out so far, four bytes in, decode to the frames played. */
    lemma WrittenSoFar(format: Format, remainder: nat, tail: Tail)
      requires Ends(format, remainder, tail) && played != []
      ensures Captured(written[4..]) == CrossedAll(played[..|played| - 1])
      ensures Status(written[4..]) == CaptureStatus(|played| - 1, 0, false)
    {
      WireRoundTrip(NO_TAIL, played);
    }

    /** An answer goes on from where the one before it ended. */
    ghost method Add(format: Format, packets: seq<IsoPacket>, remainder: nat, tail: Tail,
                     frames: seq<Frame>, bytes: seq<byte>)
      requires Ends(format, remainder, tail) && bytes == Encoded(tail, frames)
      modifies this
      ensures row == old(row) + packets && played == old(played) + frames && written == old(written) + bytes
      ensures Ends(format, format.Remainder(packets, remainder), TailAfter(tail, frames))
    {
      format.FillJoins(row, packets, 0);
      EncodedJoins(NO_TAIL, played, frames);
      row, played, written := row + packets, played + frames, written + bytes;
    }
  }

  class Engine {
    const format: Format
    const encoder: PlaybackEncoder
    ghost const log: Log
    var nominalRemainder: nat
    var frames: nat
    var checkErrors: nat
    var rejectedPackets: nat
    var invalidPackets: nat
    var playbackOverruns: nat

    constructor (format: Format)
      requires format.Valid()
      ensures this.format == format && nominalRemainder == 0 && fresh(encoder) && encoder.tail == NO_TAIL
      ensures fresh(log) && log.row == [] && Tracked()
    {
      this.log := new Log();
      this.format := format;
      this.encoder := new PlaybackEncoder();
      nominalRemainder, frames, checkErrors, rejectedPackets, invalidPackets, playbackOverruns := 0, 0, 0, 0, 0, 0;
    }

    ghost predicate Tracked()
      reads this`nominalRemainder, encoder, log
    {
      log.Ends(format, nominalRemainder, encoder.tail)
    }

    ghost function Counts(): Tally
      reads this`invalidPackets, this`frames, this`checkErrors, this`rejectedPackets
    {
      Tally(invalidPackets, frames, checkErrors, rejectedPackets)
    }

    /** A lost packet's frames, in whole; what is left of the microframe's share is kept for the next one. */
    method NominalFrames() returns (count: nat)
      modifies this`nominalRemainder
      ensures count * 8000 + nominalRemainder == old(nominalRemainder) + format.rateHz
      ensures nominalRemainder < 8000
    {
      nominalRemainder := nominalRemainder + format.rateHz;
      count := nominalRemainder / MICROFRAMES_PER_SECOND;
      nominalRemainder := nominalRemainder % MICROFRAMES_PER_SECOND;
    }

    /** Decodes what a packet brought, nothing if it was lost, and counts what its check bytes say. */
    method Decode(data: seq<byte>, valid: bool) returns (decoded: seq<Frame>, status: CaptureStatus)
      modifies this`invalidPackets, this`frames, this`checkErrors, this`rejectedPackets
      ensures decoded == Captured(data) && status == Status(data) && |decoded| == status.frames == |data| / FRAME_BYTES
      ensures Counts() == old(Counts()).Plus(
                            Tally(Flag(!valid), status.frames, status.checkErrors, Flag(status.outputRejected)))
    {
      if !valid {
        invalidPackets := invalidPackets + 1;
      }
      decoded, status := DecodeCapture(data);
      FramesInPacket(data);
      frames := frames + status.frames;
      checkErrors := checkErrors + status.checkErrors;
      if status.outputRejected {
        rejectedPackets := rejectedPackets + 1;
      }
    }

    /** Delivers `count` frames, silent unless the packet was clean. */
    method Deliver(decoded: seq<Frame>, count: nat, clean: bool, audio: Frames)
      requires count <= |decoded|
      modifies audio`captured
      ensures audio.captured == old(audio.captured)
                + seq(count, k requires 0 <= k < count => if clean then (decoded[k][0], decoded[k][1]) else (0, 0))
    {
      ghost var inputs := seq(count,
          k requires 0 <= k < count => if clean then (decoded[k][0], decoded[k][1]) else (0, 0));
      for k := 0 to count
        invariant audio.captured == old(audio.captured) + inputs[..k]
      {
        audio.Capture(if clean then (decoded[k][0], decoded[k][1]) else (0, 0));
        TakeNext(inputs, k);
      }
      assert inputs[..count] == inputs;
    }

    /** Decodes a packet if it arrived, into room for the longest, and counts what came of it. */
    method DecodePacket(packet: IsoPacket, buffer: seq<byte>)
      returns (valid: bool, decoded: seq<Frame>, status: CaptureStatus)
      requires format.Valid()
      requires format.Received(packet) ==> packet.offset + packet.length <= |buffer|
      modifies this`invalidPackets, this`frames, this`checkErrors, this`rejectedPackets
      ensures valid <==> format.Received(packet)
      ensures var data := format.Data(packet, buffer);
              && status == Status(data) && status.frames == |Captured(data)| == |data| / FRAME_BYTES
              && |decoded| == MAX_FRAMES_PER_PACKET && Captured(data) <= decoded
      ensures invalidPackets == old(invalidPackets)
                + if packet.success && packet.length <= format.maxPacketBytes && packet.length % 16 == 0 then 0 else 1
      ensures frames == old(frames) + if invalidPackets == old(invalidPackets) then packet.length / 16 else 0
      ensures forall sent: Option<seq<Frame>> | sent.Some? && format.Brings(packet, buffer, sent) ::
                checkErrors == old(checkErrors)
      ensures rejectedPackets > old(rejectedPackets) <==>
                format.Received(packet) &&
                exists at: nat :: IsCheck(format.Data(packet, buffer), at) && format.Data(packet, buffer)[at] >= 128
      ensures Counts() == old(Counts()).Plus(format.Counted(packet, buffer))
    {
      format.BroughtIsCounted(packet, buffer);
      valid := packet.success && packet.length <= format.maxPacketBytes && packet.length % FRAME_BYTES == 0;
      var data := if valid then buffer[packet.offset..packet.offset + packet.length] else [];
      decoded, status := Decode(data, valid);
      decoded := decoded + seq(MAX_FRAMES_PER_PACKET - |decoded|, _ => [0, 0, 0, 0]);
    }

    /** Decodes one packet and delivers its frames; returns how many it stands for. */
    method Receive(packet: IsoPacket, buffer: seq<byte>, audio: Frames) returns (count: nat)
      requires format.Valid() && nominalRemainder < MICROFRAMES_PER_SECOND
      requires format.Received(packet) ==> packet.offset + packet.length <= |buffer|
      modifies this, audio`captured
      ensures count == format.FrameCount(packet, old(nominalRemainder)) <= MAX_FRAMES_PER_PACKET
      ensures nominalRemainder == format.RemainderAfter(packet, old(nominalRemainder))
      ensures audio.captured == old(audio.captured) + format.Inputs(packet, format.Data(packet, buffer), count)
      ensures forall sent | format.Brings(packet, buffer, sent) ::
                audio.captured == old(audio.captured) + format.Heard(sent, count)
      ensures invalidPackets == old(invalidPackets)
                + if packet.success && packet.length <= format.maxPacketBytes && packet.length % 16 == 0 then 0 else 1
      ensures frames == old(frames) + if invalidPackets == old(invalidPackets) then packet.length / 16 else 0
      ensures forall sent: Option<seq<Frame>> | sent.Some? && format.Brings(packet, buffer, sent) ::
                checkErrors == old(checkErrors)
      ensures rejectedPackets > old(rejectedPackets) <==>
                format.Received(packet) &&
                exists at: nat :: IsCheck(format.Data(packet, buffer), at) && format.Data(packet, buffer)[at] >= 128
      ensures Counts() == old(Counts()).Plus(format.Counted(packet, buffer))
      ensures playbackOverruns == old(playbackOverruns)
    {
      format.CountFits(packet, nominalRemainder);
      var valid, decoded, status := DecodePacket(packet, buffer);
      if valid {
        count := status.frames;
      } else {
        ghost var remainder := nominalRemainder;
        count := NominalFrames();
        DivModUnique(remainder + format.rateHz, 8000, count, nominalRemainder);
      }
      format.BroughtIsHeard(packet, buffer, count);
      Deliver(decoded, count, valid && status.checkErrors == 0, audio);
    }

    /** Lays out the answer to one packet at `offset`, as packet `i`; returns where the next one goes. */
    method LayOut(playback: Transfer, i: nat, offset: nat, count: nat, audio: Frames) returns (next: nat)
      requires playback.Shaped() && i < PACKETS_PER_TRANSFER && offset + count * FRAME_BYTES <= TRANSFER_BYTES
      modifies encoder, audio.source`taken, playback.packets, playback.buffer
      ensures next == offset + count * FRAME_BYTES
      ensures audio.source.taken == old(audio.source.taken) + count
      ensures playback.packets[i].offset == offset && playback.packets[i].length == count * FRAME_BYTES
      ensures forall k | 0 <= k < PACKETS_PER_TRANSFER && k != i :: playback.packets[k] == old(playback.packets[k])
      ensures var frames := Supplied(audio.source.supply, old(audio.source.taken), audio.source.taken);
              && playback.buffer[offset..next] == Encoded(old(encoder.tail), frames)
              && encoder.tail == TailAfter(old(encoder.tail), frames)
      ensures playback.buffer[..offset] == old(playback.buffer[..offset])
    {
      var length := count * FRAME_BYTES;
      playback.packets[i] := playback.packets[i].(offset := offset, length := length);
      ghost var was := playback.buffer[..];
      encoder.Encode(playback.buffer, offset, length, audio.source);
      next := offset + length;
      SpliceParts(was, offset, playback.buffer[..][offset..next]);
    }

    /** The first `i` packets have been answered by what lies in the buffer up to `offset`. */
    ghost predicate LaidOut(playback: Transfer, packets: seq<IsoPacket>, remainder: nat, i: nat, offset: nat,
                            tail: Tail, played: seq<Frame>)
      requires playback.Shaped() && i <= PACKETS_PER_TRANSFER == |packets|
      reads playback.packets, playback.buffer, encoder
    {
      && |played| == format.Total(packets[..i], remainder)
      && offset == format.AnswerOffset(packets, remainder, i) <= TRANSFER_BYTES
      && playback.buffer[..offset] == Encoded(tail, played)
      && encoder.tail == TailAfter(tail, played)
      && (forall k | 0 <= k < i ::
            && playback.packets[k].offset == format.AnswerOffset(packets, remainder, k)
            && playback.packets[k].length == format.AnswerLength(packets, remainder, k))
    }

    /** Lays out the answer to packet `i`, which stands for `count` frames, after those before it. */
    method LayOutNext(playback: Transfer, ghost packets: seq<IsoPacket>, ghost remainder: nat, i: nat, offset: nat,
                      count: nat, audio: Frames, ghost tail: Tail, ghost from: nat)
      returns (next: nat)
      requires format.Valid() && remainder < MICROFRAMES_PER_SECOND
      requires playback.Shaped() && i < PACKETS_PER_TRANSFER == |packets| && from <= audio.source.taken
      requires count == format.FrameCount(packets[i], format.Remainder(packets[..i], remainder))
      requires LaidOut(playback, packets, remainder, i, offset, tail,
                       Supplied(audio.source.supply, from, audio.source.taken))
      modifies encoder, audio.source`taken, playback.packets, playback.buffer
      ensures from <= audio.source.taken
      ensures LaidOut(playback, packets, remainder, i + 1, next, tail,
                      Supplied(audio.source.supply, from, audio.source.taken))
    {
      ghost var supply, taken := audio.source.supply, audio.source.taken;
      format.PacketsMirror(packets, remainder, i);
      format.Append(packets[..i], packets[i], remainder);
      TakeNext(packets, i);
      next := LayOut(playback, i, offset, count, audio);
      EncodedJoins(tail, Supplied(supply, from, taken), Supplied(supply, taken, audio.source.taken));
      SuppliedJoins(supply, from, taken, audio.source.taken);
      TakeJoins(playback.buffer[..], offset, next);
      assert playback.buffer[..][offset..next] == playback.buffer[offset..next];
      assert playback.buffer[..][..next] == playback.buffer[..next];
      assert playback.buffer[..][..offset] == playback.buffer[..offset];
    }

    /** What has been played for the first `i` packets: their answers, or nothing without a transfer to play them in. */
    ghost predicate Played(playback: Transfer?, packets: seq<IsoPacket>, remainder: nat, i: nat, offset: nat,
                           tail: Tail, audio: Frames, from: nat)
      requires (playback != null ==> playback.Shaped()) && i <= PACKETS_PER_TRANSFER == |packets|
      reads audio.source, encoder
      reads if playback == null then {} else {playback.packets}
      reads if playback == null then {} else {playback.buffer}
    {
      if playback == null then offset == 0 && audio.source.taken == from && encoder.tail == tail
      else from <= audio.source.taken &&
           LaidOut(playback, packets, remainder, i, offset, tail,
               Supplied(audio.source.supply, from, audio.source.taken))
    }

    /** The first `i` packets have been taken in: delivered, counted, and the fill's remainder kept. */
    ghost predicate TakenIn(packets: seq<IsoPacket>, buffer: seq<byte>, i: nat, audio: Frames, start: Start)
      requires i <= |packets| && format.Valid() && Contained(packets, |buffer|)
      reads this`nominalRemainder, this`invalidPackets, this`frames, this`checkErrors, this`rejectedPackets,
          audio`captured
    {
      && Counts() == start.counts.Plus(format.AllCounted(packets[..i], buffer))
      && start.remainder < MICROFRAMES_PER_SECOND
      && nominalRemainder == format.Remainder(packets[..i], start.remainder)
      && audio.captured == start.captured + format.AllInputs(packets[..i], buffer, start.remainder)
    }

    /** The first `i` packets have been taken in and answered. */
    ghost predicate Progress(playback: Transfer?, packets: seq<IsoPacket>, buffer: seq<byte>, i: nat, offset: nat,
                             audio: Frames, start: Start)
      requires (playback != null ==> playback.Shaped()) && i <= PACKETS_PER_TRANSFER == |packets|
      requires format.Valid() && Contained(packets, |buffer|)
      reads this`nominalRemainder, this`invalidPackets, this`frames, this`checkErrors, this`rejectedPackets
      reads audio, audio.source, encoder
      reads if playback == null then {} else {playback.packets}
      reads if playback == null then {} else {playback.buffer}
    {
      && TakenIn(packets, buffer, i, audio, start)
      && Played(playback, packets, start.remainder, i, offset, start.tail, audio, start.taken)
    }

    /** Takes in packet `i` after those before it; returns how many frames it stands for. */
    method ReceiveNext(packets: seq<IsoPacket>, buffer: seq<byte>, i: nat, audio: Frames, ghost start: Start)
      returns (count: nat)
      requires format.Valid() && i < |packets| && Contained(packets, |buffer|)
      requires TakenIn(packets, buffer, i, audio, start)
      modifies this, audio`captured
      ensures TakenIn(packets, buffer, i + 1, audio, start)
      ensures count == format.FrameCount(packets[i], format.Remainder(packets[..i], start.remainder))
      ensures playbackOverruns == old(playbackOverruns)
    {
      format.Next(packets, buffer, start.remainder, i);
      format.NextCounted(packets, buffer, i, start.counts);
      count := Receive(packets[i], buffer, audio);
      ConcatAssociates(start.captured, format.AllInputs(packets[..i], buffer, start.remainder),
                       format.Inputs(packets[i], format.Data(packets[i], buffer), count));
    }

    /** Receives packet `i` of a capture transfer and answers it after those before it. */
    method AnswerPacket(capture: Transfer, playback: Transfer?, audio: Frames, i: nat, offset: nat,
                        ghost packets: seq<IsoPacket>, ghost buffer: seq<byte>, ghost start: Start)
      returns (next: nat)
      requires format.Valid() && i < PACKETS_PER_TRANSFER == |packets| && Contained(packets, |buffer|)
      requires capture.packets[..] == packets && capture.buffer[..] == buffer
      requires playback != null ==>
                 playback.Shaped() && playback.packets != capture.packets && playback.buffer != capture.buffer
      requires Progress(playback, packets, buffer, i, offset, audio, start)
      modifies this, audio`captured, encoder, audio.source`taken,
               (if playback == null then {} else {playback.packets}),
               (if playback == null then {} else {playback.buffer})
      ensures capture.packets[..] == packets && capture.buffer[..] == buffer
      ensures Progress(playback, packets, buffer, i + 1, next, audio, start)
      ensures playbackOverruns == old(playbackOverruns)
      ensures unchanged(log)
    {
      var count := ReceiveNext(capture.packets[..], capture.buffer[..], i, audio, start);
      next := offset;
      if playback != null {
        next := LayOutNext(playback, packets, start.remainder, i, offset, count, audio, start.tail, start.taken);
      }
    }

    ghost function Now(audio: Frames): Start
      reads this`nominalRemainder, this`invalidPackets, this`frames, this`checkErrors, this`rejectedPackets
      reads encoder, audio, audio.source
    {
      Start(nominalRemainder, Counts(), encoder.tail, audio.captured, audio.source.taken)
    }

    lemma Untouched(playback: Transfer?, packets: seq<IsoPacket>, buffer: seq<byte>, audio: Frames)
      requires format.Valid() && nominalRemainder < MICROFRAMES_PER_SECOND
      requires (playback != null ==> playback.Shaped()) && |packets| == PACKETS_PER_TRANSFER
          && Contained(packets, |buffer|)
      ensures Progress(playback, packets, buffer, 0, 0, audio, Now(audio))
    {
      assert packets[..0] == [] && Supplied(audio.source.supply, audio.source.taken, audio.source.taken) == [];
      if playback != null {
        assert playback.buffer[..0] == [];
      }
    }

    /** Answers packet after packet, and counts an answer that has no transfer to be played in. */
    method AnswerEach(capture: Transfer, playback: Transfer?, audio: Frames)
      returns (offset: nat, ghost frames: seq<Frame>, ghost bytes: seq<byte>)
      requires format.Valid() && nominalRemainder < MICROFRAMES_PER_SECOND
      requires capture.Shaped() && (playback != null ==> playback.Shaped())
      requires playback != null ==> playback.packets != capture.packets && playback.buffer != capture.buffer
      requires forall i | 0 <= i < PACKETS_PER_TRANSFER :: capture.packets[i].offset == i * MAX_PACKET_SIZE
      modifies this, audio`captured, encoder, audio.source`taken,
               (if playback == null then {} else {playback.packets}),
               (if playback == null then {} else {playback.buffer})
      ensures Contained(old(capture.packets[..]), TRANSFER_BYTES)
      ensures Progress(playback, old(capture.packets[..]), old(capture.buffer[..]), PACKETS_PER_TRANSFER, offset,
                       audio, old(Now(audio)))
      ensures playbackOverruns == old(playbackOverruns) + if playback == null then 1 else 0
      ensures nominalRemainder == format.Remainder(old(capture.packets[..]), old(nominalRemainder))
      ensures old(audio.source.taken) <= audio.source.taken
      ensures frames == Supplied(audio.source.supply, old(audio.source.taken), audio.source.taken)
      ensures bytes == Encoded(old(encoder.tail), frames) && encoder.tail == TailAfter(old(encoder.tail), frames)
      ensures if playback == null then frames == [] && bytes == []
              else offset <= TRANSFER_BYTES && bytes == playback.buffer[..offset]
      ensures unchanged(log)
    {
      if playback == null {
        playbackOverruns := playbackOverruns + 1;
      }
      ghost var packets, buffer, start := capture.packets[..], capture.buffer[..], Now(audio);
      offset := 0;
      Untouched(playback, packets, buffer, audio);
      for i := 0 to PACKETS_PER_TRANSFER
        invariant capture.packets[..] == packets && capture.buffer[..] == buffer
        invariant Progress(playback, packets, buffer, i, offset, audio, start)
        invariant unchanged(log)
        invariant playbackOverruns == old(playbackOverruns) + if playback == null then 1 else 0
      {
        offset := AnswerPacket(capture, playback, audio, i, offset, packets, buffer, start);
      }
      assert packets[..PACKETS_PER_TRANSFER] == packets;
      frames := Supplied(audio.source.supply, start.taken, audio.source.taken);
      bytes := if playback == null then [] else playback.buffer[..offset];
    }

    /**
     Answers the packets of a completed capture transfer, in `playback` if one is
     free; returns how many bytes there are to play.
     */
    method Answer(capture: Transfer, playback: Transfer?, audio: Frames) returns (offset: nat)
      requires format.Valid() && Tracked()
      requires capture.Shaped() && (playback != null ==> playback.Shaped())
      requires playback != null ==> playback.packets != capture.packets && playback.buffer != capture.buffer
      requires forall i | 0 <= i < PACKETS_PER_TRANSFER :: capture.packets[i].offset == i * MAX_PACKET_SIZE
      modifies this, log, audio`captured, encoder, audio.source`taken,
               (if playback == null then {} else {playback.packets}),
               (if playback == null then {} else {playback.buffer})
      ensures Contained(old(capture.packets[..]), TRANSFER_BYTES)
      ensures Progress(playback, old(capture.packets[..]), old(capture.buffer[..]), PACKETS_PER_TRANSFER, offset,
                       audio, old(Now(audio)))
      ensures forall sent | format.AllBring(old(capture.packets[..]), old(capture.buffer[..]), sent) ::
                audio.captured == old(audio.captured)
                    + format.AllHeard(old(capture.packets[..]), sent, old(nominalRemainder))
      ensures playbackOverruns == old(playbackOverruns) + if playback == null then 1 else 0
      ensures Tracked() && log.row == old(log.row) + old(capture.packets[..])
      ensures old(audio.source.taken) <= audio.source.taken && (playback != null ==> offset <= TRANSFER_BYTES)
      ensures log.played
                == old(log.played) + Supplied(audio.source.supply, old(audio.source.taken), audio.source.taken)
      ensures log.written == old(log.written) + if playback == null then [] else playback.buffer[..offset]
    {
      format.RemainderFits(log.row, 0);
      ghost var packets, remainder, tail := capture.packets[..], nominalRemainder, encoder.tail;
      ghost var frames, bytes;
      offset, frames, bytes := AnswerEach(capture, playback, audio);
      assert packets[..PACKETS_PER_TRANSFER] == packets;
      forall sent | format.AllBring(packets, old(capture.buffer[..]), sent)
        ensures format.AllInputs(packets, old(capture.buffer[..]), remainder)
                  == format.AllHeard(packets, sent, remainder)
      {
        format.AllInputsAreHeard(packets, old(capture.buffer[..]), sent, remainder);
      }
      log.Add(format, packets, remainder, tail, frames, bytes);
    }
  }
}
