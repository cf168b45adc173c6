/**
 The ring of packets that a stream shares with the audio engine: where each
 frame lies, how samples are stored, and which packets are reported finished.
 */
module PacketRing {
  import opened Arithmetic
  import opened Sequences
  import opened Wrappers
  import Mode2

  type byte = Mode2.byte

  /** A left and a right sample. */
  type Stereo = f: seq<int> | |f| == 2 witness [0, 0]

  const PAGE_SIZE := 4096
  const MAX_PACKETS := 8

  // -------------------------------------------------------------- containers

  function Signed(u: int, width: int): int {
    if 2 * u < width then u else u - width
  }

  /** A 24-bit sample in a little-endian container: its upper 16 bits, or all of them in the upper 24 of 32. */
  function ToContainer(bytes: nat, sample: int): (b: seq<byte>)
    requires bytes == 2 || bytes == 4
    ensures |b| == bytes
  {
    if bytes == 2 then
      var u := sample / 0x100 % TWO_16;
      [u % 0x100, u / 0x100]
    else
      var u := sample * 0x100 % TWO_32;
      [u % 0x100, u / 0x100 % 0x100, u / 0x1_0000 % 0x100, u / 0x100_0000]
  }

  function FromContainer(b: seq<byte>): int
    requires |b| == 2 || |b| == 4
  {
    if |b| == 2 then Signed(b[0] as int + b[1] as int * 0x100, TWO_16) * 0x100
    else Signed(b[0] as int + b[1] as int * 0x100 + b[2] as int * 0x1_0000 + b[3] as int * 0x100_0000, TWO_32) / 0x100
  }

  /** What a sample is after it has been stored: itself, or with its low 8 bits cleared. */
  function Quantized(bytes: nat, sample: int): int {
    if bytes == 2 then sample / 0x100 * 0x100 else sample
  }

  lemma FourBytes(u: nat)
    requires u < TWO_32
    ensures u % 0x100 + u / 0x100 % 0x100 * 0x100 + u / 0x1_0000 % 0x100 * 0x1_0000 + u / 0x100_0000 * 0x100_0000 == u
  {
  }

  lemma NarrowRoundTrip(sample: int)
    requires Is24Bit(sample)
    ensures FromContainer(ToContainer(2, sample)) == sample / 0x100 * 0x100
  {
    var high := sample / 0x100;
    assert -0x8000 <= high < 0x8000;
    assert high % TWO_16 == if high < 0 then high + TWO_16 else high;
  }

  lemma WideRoundTrip(sample: int)
    requires Is24Bit(sample)
    ensures FromContainer(ToContainer(4, sample)) == sample
  {
    var u := sample * 0x100 % TWO_32;
    assert u == if sample < 0 then sample * 0x100 + TWO_32 else sample * 0x100;
    FourBytes(u);
  }

  lemma ContainerRoundTrip(bytes: nat, sample: int)
    requires bytes == 2 || bytes == 4
    requires Is24Bit(sample)
    ensures FromContainer(ToContainer(bytes, sample)) == Quantized(bytes, sample)
  {
    NarrowRoundTrip(sample);
    WideRoundTrip(sample);
  }

  /** A frame as it lies in a packet. */
  function Stored(bytes: nat, samples: Stereo): seq<byte>
    requires bytes == 2 || bytes == 4
  {
    ToContainer(bytes, samples[0]) + ToContainer(bytes, samples[1])
  }

  function Loaded(bytes: nat, b: seq<byte>): Stereo
    requires (bytes == 2 || bytes == 4) && |b| == 2 * bytes
  {
    [FromContainer(b[..bytes]), FromContainer(b[bytes..])]
  }

  lemma LoadedAt(bytes: nat, b: seq<byte>, at: nat)
    requires (bytes == 2 || bytes == 4) && at + 2 * bytes <= |b|
    ensures Loaded(bytes, b[at..at + 2 * bytes])
              == [FromContainer(b[at..at + bytes]), FromContainer(b[at + bytes..at + 2 * bytes])]
  {
    var frame := b[at..at + 2 * bytes];
    assert frame[..bytes] == b[at..at + bytes] && frame[bytes..] == b[at + bytes..at + 2 * bytes];
  }

  /** Whatever the audio engine has written, what is played is 24-bit. */
  lemma LoadedIs24Bit(bytes: nat, b: seq<byte>)
    requires (bytes == 2 || bytes == 4) && |b| == 2 * bytes
    ensures Are24Bit(Loaded(bytes, b))
  {
  }

  /** What is read back of a stored frame. */
  lemma FrameRoundTrip(bytes: nat, samples: Stereo)
    requires bytes == 2 || bytes == 4
    requires Are24Bit(samples)
    ensures Loaded(bytes, Stored(bytes, samples)) == [Quantized(bytes, samples[0]), Quantized(bytes, samples[1])]
  {
    ConcatParts(ToContainer(bytes, samples[0]), ToContainer(bytes, samples[1]));
    ContainerRoundTrip(bytes, samples[0]);
    ContainerRoundTrip(bytes, samples[1]);
  }

  /** The number whose digits to base 256 are `b`, least first. */
  function LittleEndian(b: seq<byte>): nat {
    if b == [] then 0 else b[0] + 0x100 * LittleEndian(b[1..])
  }

  lemma FewBytes(b: seq<byte>)
    ensures |b| == 2 ==> LittleEndian(b) == b[0] as int + b[1] as int * 0x100
    ensures |b| == 4 ==>
              LittleEndian(b) == b[0] as int + b[1] as int * 0x100 + b[2] as int * 0x1_0000 + b[3] as int * 0x100_0000
  {
    if |b| == 2 {
      assert b[1..] == [b[1]];
    } else if |b| == 4 {
      assert b[1..][1..][1..] == [b[3]];
    }
  }

  /** A container is little-endian: the sample's upper 16 bits, or the sample 8 bits up. */
  lemma ContainerIsLittleEndian(sample: int)
    ensures LittleEndian(ToContainer(2, sample)) == sample / 0x100 % TWO_16
    ensures LittleEndian(ToContainer(4, sample)) == sample * 0x100 % TWO_32
  {
    FewBytes(ToContainer(2, sample));
    FewBytes(ToContainer(4, sample));
    FourBytes(sample * 0x100 % TWO_32);
  }

  /** And read as a signed number: shifted back, with what lies below a 24-bit sample dropped. */
  lemma ContainerIsSigned(b: seq<byte>)
    requires |b| == 2 || |b| == 4
    ensures |b| == 2 ==> FromContainer(b) % 0x100 == 0 && (FromContainer(b) / 0x100 - LittleEndian(b)) % TWO_16 == 0
    ensures |b| == 4 ==> (FromContainer(b) * 0x100 + b[0] - LittleEndian(b)) % TWO_32 == 0
    ensures Is24Bit(FromContainer(b))
  {
    FewBytes(b);
  }

  /** Left comes before right, and each half of a frame is read on its own. */
  lemma LeftThenRight(samples: Stereo, b: seq<byte>)
    requires |b| == 4 || |b| == 8
    ensures LittleEndian(Stored(2, samples)[..2]) == samples[0] / 0x100 % TWO_16
    ensures LittleEndian(Stored(2, samples)[2..]) == samples[1] / 0x100 % TWO_16
    ensures LittleEndian(Stored(4, samples)[..4]) == samples[0] * 0x100 % TWO_32
    ensures LittleEndian(Stored(4, samples)[4..]) == samples[1] * 0x100 % TWO_32
    ensures |b| == 4 ==>
              && (Loaded(2, b)[0] / 0x100 - LittleEndian(b[..2])) % TWO_16 == 0
              && (Loaded(2, b)[1] / 0x100 - LittleEndian(b[2..])) % TWO_16 == 0
    ensures |b| == 8 ==>
              && (Loaded(4, b)[0] * 0x100 + b[0] - LittleEndian(b[..4])) % TWO_32 == 0
              && (Loaded(4, b)[1] * 0x100 + b[4] - LittleEndian(b[4..])) % TWO_32 == 0
  {
    ConcatParts(ToContainer(2, samples[0]), ToContainer(2, samples[1]));
    ConcatParts(ToContainer(4, samples[0]), ToContainer(4, samples[1]));
    ContainerIsLittleEndian(samples[0]);
    ContainerIsLittleEndian(samples[1]);
    if |b| == 4 {
      ContainerIsSigned(b[..2]);
      ContainerIsSigned(b[2..]);
    } else {
      ContainerIsSigned(b[..4]);
      ContainerIsSigned(b[4..]);
    }
  }

  // ------------------------------------------------------------------ layout

  lemma FramesApart(r: nat, r': nat, align: nat)
    requires r != r'
    ensures r * align + align <= r' * align || r' * align + align <= r * align
  {
    if r < r' {
      MulMonotone(r + 1, r', align);
    } else {
      MulMonotone(r' + 1, r, align);
    }
  }

  /** Whole pages that hold a packet. */
  function Pages(packetBytes: nat): (bytes: nat)
    ensures packetBytes <= bytes < packetBytes + PAGE_SIZE && bytes % PAGE_SIZE == 0
  {
    CeilDiv(packetBytes, PAGE_SIZE) * PAGE_SIZE
  }

  /** The same place in a packet, less than a turn of the ring apart, is in different packets. */
  lemma TurnsApart(q: nat, q': nat, f: nat, r: nat, count: nat)
    requires f > 0 && count > 0
    requires q * f + r < q' * f + r < q * f + r + count * f
    ensures q % count != q' % count
  {
    if q >= q' {
      MulMonotone(q', q, f);
    } else if q' >= q + count {
      MulMonotone(q + count, q', f);
      MulDistributes(q, count, f);
    } else if q % count == q' % count {
      var a, b := q / count, q' / count;
      assert q' - q == (b - a) * count by {
        assert q == a * count + q % count && q' == b * count + q' % count;
      }
      if b - a >= 1 {
        MulMonotone(1, b - a, count);
      } else {
        MulMonotone(b - a, 0, count);
      }
    }
  }

  lemma StartFits(n: nat, f: nat)
    requires f > 0
    ensures n % f <= n && (n >= f ==> n - n % f >= f)
  {
    DivModParts(n, f);
    MulMonotone(0, n / f, f);
    if n >= f {
      DivAtLeast(n, f, 1);
      MulMonotone(1, n / f, f);
    }
  }

  /** The first frame of the packet that frame `n` goes into. */
  function PacketStart(n: nat, f: nat): (start: nat)
    requires f > 0
    ensures start <= n && (n >= f ==> start >= f)
  {
    StartFits(n, f);
    n - n % f
  }

  /** A packet is finished by the frame that makes it whole, and by no other. */
  lemma NextPacket(n: nat, f: nat)
    requires f > 0
    ensures (n + 1) / f == n / f + (if (n + 1) % f == 0 then 1 else 0) >= 0
    ensures PacketStart(n + 1, f) == if (n + 1) % f == 0 then PacketStart(n, f) + f else PacketStart(n, f)
    ensures n % f == 0 ==> PacketStart(n, f) == n
    ensures n + 1 >= f && n < f ==> (n + 1) % f == 0
  {
    DivModParts(n, f);
    if n % f + 1 == f {
      DivModUnique(n + 1, f, n / f + 1, 0);
    } else {
      DivModUnique(n + 1, f, n / f, n % f + 1);
      if n < f {
        DivModUnique(n, f, 0, n);
      }
    }
  }

  /** The frame after `n` of packets of `f` frames, each of `align` bytes. */
  lemma NextWithin(n: nat, f: nat, align: nat)
    requires f > 0 && align > 0
    ensures n / f >= 0 && 0 < n % f * align + align <= f * align
    ensures n % f * align + align < f * align ==>
              (n + 1) / f == n / f && (n + 1) % f * align == n % f * align + align
    ensures n % f * align + align == f * align ==> (n + 1) / f == n / f + 1 && (n + 1) % f * align == 0
  {
    DivModParts(n, f);
    MulMonotone(0, n % f, align);
    MulDistributes(n % f, 1, align);
    if n % f + 1 == f {
      DivModUnique(n + 1, f, n / f + 1, 0);
    } else {
      DivModUnique(n + 1, f, n / f, n % f + 1);
      MulMonotone(n % f + 2, f, align);
      MulDistributes(n % f + 1, 1, align);
    }
  }

  lemma NextTurn(q: nat, count: nat)
    requires count > 0
    ensures (q + 1) % count == if q % count + 1 < count then q % count + 1 else 0
  {
    DivModParts(q, count);
    if q % count + 1 < count {
      DivModUnique(q + 1, count, q / count, q % count + 1);
    } else {
      DivModUnique(q + 1, count, q / count + 1, 0);
    }
  }

  /** Where frames lie in `count` packets of whole pages: from `firstOffset` on in packet 0, from 0 on in the others. */
  datatype Layout = Layout(containerBytes: nat, count: nat, packetBytes: nat, firstOffset: nat) {

    function Align(): nat {
      2 * containerBytes
    }

    ghost predicate Valid() {
      && (containerBytes == 2 || containerBytes == 4)
      && 0 < count <= MAX_PACKETS
      && packetBytes > 0 && packetBytes % Align() == 0
      && firstOffset + packetBytes == Pages(packetBytes)
    }

    function FramesPerPacket(): nat
      requires containerBytes > 0
    {
      DivAtLeast(packetBytes, Align(), 0);
      packetBytes / Align()
    }

    /** The packet that frame `n` of the stream goes into. */
    function Index(n: nat): nat
      requires containerBytes > 0 && FramesPerPacket() > 0 && count > 0
    {
      n / FramesPerPacket() % count
    }

    function Base(index: nat): nat {
      if index == 0 then firstOffset else 0
    }

    function Within(n: nat): nat
      requires containerBytes > 0 && FramesPerPacket() > 0
    {
      DivAtLeast(n % FramesPerPacket(), 1, 0);
      MulMonotone(0, n % FramesPerPacket(), Align());
      n % FramesPerPacket() * Align()
    }

    /** And where in it the frame starts. */
    function Offset(n: nat): nat
      requires containerBytes > 0 && FramesPerPacket() > 0 && count > 0
    {
      Base(Index(n)) + Within(n)
    }

    /** Frames in the whole ring. */
    function Capacity(): nat
      requires containerBytes > 0
    {
      count * FramesPerPacket()
    }

    lemma PacketIsFrames()
      requires Valid()
      ensures FramesPerPacket() > 0 && FramesPerPacket() * Align() == packetBytes
    {
      assert packetBytes == packetBytes / Align() * Align() + packetBytes % Align();
    }

    /** Every frame lies within its packet. */
    lemma PlaceFits(n: nat)
      requires Valid()
      ensures FramesPerPacket() > 0
      ensures Index(n) < count
      ensures Offset(n) + Align() <= Pages(packetBytes)
    {
      PacketIsFrames();
      MulMonotone(n % FramesPerPacket() + 1, FramesPerPacket(), Align());
    }

    lemma FirstPlace()
      requires Valid() && FramesPerPacket() > 0
      ensures Index(0) == 0 && Offset(0) == firstOffset
    {
      DivModUnique(0, FramesPerPacket(), 0, 0);
    }

    /**
     Each frame follows the one before it: right after it in its packet, or, when
     that is full, at the start of the next packet, the first again after the last.
     */
    lemma NextPlace(n: nat)
      requires Valid() && FramesPerPacket() > 0
      ensures var end := Offset(n) + Align() - (if Index(n) == 0 then firstOffset else 0);
              var next := if Index(n) + 1 < count then Index(n) + 1 else 0;
              && 0 < end <= packetBytes
              && (end < packetBytes ==> Index(n + 1) == Index(n) && Offset(n + 1) == Offset(n) + Align())
              && (end == packetBytes ==> Index(n + 1) == next && Offset(n + 1) == if next == 0 then firstOffset else 0)
    {
      PacketIsFrames();
      NextWithin(n, FramesPerPacket(), Align());
      NextTurn(n / FramesPerPacket(), count);
    }

    /** As many frames in a row as the ring has room for lie apart from each other. */
    lemma PlacesApart(n: nat, m: nat)
      requires Valid() && FramesPerPacket() > 0 && n < m < n + Capacity()
      ensures Index(n) != Index(m) || Offset(n) + Align() <= Offset(m) || Offset(m) + Align() <= Offset(n)
    {
      var f := FramesPerPacket();
      DivModParts(n, f);
      DivModParts(m, f);
      if n % f == m % f {
        TurnsApart(n / f, m / f, f, n % f, count);
      } else {
        FramesApart(n % f, m % f, Align());
      }
    }

    /** What the packets hold, packet by packet. */
    ghost predicate Fits(memory: seq<seq<byte>>) {
      && Valid() && FramesPerPacket() > 0
      && |memory| == count && (forall i | 0 <= i < count :: |memory[i]| == Pages(packetBytes))
    }

    /** The bytes of frame `k` of the stream, or of the one that has taken its place. */
    ghost function Bytes(memory: seq<seq<byte>>, k: nat): (b: seq<byte>)
      requires Fits(memory)
      ensures |b| == Align()
    {
      PlaceFits(k);
      memory[Index(k)][Offset(k)..Offset(k) + Align()]
    }

    /** Frame `n` written where it belongs. */
    ghost function Written(memory: seq<seq<byte>>, n: nat, frame: seq<byte>): (m: seq<seq<byte>>)
      requires Fits(memory) && |frame| == Align()
      ensures Fits(m)
    {
      PlaceFits(n);
      memory[Index(n) := Spliced(memory[Index(n)], Offset(n), frame)]
    }

    /** The ring holds as many of the last frames of `x` as it has room for. */
    ghost predicate Holds(memory: seq<seq<byte>>, x: seq<Stereo>)
      requires Fits(memory)
    {
      forall k: nat | |x| - Capacity() <= k < |x| :: Bytes(memory, k) == Stored(containerBytes, x[k])
    }

    lemma WrittenThere(memory: seq<seq<byte>>, n: nat, frame: seq<byte>)
      requires Fits(memory) && |frame| == Align()
      ensures Bytes(Written(memory, n, frame), n) == frame
    {
      PlaceFits(n);
      SpliceParts(memory[Index(n)], Offset(n), frame);
    }

    /** Writing a frame leaves an earlier one as it was, less than a turn of the ring after it. */
    lemma WrittenApart(memory: seq<seq<byte>>, n: nat, k: nat, frame: seq<byte>)
      requires Fits(memory) && |frame| == Align() && k < n < k + Capacity()
      ensures Bytes(Written(memory, n, frame), k) == Bytes(memory, k)
    {
      PlaceFits(n);
      PlaceFits(k);
      PlacesApart(k, n);
      if Index(k) == Index(n) {
        SpliceApart(memory[Index(n)], Offset(n), frame, Offset(k), Offset(k) + Align());
      }
    }

    /** The next frame takes the place of the oldest. */
    lemma HoldsNext(memory: seq<seq<byte>>, x: seq<Stereo>, samples: Stereo)
      requires Fits(memory)
      ensures Holds(memory, x) ==> Holds(Written(memory, |x|, Stored(containerBytes, samples)), x + [samples])
    {
      var frame, next := Stored(containerBytes, samples), x + [samples];
      WrittenThere(memory, |x|, frame);
      forall k: nat | |next| - Capacity() <= k < |x|
        ensures Bytes(Written(memory, |x|, frame), k) == Bytes(memory, k)
      {
        WrittenApart(memory, |x|, k, frame);
      }
    }
  }

  // ---------------------------------------------------------------- the ring

  datatype Status = Success | InvalidParameter | InsufficientResources

  /** What the framework is told of a packet. */
  datatype Packet = Packet(offset: nat, size: nat)

  /** How far a stream has come, and what it has told of it. */
  class Cursor {
    var frames: nat
    var qpc: nat
    var packetStart: nat
    var currentPacket: nat
    var lastPacketStart: nat

    /** The packets reported finished, and when each frame moved. */
    ghost var notified: seq<nat>
    ghost var times: seq<nat>

    /**
     With packets of `f` frames: those finished so far have been reported, once
     each and in order, and the last with the time its first frame moved.
     */
    ghost predicate Paced(f: nat)
      requires f > 0
      reads this
    {
      && |times| == frames
      && (frames > 0 ==> qpc == times[frames - 1])
      && |notified| == frames / f
      && (forall i | 0 <= i < |notified| :: notified[i] == i)
      && currentPacket == frames / f % TWO_32
      && (frames % f != 0 ==> packetStart == times[PacketStart(frames, f)])
      && (frames >= f ==> lastPacketStart == times[PacketStart(frames, f) - f])
    }

    constructor ()
      ensures frames == 0 && (forall f: nat | f > 0 :: Paced(f))
    {
      frames, qpc, packetStart, currentPacket, lastPacketStart := 0, 0, 0, 0, 0;
      notified, times := [], [];
      new;
      forall f: nat | f > 0 ensures Paced(f) {
        DivModUnique(0, f, 0, 0);
      }
    }

    method Reset()
      modifies this
      ensures frames == 0 && (forall f: nat | f > 0 :: Paced(f))
    {
      frames, qpc, packetStart, currentPacket, lastPacketStart := 0, 0, 0, 0, 0;
      notified, times := [], [];
      forall f: nat | f > 0 ensures Paced(f) {
        DivModUnique(0, f, 0, 0);
      }
    }

    /** Without packets only the position moves. */
    method Skip(at: nat)
      modifies this`frames, this`qpc, this`times
      ensures frames == old(frames) + 1 && qpc == at && times == old(times) + [at]
    {
      frames, qpc, times := frames + 1, at, times + [at];
    }

    /** One frame of a packet has moved at `at`; a packet that it makes whole is reported. */
    method Advance(framesPerPacket: nat, at: nat)
      requires framesPerPacket > 0
      modifies this
      ensures frames == old(frames) + 1 && qpc == at && times == old(times) + [at]
      ensures if frames % framesPerPacket == 0
              then notified == old(notified) + [frames / framesPerPacket - 1]
                   && currentPacket == frames / framesPerPacket % TWO_32
              else unchanged(`notified) && unchanged(`currentPacket) && unchanged(`lastPacketStart)
      ensures old(Paced(framesPerPacket)) ==> Paced(framesPerPacket)
    {
      NextPacket(frames, framesPerPacket);
      if frames % framesPerPacket == 0 {
        packetStart := at;
      }
      Skip(at);
      if frames % framesPerPacket == 0 {
        var completed := frames / framesPerPacket - 1;
        currentPacket := (completed + 1) % TWO_32;
        lastPacketStart := packetStart;
        notified := notified + [completed];
      }
    }
  }

  class PacketRing {
    const containerBytes: nat
    const cursor: Cursor
    var buffers: seq<array<byte>>
    var count: nat
    var packetBytes: nat
    var firstOffset: nat

    /** The frames captured and rendered since the stream was last reset. */
    ghost var captured: seq<Stereo>
    ghost var rendered: seq<Stereo>

    ghost function Shape(): Layout
      reads this`count, this`packetBytes, this`firstOffset
    {
      Layout(containerBytes, count, packetBytes, firstOffset)
    }

    /** With packets allocated, they are distinct and of whole pages. */
    ghost predicate Valid()
      reads this`buffers, this`count, this`packetBytes, this`firstOffset
    {
      && (containerBytes == 2 || containerBytes == 4)
      && |buffers| == count
      && (count > 0 ==> Shape().Valid() && Shape().FramesPerPacket() > 0)
      && (forall i | 0 <= i < count :: buffers[i].Length == Pages(packetBytes))
      && (forall i, j | 0 <= i < j < count :: buffers[i] != buffers[j])
    }

    constructor (containerBytes: nat)
      requires containerBytes == 2 || containerBytes == 4
      ensures Valid() && count == 0 && captured == [] && rendered == []
      ensures fresh(cursor) && cursor.frames == 0
      ensures this.containerBytes == containerBytes
    {
      this.containerBytes := containerBytes;
      buffers, count, packetBytes, firstOffset := [], 0, 0, 0;
      cursor := new Cursor();
      captured, rendered := [], [];
    }

    method FreePackets()
      requires Valid()
      modifies this`buffers, this`count
      ensures Valid() && count == 0
    {
      buffers, count := [], 0;
    }

    /**
     Makes a ring of packets, or none. `listed` says whether there is memory for
     their list, `available` for how many of them there is.
     */
    method AllocatePackets(count: nat, packetBytes: nat, listed: bool, available: nat)
      returns (status: Status, packets: seq<Packet>)
      requires Valid()
      modifies this`buffers, this`count, this`packetBytes, this`firstOffset
      ensures Valid()
      ensures status == InvalidParameter <==>
                count == 0 || count > MAX_PACKETS || packetBytes == 0 || packetBytes % (2 * containerBytes) != 0
      ensures status == InvalidParameter ==> unchanged(this)
      ensures status == InsufficientResources ==>
                if listed then available < count && this.count == 0 else unchanged(this)
      ensures status == Success ==>
                && listed && available >= count
                && (this.count, this.packetBytes) == (count, packetBytes)
                && (forall i | 0 <= i < count :: fresh(buffers[i]))
                && |packets| == count
                && (forall i | 0 <= i < count :: packets[i] == Packet(Shape().Base(i), packetBytes))
    {
      packets := [];
      if count == 0 || count > MAX_PACKETS || packetBytes == 0 || packetBytes % (2 * containerBytes) != 0 {
        return InvalidParameter, [];
      }
      if !listed {
        return InsufficientResources, [];
      }
      var bytes := CeilDiv(packetBytes, PAGE_SIZE) * PAGE_SIZE;
      assert bytes == Pages(packetBytes);
      var made: seq<array<byte>> := [];
      for i := 0 to count
        invariant |made| == i == |packets| <= available
        invariant forall k | 0 <= k < i :: fresh(made[k]) && made[k].Length == bytes
        invariant forall j, k | 0 <= j < k < i :: made[j] != made[k]
        invariant forall k | 0 <= k < i :: packets[k] == Packet(if k == 0 then bytes - packetBytes else 0, packetBytes)
        invariant unchanged(this)
      {
        if i >= available {
          FreePackets();
          return InsufficientResources, [];
        }
        var buffer := new byte[bytes](_ => 0);
        made := made + [buffer];
        packets := packets + [Packet(if i == 0 then bytes - packetBytes else 0, packetBytes)];
      }
      buffers, this.count, this.packetBytes, firstOffset := made, count, packetBytes, bytes - packetBytes;
      Shape().PacketIsFrames();
      status := Success;
    }

    /** Where the next frame lies. */
    method FrameBytes() returns (place: Option<(nat, nat)>)
      requires Valid()
      ensures count == 0 <==> place.None?
      ensures place.Some? ==> place.value == (Shape().Index(cursor.frames), Shape().Offset(cursor.frames))
    {
      if count == 0 {
        return None;
      }
      var framesPerPacket := packetBytes / (2 * containerBytes);
      var index := cursor.frames / framesPerPacket % count;
      var offset := cursor.frames % framesPerPacket * (2 * containerBytes);
      var base := if index == 0 then firstOffset else 0;
      return Some((index, base + offset));
    }

    /** The packets of the ring are reported as the cursor moves. */
    ghost predicate Paced()
      requires Valid()
      reads this`count, this`packetBytes, this`firstOffset, this`buffers, cursor
    {
      count > 0 && cursor.Paced(Shape().FramesPerPacket())
    }

    method Advance(at: nat)
      requires Valid()
      modifies cursor
      ensures cursor.frames == old(cursor.frames) + 1 && cursor.qpc == at
      ensures old(Paced()) ==> Paced()
    {
      if count == 0 {
        cursor.Skip(at);
      } else {
        cursor.Advance(packetBytes / (2 * containerBytes), at);
      }
    }

    ghost function Memory(): (m: seq<seq<byte>>)
      requires Valid()
      reads this`buffers, this`count, this`packetBytes, this`firstOffset, buffers
      ensures |m| == count && (forall i | 0 <= i < count :: m[i] == buffers[i][..])
      ensures count > 0 ==> Shape().Fits(m)
    {
      var b := buffers;
      seq(|b|, i requires 0 <= i < |b| reads b => b[i][..])
    }

    method StoreSample(buffer: array<byte>, at: nat, sample: int)
      requires Valid() && at + containerBytes <= buffer.Length
      modifies buffer
      ensures buffer[..] == Spliced(old(buffer[..]), at, ToContainer(containerBytes, sample))
    {
      var bytes := ToContainer(containerBytes, sample);
      forall j | 0 <= j < containerBytes {
        buffer[at + j] := bytes[j];
      }
    }

    method StoreFrame(buffer: array<byte>, at: nat, samples: Stereo)
      requires Valid() && at + 2 * containerBytes <= buffer.Length
      modifies buffer
      ensures buffer[..] == Spliced(old(buffer[..]), at, Stored(containerBytes, samples))
    {
      SpliceJoins(buffer[..], at, ToContainer(containerBytes, samples[0]), ToContainer(containerBytes, samples[1]));
      StoreSample(buffer, at, samples[0]);
      StoreSample(buffer, at + containerBytes, samples[1]);
    }

    /** The ring holds the newest captured frames. */
    ghost predicate HoldsNewest()
      requires Valid() && count > 0
      reads this, cursor, buffers
    {
      cursor.frames == |captured| && Shape().Holds(Memory(), captured)
    }

    /** Stores a frame where the next one belongs. */
    method Replace(index: nat, at: nat, samples: Stereo)
      requires Valid() && count > 0 && (index, at) == (Shape().Index(cursor.frames), Shape().Offset(cursor.frames))
      modifies buffers
      ensures Memory() == Shape().Written(old(Memory()), cursor.frames, Stored(containerBytes, samples))
    {
      Shape().PlaceFits(cursor.frames);
      StoreFrame(buffers[index], at, samples);
    }

    /** What was newest and this frame are the newest then. */
    method Store(index: nat, at: nat, samples: Stereo)
      requires Valid() && count > 0 && (index, at) == (Shape().Index(cursor.frames), Shape().Offset(cursor.frames))
      modifies buffers
      ensures old(HoldsNewest()) ==> Shape().Holds(Memory(), captured + [samples])
    {
      Shape().HoldsNext(Memory(), captured, samples);
      Replace(index, at, samples);
    }

    method StoreNext(samples: Stereo)
      requires Valid()
      modifies this`captured, buffers
      ensures Valid() && captured == old(captured) + [samples]
      ensures count > 0 && old(HoldsNewest()) ==> Shape().Holds(Memory(), captured)
    {
      var place := FrameBytes();
      if place.Some? {
        Store(place.value.0, place.value.1, samples);
      }
      captured := captured + [samples];
    }

    method CaptureFrame(samples: Stereo, at: nat)
      requires Valid()
      modifies cursor, this`captured, buffers
      ensures Valid() && cursor.frames == old(cursor.frames) + 1 && captured == old(captured) + [samples]
      ensures cursor.qpc == at
      ensures old(Paced()) ==> Paced()
      ensures count > 0 && old(HoldsNewest()) ==> HoldsNewest()
    {
      StoreNext(samples);
      Advance(at);
    }

    /** From the first frame on, with packets allocated. */
    method Reset()
      requires Valid()
      modifies cursor, this`captured, this`rendered
      ensures Valid() && cursor.frames == 0 && captured == [] && rendered == []
      ensures count > 0 ==> Paced() && HoldsNewest()
    {
      cursor.Reset();
      captured, rendered := [], [];
    }

    /** The frame that the audio engine has put at `k`, silence without packets. */
    ghost function Supplied(k: nat): Stereo
      requires Valid()
      reads this`buffers, this`count, this`packetBytes, this`firstOffset, buffers
    {
      if count == 0 then [0, 0] else Loaded(containerBytes, Shape().Bytes(Memory(), k))
    }

    /** `played` is what has been put at `from` and the places after it. */
    ghost predicate Plays(from: nat, played: seq<Stereo>)
      requires Valid()
      reads this`buffers, this`count, this`packetBytes, this`firstOffset, buffers
    {
      forall k: nat | k < |played| :: played[k] == Supplied(from + k)
    }

    /** Without packets every place is silent. */
    lemma PlaysJoin(from: nat, front: seq<Stereo>, back: seq<Stereo>)
      requires Valid() && Plays(from, front)
      requires Plays(if count == 0 then from else from + |front|, back)
      ensures Plays(from, front + back)
    {
      var at := if count == 0 then from else from + |front|;
      forall k: nat | k < |front + back| ensures (front + back)[k] == Supplied(from + k) {
        if k >= |front| {
          assert back[k - |front|] == Supplied(at + (k - |front|));
        }
      }
    }

    /** One frame more, from the place after those before it. */
    lemma PlaysNext(from: nat, played: seq<Stereo>, at: nat, samples: Stereo)
      requires Valid() && Plays(from, played) && samples == Supplied(at)
      requires count > 0 ==> at == from + |played|
      ensures Plays(from, played + [samples])
    {
    }

    method LoadSample(buffer: array<byte>, at: nat) returns (sample: int)
      requires Valid() && at + containerBytes <= buffer.Length
      ensures sample == FromContainer(buffer[at..at + containerBytes])
    {
      var bytes := buffer[at..at + containerBytes];
      if containerBytes == 2 {
        sample := Signed(bytes[0] as int + bytes[1] as int * 0x100, TWO_16) * 0x100;
      } else {
        var u := bytes[0] as int + bytes[1] as int * 0x100 + bytes[2] as int * 0x1_0000 + bytes[3] as int * 0x100_0000;
        sample := Signed(u, TWO_32) / 0x100;
      }
    }

    method LoadFrame(buffer: array<byte>, at: nat) returns (samples: Stereo)
      requires Valid() && at + 2 * containerBytes <= buffer.Length
      ensures samples == Loaded(containerBytes, buffer[at..at + 2 * containerBytes]) && Are24Bit(samples)
    {
      var left := LoadSample(buffer, at);
      var right := LoadSample(buffer, at + containerBytes);
      LoadedAt(containerBytes, buffer[..], at);
      LoadedIs24Bit(containerBytes, buffer[at..at + 2 * containerBytes]);
      samples := [left, right];
    }

    /** Without packets there is nothing to play, and nothing moves. */
    method RenderFrame(time: nat) returns (samples: Stereo)
      requires Valid()
      modifies cursor, this`rendered
      ensures Valid() && samples == old(Supplied(cursor.frames)) && rendered == old(rendered) + [samples]
      ensures Are24Bit(samples)
      ensures cursor.frames == old(cursor.frames) + if count == 0 then 0 else 1
      ensures count > 0 ==> cursor.qpc == time
      ensures old(Paced()) ==> Paced()
    {
      var place := FrameBytes();
      if place.None? {
        rendered := rendered + [[0, 0]];
        return [0, 0];
      }
      var (index, at) := place.value;
      Shape().PlaceFits(cursor.frames);
      samples := LoadFrame(buffers[index], at);
      rendered := rendered + [samples];
      Advance(time);
    }
  }
}
