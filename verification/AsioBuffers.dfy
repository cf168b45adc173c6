/**
 A session of the ASIO driver as two bounded queues: captured input, and output
 that starts full of silence. What each operation makes of the queues and of
 the counts is a function; the rings that hold them refine it.
 */
module AsioBuffers {
  import opened Arithmetic
  import opened Wrappers

  type InFrame = (int, int)
  type OutFrame = (int, int, int, int)

  const SILENCE: OutFrame := (0, 0, 0, 0)
  const NO_INPUT: InFrame := (0, 0)

  const MAX_COUNT := TWO_32 - 1

  /** Statistics stop at the largest 32-bit count. */
  function Counted(count: nat): nat {
    if count < MAX_COUNT then count + 1 else count
  }

  /** Appends to a queue of at most `room`, dropping the oldest element if it is full. */
  function PushedOver<T>(queue: seq<T>, room: nat, x: T): seq<T> {
    if |queue| < room then queue + [x] else (queue + [x])[1..]
  }

  function PushedAll<T>(queue: seq<T>, room: nat, xs: seq<T>): seq<T>
    decreases |xs|
  {
    if xs == [] then queue else PushedAll(PushedOver(queue, room, xs[0]), room, xs[1..])
  }

  /** A bounded queue keeps the newest elements. */
  lemma {:induction false} PushedAllKeepsNewest<T>(queue: seq<T>, room: nat, xs: seq<T>)
    requires |queue| <= room
    ensures PushedAll(queue, room, xs) == (queue + xs)[Max(0, |queue| + |xs| - room)..]
    decreases |xs|
  {
    if xs == [] {
      assert queue + xs == queue;
    } else {
      var next := PushedOver(queue, room, xs[0]);
      PushedAllKeepsNewest(next, room, xs[1..]);
      if |queue| < room {
        assert next + xs[1..] == queue + xs;
      } else {
        assert next + xs[1..] == (queue + xs)[1..];
      }
    }
  }

  lemma {:induction false} PushedAllAppend<T>(queue: seq<T>, room: nat, xs: seq<T>, ys: seq<T>)
    ensures PushedAll(queue, room, xs + ys) == PushedAll(PushedAll(queue, room, xs), room, ys)
    decreases |xs|
  {
    if xs == [] {
      assert xs + ys == ys;
    } else {
      assert (xs + ys)[1..] == xs[1..] + ys;
      PushedAllAppend(PushedOver(queue, room, xs[0]), room, xs[1..], ys);
    }
  }

  /** What a session holds. */
  datatype Session = Session(period: nat, transfer: nat, input: seq<InFrame>, output: seq<OutFrame>,
                             captured: nat, silentFrames: nat, droppedFrames: nat) {

    function InputRoom(): nat {
      4 * period + 2 * transfer
    }

    function OutputRoom(): nat {
      2 * period + transfer
    }

    predicate Valid() {
      |input| <= InputRoom() && |output| <= OutputRoom()
    }

    function Capture(frame: InFrame): Session {
      this.(input := PushedOver(input, InputRoom(), frame),
            droppedFrames := if |input| < InputRoom() then droppedFrames else Counted(droppedFrames),
            captured := if captured + 1 < period then captured + 1 else 0)
    }

    /** Whether the next captured frame completes a period. */
    predicate Completes() {
      captured + 1 >= period
    }

    function Rendered(): OutFrame {
      if output == [] then SILENCE else output[0]
    }

    function Render(): Session {
      if output == [] then this.(silentFrames := Counted(silentFrames)) else this.(output := output[1..])
    }

    predicate Readable() {
      |input| >= period
    }

    function Read(): Session
      requires Readable()
    {
      this.(input := input[period..])
    }

    function Write(frames: seq<OutFrame>): Session {
      this.(output := PushedAll(output, OutputRoom(), frames))
    }
  }

  function Silent(n: nat): seq<OutFrame> {
    seq(n, _ => SILENCE)
  }

  /** Output starts as far ahead as two periods and a transfer. */
  function Started(period: nat, transfer: nat): Session {
    Session(period, transfer, [], Silent(2 * period + transfer), 0, 0, 0)
  }

  lemma WrapOnce(a: nat, room: nat)
    requires a < 2 * room
    ensures a % room == if a < room then a else a - room
  {
    DivModUnique(a, room, if a < room then 0 else 1, if a < room then a else a - room);
  }

  class Fifo<T> {
    const frames: array<T>
    var start: nat
    var len: nat
    ghost var contents: seq<T>

    ghost function Place(i: nat): nat
      reads this
    {
      if start + i < frames.Length then start + i else start + i - frames.Length
    }

    ghost predicate Valid()
      reads this, frames
    {
      && len == |contents| <= frames.Length
      && (frames.Length > 0 ==> start < frames.Length)
      && (forall i | 0 <= i < len :: frames[Place(i)] == contents[i])
    }

    constructor (capacity: nat, zero: T)
      ensures Valid() && fresh(frames) && frames.Length == capacity && contents == []
    {
      frames := new T[capacity](_ => zero);
      start, len, contents := 0, 0, [];
    }

    /** Reserves the room, or nothing when there is no memory for it. */
    static method New(capacity: nat, zero: T, memory: bool) returns (fifo: Option<Fifo<T>>)
      ensures fifo.Some? <==> memory
      ensures fifo.Some? ==>
                && fifo.value.Valid() && fresh(fifo.value) && fresh(fifo.value.frames)
                && fifo.value.frames.Length == capacity && fifo.value.contents == []
    {
      if !memory {
        return None;
      }
      var made := new Fifo<T>(capacity, zero);
      fifo := Some(made);
    }

    /** With room left the contents grow by one frame at the end; a full ring stays as it is. */
    method Push(frame: T) returns (pushed: bool)
      requires Valid()
      modifies this`len, this`contents, frames
      ensures Valid()
      ensures pushed <==> |old(contents)| < frames.Length
      ensures contents == if pushed then old(contents) + [frame] else old(contents)
    {
      if len == frames.Length {
        return false;
      }
      WrapOnce(start + len, frames.Length);
      var end := (start + len) % frames.Length;
      frames[end] := frame;
      len := len + 1;
      contents := contents + [frame];
      pushed := true;
    }

    method Pop() returns (frame: Option<T>)
      requires Valid()
      modifies this
      ensures Valid()
      ensures frame == if old(contents) == [] then None else Some(old(contents)[0])
      ensures contents == if old(contents) == [] then [] else old(contents)[1..]
    {
      if len == 0 {
        return None;
      }
      frame := Some(frames[start]);
      WrapOnce(start + 1, frames.Length);
      start := (start + 1) % frames.Length;
      len := len - 1;
      contents := contents[1..];
    }

    /** The contents grow by one frame at the end, at the cost of the first when there was no room. */
    method PushOver(frame: T) returns (full: bool)
      requires Valid()
      modifies this, frames
      ensures Valid()
      ensures full <==> |old(contents)| == frames.Length
      ensures contents == PushedOver(old(contents), frames.Length, frame)
    {
      var pushed := Push(frame);
      full := !pushed;
      if full {
        var _ := Pop();
        var _ := Push(frame);
      }
    }
  }

  class Buffers {
    const period: nat
    ghost const transfer: nat
    const input: Fifo<InFrame>
    const output: Fifo<OutFrame>
    var captured: nat
    var silentFrames: nat
    var droppedFrames: nat

    ghost predicate Valid()
      reads this, input, output, input.frames, output.frames
    {
      && input.Valid() && output.Valid()
      && input.frames.Length == 4 * period + 2 * transfer
      && output.frames.Length == 2 * period + transfer
    }

    ghost function State(): Session
      reads this, input, output
    {
      Session(period, transfer, input.contents, output.contents, captured, silentFrames, droppedFrames)
    }

    ghost function Repr(): set<object> {
      {this, input, output, input.frames, output.frames}
    }

    constructor (period: nat, transfer: nat, input: Fifo<InFrame>, output: Fifo<OutFrame>)
      requires input.Valid() && input.frames.Length == 4 * period + 2 * transfer && input.contents == []
      requires output.Valid() && output.frames.Length == 2 * period + transfer
      requires output.contents == Silent(2 * period + transfer)
      ensures Valid() && this.input == input && this.output == output
      ensures State() == Started(period, transfer)
    {
      this.period, this.transfer, this.input, this.output := period, transfer, input, output;
      captured, silentFrames, droppedFrames := 0, 0, 0;
    }

    /** The output queue is filled up with silence; without memory for both queues there is no session. */
    static method New(period: nat, transfer: nat, outputMemory: bool, inputMemory: bool)
      returns (buffers: Option<Buffers>)
      ensures buffers.Some? <==> outputMemory && inputMemory
      ensures buffers.Some? ==>
                && buffers.value.Valid() && fresh(buffers.value.Repr())
                && buffers.value.State() == Started(period, transfer)
    {
      var output := Fifo<OutFrame>.New(2 * period + transfer, SILENCE, outputMemory);
      if output.None? {
        return None;
      }
      var more := true;
      while more
        invariant output.value.Valid() && fresh(output.value) && fresh(output.value.frames)
        invariant output.value.frames.Length == 2 * period + transfer
        invariant output.value.contents == Silent(|output.value.contents|)
        invariant !more ==> |output.value.contents| == output.value.frames.Length
        decreases more, output.value.frames.Length - |output.value.contents|
      {
        more := output.value.Push(SILENCE);
      }
      var input := Fifo<InFrame>.New(4 * period + 2 * transfer, NO_INPUT, inputMemory);
      if input.None? {
        return None;
      }
      var made := new Buffers(period, transfer, input.value, output.value);
      buffers := Some(made);
    }

    /** The counter wraps, and the result is true, once every `period` calls. */
    method Capture(frame: InFrame) returns (completed: bool)
      requires Valid()
      modifies this, input, input.frames
      ensures Valid()
      ensures State() == old(State()).Capture(frame)
      ensures completed <==> old(State()).Completes()
    {
      var full := input.PushOver(frame);
      if full {
        droppedFrames := if droppedFrames < MAX_COUNT then droppedFrames + 1 else droppedFrames;
      }
      captured := captured + 1;
      if captured < period {
        return false;
      }
      captured := 0;
      return true;
    }

    /** The head of the output queue, or a silent frame that is counted. */
    method Render() returns (frame: OutFrame)
      requires Valid()
      modifies this, output
      ensures Valid()
      ensures State() == old(State()).Render()
      ensures frame == old(State()).Rendered()
      ensures old(State()).output == [] ==> frame == (0, 0, 0, 0)
    {
      var next := output.Pop();
      match next
      case Some(value) =>
        frame := value;
      case None =>
        silentFrames := if silentFrames < MAX_COUNT then silentFrames + 1 else silentFrames;
        frame := SILENCE;
    }

    /** The first `period` input frames go to the front of `into`, if there are as many and `into` is that long. */
    method Read(into: array<InFrame>) returns (frames: Option<nat>)
      requires Valid() && into != input.frames
      modifies input, into
      ensures Valid()
      ensures frames == if into.Length < period then None else Some(if old(State()).Readable() then period else 0)
      ensures if frames.Some? && old(State()).Readable()
              then State() == old(State()).Read() && into[..period] == old(State()).input[..period]
                && into[period..] == old(into[period..])
              else State() == old(State()) && into[..] == old(into[..])
    {
      if into.Length < period {
        return None;
      }
      if input.len < period {
        return Some(0);
      }
      for i := 0 to period
        invariant Valid()
        invariant input.contents == old(input.contents)[i..]
        invariant State() == old(State()).(input := input.contents)
        invariant into[..i] == old(input.contents)[..i]
        invariant into[period..] == old(into[period..])
      {
        var next := input.Pop();
        into[i] := if next.Some? then next.value else NO_INPUT;
      }
      return Some(period);
    }

    /** Pushes the frames over the output if there are `period` of them, and otherwise does nothing. */
    method Write(from: seq<OutFrame>) returns (taken: bool)
      requires Valid()
      modifies output, output.frames
      ensures Valid()
      ensures taken <==> |from| == period
      ensures State() == if taken then old(State()).Write(from) else old(State())
    {
      if |from| != period {
        return false;
      }
      assert from[..0] == [];
      for i := 0 to |from|
        invariant Valid()
        invariant State() == old(State()).Write(from[..i])
      {
        assert from[..i + 1] == from[..i] + [from[i]];
        PushedAllAppend(old(State()).output, output.frames.Length, from[..i], [from[i]]);
        var _ := output.PushOver(from[i]);
      }
      assert from[..|from|] == from;
      return true;
    }

    /** How many silent frames have been played and input frames dropped, up to the 32-bit limit. */
    method Stats() returns (silent: nat, dropped: nat)
      requires Valid()
      ensures silent == State().silentFrames && dropped == State().droppedFrames
    {
      silent, dropped := silentFrames, droppedFrames;
    }
  }
}
