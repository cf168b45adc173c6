/**
 The state that streams and a session share, and each operation as a function
 of it. Whether the engine starts is a parameter.
 */
module AudioState {
  import opened CardRates
  import opened Wrappers

  datatype Slot = Output12 | Output34 | Input12 {
    function Index(): (i: nat)
      ensures i < SLOTS
    {
      match this
      case Output12 => 0
      case Output34 => 1
      case Input12 => 2
    }
  }

  const SLOTS := 3

  /** The stream running in each slot. */
  type Running = r: seq<Option<nat>> | |r| == SLOTS witness [None, None, None]

  datatype Stream = Stream(id: nat, slot: Slot, rate: SampleRate)

  datatype Status = Success | DeviceBusy | DeviceNotReady | EngineFailed

  /**
   The counts are 32-bit in the driver; runs below keep them from going below
   zero. `faulty` says that the last start of the engine failed.
   */
  datatype State = State(
    attached: bool,
    streams: int,
    rate: Option<SampleRate>,
    prepared: nat,
    engine: Option<SampleRate>,
    faulty: bool,
    running: Running,
    session: Option<nat>)
  {
    function EngineStarted(rate: SampleRate, ok: bool): State {
      if attached && ok then this.(engine := Some(rate), faulty := false) else this.(faulty := true)
    }

    /** The first stream's rate becomes the card's. */
    function Claimed(rate: SampleRate): State {
      this.(streams := streams + 1, rate := Some(this.rate.Or(rate)))
    }

    function Unclaimed(): State {
      this.(streams := streams - 1, rate := if streams == 1 then None else rate)
    }

    /** Only an engine that runs makes the stream count as prepared. */
    function Prepared(stream: Stream, ok: bool): State {
      var s := if engine.Some? then this else EngineStarted(rate.Or(stream.rate), ok);
      if s.engine.Some? then s.(prepared := prepared + 1) else s
    }

    function Unprepared(): State {
      var left := if prepared == 0 then 0 else prepared - 1;
      this.(prepared := left, engine := if left == 0 then None else engine)
    }

    function Run(stream: Stream): State {
      this.(running := running[stream.slot.Index() := Some(stream.id)])
    }

    /** Only the stream that runs in a slot can pause it. */
    function Paused(stream: Stream): State {
      var i := stream.slot.Index();
      if running[i] == Some(stream.id) then this.(running := running[i := None]) else this
    }

    function Released(stream: Stream): State {
      Paused(stream).Unprepared()
    }

    /** A session that did not start leaves; the engine is tried at the old rate if it is needed. */
    function RolledBack(previous: Option<SampleRate>, again: bool): State {
      var restored := if streams == 1 then None else previous;
      var s := this.(streams := streams - 1, rate := restored);
      if restored.Some? && prepared > 0 then s.EngineStarted(restored.value, again) else s
    }

    /** An engine that already runs at the session's rate is kept. */
    function Switched(previous: Option<SampleRate>, rate: SampleRate, ok: bool): State {
      if previous == Some(rate) && engine.Some? then this else this.(engine := None).EngineStarted(rate, ok)
    }

    function Entered(rate: SampleRate, ok: bool): State {
      this.(streams := streams + 1, rate := Some(rate)).Switched(this.rate, rate, ok)
    }

    function AsioStatus(rate: SampleRate, ok: bool): Status {
      if session.Some? then DeviceBusy
      else if Entered(rate, ok).engine.Some? then Success
      else if attached then EngineFailed
      else DeviceNotReady
    }

    /** A session takes over the rate. */
    function AsioStarted(owner: nat, rate: SampleRate, ok: bool, again: bool): State {
      var entered := Entered(rate, ok);
      if session.Some? then this
      else if entered.engine.Some? then entered.(prepared := prepared + 1, session := Some(owner))
      else entered.RolledBack(this.rate, again)
    }

    function AsioStopped(owner: nat): State {
      if session == Some(owner) then this.(session := None).Unprepared().Unclaimed() else this
    }

    function Resumed(ok: bool): State {
      if rate.Some? && prepared > 0 && engine.None? then EngineStarted(rate.value, ok) else this
    }
  }

  function Initial(): State {
    State(false, 0, None, 0, None, false, [None, None, None], None)
  }

  function Flag(b: bool): nat {
    if b then 1 else 0
  }

  /** The card has a rate exactly while someone uses it. */
  ghost predicate RateFits(s: State) {
    s.rate.None? <==> s.streams == 0
  }
}
