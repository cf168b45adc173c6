/** Who owns the card's clock and engine, each operation taken whole. */
module AudioControl {
  import RtStream
  import opened AudioState
  import opened CardRates
  import opened Sets
  import opened Wrappers

  class Audio {
    var attached: bool
    var streams: int
    var rate: Option<SampleRate>
    var prepared: nat
    var engine: Option<SampleRate>
    var running: Running
    var session: Option<nat>
    ghost var faulty: bool

    ghost function Now(): State
      reads this
    {
      State(attached, streams, rate, prepared, engine, faulty, running, session)
    }

    constructor ()
      ensures Now() == Initial()
    {
      attached, streams, rate, prepared, engine := false, 0, None, 0, None;
      running, session, faulty := [None, None, None], None, false;
    }

    method Attach()
      modifies this
      ensures Now() == old(Now()).(attached := true)
    {
      attached := true;
    }

    method ClaimRate(rate: SampleRate)
      modifies this
      ensures Now() == old(Now()).Claimed(rate)
    {
      if this.rate.None? {
        this.rate := Some(rate);
      }
      streams := streams + 1;
    }

    method ReleaseRate()
      modifies this
      ensures Now() == old(Now()).Unclaimed()
    {
      streams := streams - 1;
      if streams == 0 {
        rate := None;
      }
    }

    method StartEngine(rate: SampleRate, ok: bool) returns (status: Status)
      modifies this
      ensures Now() == old(Now()).EngineStarted(rate, ok)
      ensures status == if !attached then DeviceNotReady else if ok then Success else EngineFailed
      ensures if old(attached) && ok then engine == Some(rate) && !faulty else engine == old(engine) && faulty
    {
      faulty := true;
      if !attached {
        return DeviceNotReady;
      }
      if !ok {
        return EngineFailed;
      }
      engine := Some(rate);
      faulty := false;
      return Success;
    }

    method StopEngine()
      modifies this`engine
      ensures engine == None
    {
      if engine.Some? {
        engine := None;
      }
    }

    /** The stream starts over, whether or not the engine then runs for it. */
    method Prepare(stream: Stream, rt: RtStream.RtStream, ok: bool) returns (status: Status)
      requires rt.Valid()
      modifies this, rt.ring.cursor, rt.ring`captured, rt.ring`rendered, rt.resampler
      ensures rt.Renders() && rt.Captures() && rt.ring.cursor.frames == 0
      ensures Now() == old(Now()).Prepared(stream, ok)
      ensures status == Success <==> prepared == old(prepared) + 1
      ensures status != Success ==> prepared == old(prepared) && engine == old(engine) == None
    {
      rt.Reset();
      if engine.None? {
        status := StartEngine(this.rate.Or(stream.rate), ok);
        if status != Success {
          return;
        }
      }
      prepared := prepared + 1;
      status := Success;
    }

    method Unprepare()
      modifies this
      ensures Now() == old(Now()).Unprepared()
    {
      if prepared > 0 {
        prepared := prepared - 1;
      }
      if prepared == 0 {
        StopEngine();
      }
    }

    method Pause(stream: Stream)
      modifies this
      ensures Now() == old(Now()).Paused(stream)
    {
      var i := stream.slot.Index();
      if running[i] == Some(stream.id) {
        running := running[i := None];
      }
    }

    method Release(stream: Stream)
      modifies this
      ensures Now() == old(Now()).Released(stream)
    {
      Pause(stream);
      Unprepare();
    }

    method SwitchEngine(previous: Option<SampleRate>, rate: SampleRate, ok: bool) returns (status: Status)
      modifies this
      ensures Now() == old(Now()).Switched(previous, rate, ok)
      ensures status == if engine.Some? then Success else if attached then EngineFailed else DeviceNotReady
    {
      if previous != Some(rate) {
        StopEngine();
      }
      status := Success;
      if engine.None? {
        status := StartEngine(rate, ok);
      }
    }

    method RollBack(previous: Option<SampleRate>, again: bool)
      modifies this
      ensures Now() == old(Now()).RolledBack(previous, again)
    {
      streams := streams - 1;
      rate := if streams == 0 then None else previous;
      if rate.Some? && prepared > 0 {
        var _ := StartEngine(rate.value, again);
      }
    }

    method Enter(rate: SampleRate, ok: bool) returns (status: Status)
      modifies this
      ensures Now() == old(Now()).Entered(rate, ok)
      ensures status == if engine.Some? then Success else if attached then EngineFailed else DeviceNotReady
    {
      var previous := this.rate;
      streams, this.rate := streams + 1, Some(rate);
      status := SwitchEngine(previous, rate, ok);
    }

    /** Refused while there is a session; otherwise it joins, or is rolled back. */
    method StartAsio(owner: nat, rate: SampleRate, ok: bool, again: bool) returns (status: Status)
      modifies this
      ensures Now() == old(Now()).AsioStarted(owner, rate, ok, again)
      ensures status == old(Now()).AsioStatus(rate, ok)
    {
      if session.Some? {
        return DeviceBusy;
      }
      var previous := this.rate;
      status := Enter(rate, ok);
      if status != Success {
        RollBack(previous, again);
        return;
      }
      prepared := prepared + 1;
      session := Some(owner);
    }

    method StopAsio(owner: nat)
      modifies this
      ensures Now() == old(Now()).AsioStopped(owner)
    {
      if session != Some(owner) {
        return;
      }
      session := None;
      Unprepare();
      ReleaseRate();
    }

    method Suspend()
      modifies this
      ensures Now() == old(Now()).(engine := None)
    {
      StopEngine();
    }

    method Resume(ok: bool) returns (status: Status)
      modifies this
      ensures Now() == old(Now()).Resumed(ok)
      ensures status != Success <==> old(rate.Some? && prepared > 0 && engine.None?) && engine.None?
    {
      status := Success;
      if rate.Some? && prepared > 0 && engine.None? {
        status := StartEngine(rate.value, ok);
      }
    }

    method Run(stream: Stream)
      modifies this
      ensures Now() == old(Now()).Run(stream)
    {
      running := running[stream.slot.Index() := Some(stream.id)];
    }
  }

  // ------------------------------------------------------------ every run

  /**
   The driver's state, the streams that exist and are prepared, the session's
   rate, whether the device is in D0, and the rate that whoever set it last asked
   for: who came when there was no one, or started a session; none when all have left.
   */
  datatype World = World(
    audio: State,
    claimed: map<nat, Stream>,
    prepared: set<nat>,
    sessionRate: Option<SampleRate>,
    powered: bool,
    setter: Option<SampleRate>)

  datatype Step =
    | Attach
    | Create(stream: Stream)
    | Destroy(id: nat)
    | Prepare(id: nat, ok: bool)
    | Release(id: nat)
    | Run(id: nat)
    | Pause(id: nat)
    | StartAsio(owner: nat, rate: SampleRate, ok: bool, again: bool)
    | StopAsio(owner: nat)
    | Suspend
    | Resume(ok: bool)

  /** A stream claims the rate when it is made, is released only after it was prepared, and is destroyed after that. */
  predicate Enabled(w: World, step: Step) {
    match step
    case Create(stream) => stream.id !in w.claimed
    case Destroy(id) => id in w.claimed && id !in w.prepared
    case Prepare(id, _) => id in w.claimed && id !in w.prepared
    case Release(id) => id in w.claimed && id in w.prepared
    case Run(id) => id in w.claimed && id in w.prepared
    case Pause(id) => id in w.claimed
    case Suspend => w.powered
    case Resume(_) => !w.powered
    case _ => true
  }

  function AudioAfter(s: State, claimed: map<nat, Stream>, step: Step): State
    requires step.Prepare? || step.Release? || step.Run? || step.Pause? ==> step.id in claimed
  {
    match step
    case Attach => s.(attached := true)
    case Create(stream) => s.Claimed(stream.rate)
    case Destroy(id) => s.Unclaimed()
    case Prepare(id, ok) => s.Prepared(claimed[id], ok)
    case Release(id) => s.Released(claimed[id])
    case Run(id) => s.Run(claimed[id])
    case Pause(id) => s.Paused(claimed[id])
    case StartAsio(owner, rate, ok, again) => s.AsioStarted(owner, rate, ok, again)
    case StopAsio(owner) => s.AsioStopped(owner)
    case Suspend => s.(engine := None)
    case Resume(ok) => s.Resumed(ok)
  }

  function ClaimedAfter(claimed: map<nat, Stream>, step: Step): map<nat, Stream> {
    match step
    case Create(stream) => claimed[stream.id := stream]
    case Destroy(id) => claimed - {id}
    case _ => claimed
  }

  function PreparedAfter(prepared: set<nat>, step: Step, counted: bool): set<nat> {
    match step
    case Prepare(id, _) => if counted then prepared + {id} else prepared
    case Release(id) => prepared - {id}
    case _ => prepared
  }

  function SessionRateAfter(w: World, step: Step): Option<SampleRate> {
    match step
    case StartAsio(_, rate, ok, _) => if w.audio.AsioStatus(rate, ok) == Success then Some(rate) else w.sessionRate
    case StopAsio(owner) => if w.audio.session == Some(owner) then None else w.sessionRate
    case _ => w.sessionRate
  }

  function SetterAfter(w: World, step: Step): Option<SampleRate> {
    var session := w.audio.session;
    match step
    case Create(stream) => if w.claimed == map[] && session.None? then Some(stream.rate) else w.setter
    case Destroy(id) => if w.claimed.Keys == {id} && session.None? then None else w.setter
    case StartAsio(_, rate, ok, _) => if w.audio.AsioStatus(rate, ok) == Success then Some(rate) else w.setter
    case StopAsio(owner) => if w.claimed == map[] && session == Some(owner) then None else w.setter
    case _ => w.setter
  }

  function After(w: World, step: Step): World
    requires Enabled(w, step)
  {
    var s := AudioAfter(w.audio, w.claimed, step);
    World(s, ClaimedAfter(w.claimed, step), PreparedAfter(w.prepared, step, s.prepared > w.audio.prepared),
          SessionRateAfter(w, step), (w.powered && !step.Suspend?) || step.Resume?, SetterAfter(w, step))
  }

  function Begun(): World {
    World(Initial(), map[], {}, None, true, None)
  }

  ghost predicate StepAt(worlds: seq<World>, steps: seq<Step>, i: nat)
    requires i < |steps| < |worlds|
  {
    Enabled(worlds[i], steps[i]) && worlds[i + 1] == After(worlds[i], steps[i])
  }

  ghost predicate IsRun(worlds: seq<World>, steps: seq<Step>) {
    && |worlds| == |steps| + 1
    && worlds[0] == Begun()
    && (forall i | 0 <= i < |steps| :: StepAt(worlds, steps, i))
  }

  /** Every stream and the session are counted once. */
  ghost predicate Counted(w: World) {
    && w.audio.streams == |w.claimed| + Flag(w.audio.session.Some?)
    && w.audio.prepared == |w.prepared| + Flag(w.audio.session.Some?)
    && w.prepared <= w.claimed.Keys
    && |w.prepared| <= |w.claimed|
  }

  /** While there is a session the card runs at its rate. */
  ghost predicate SessionFits(s: State, sessionRate: Option<SampleRate>) {
    && (sessionRate.Some? <==> s.session.Some?)
    && (sessionRate.Some? ==> s.rate == sessionRate)
  }

  /** The engine runs at the card's rate and for someone, and in D0 does so unless its last start failed. */
  ghost predicate EngineFits(s: State, powered: bool) {
    && (s.engine.Some? ==> s.engine == s.rate && s.prepared > 0)
    && (powered && s.prepared > 0 && s.engine.None? ==> s.faulty)
  }

  ghost predicate SlotFits(w: World, slot: Slot) {
    var id := w.audio.running[slot.Index()];
    id.Some? ==> id.value in w.prepared && id.value in w.claimed && w.claimed[id.value].slot == slot
  }

  ghost predicate IdsFit(claimed: map<nat, Stream>) {
    forall id | id in claimed :: claimed[id].id == id
  }

  /** Only prepared streams run, each in its own slot. */
  ghost predicate RunningFits(w: World) {
    && IdsFit(w.claimed)
    && SlotFits(w, Output12) && SlotFits(w, Output34) && SlotFits(w, Input12)
  }

  ghost predicate Invariant(w: World) {
    && Counted(w)
    && RateFits(w.audio) && SessionFits(w.audio, w.sessionRate) && EngineFits(w.audio, w.powered)
    && RunningFits(w)
    && w.audio.rate == w.setter
  }

  lemma SizesAfter(m: map<nat, Stream>, s: set<nat>, id: nat, stream: Stream)
    ensures id !in m ==> |m[id := stream]| == |m| + 1
    ensures id in m ==> |m - {id}| == |m| - 1
    ensures id in m && id !in s && s <= m.Keys ==> |s| < |m|
    ensures s <= m.Keys ==> |s| <= |m|
  {
    assert m[id := stream].Keys == m.Keys + {id};
    assert (m - {id}).Keys == m.Keys - {id};
    if s <= m.Keys {
      SubsetIsSmaller(s, m.Keys);
      if id in m && id !in s {
        SubsetIsSmaller(s + {id}, m.Keys);
      }
    }
  }

  /** How many streams exist and are prepared after a step. */
  lemma StreamsAfter(w: World, step: Step, counted: bool)
    requires Enabled(w, step) && w.prepared <= w.claimed.Keys
    ensures var (claimed, prepared) := (ClaimedAfter(w.claimed, step), PreparedAfter(w.prepared, step, counted));
            && |claimed| == |w.claimed| + Flag(step.Create?) - Flag(step.Destroy?)
            && |prepared| == |w.prepared| + Flag(step.Prepare? && counted) - Flag(step.Release?)
            && prepared <= claimed.Keys
            && |prepared| <= |claimed|
  {
    var (claimed, prepared) := (ClaimedAfter(w.claimed, step), PreparedAfter(w.prepared, step, counted));
    match step {
      case Create(stream) => SizesAfter(w.claimed, w.prepared, stream.id, stream);
      case Destroy(id) => SizesAfter(w.claimed, w.prepared, id, w.claimed[id]);
      case _ =>
    }
    SubsetIsSmaller(prepared, claimed.Keys);
  }

  /** The card is used by one more or one fewer. */
  lemma UsersAfter(s: State, claimed: map<nat, Stream>, step: Step)
    requires step.Prepare? || step.Release? || step.Run? || step.Pause? ==> step.id in claimed
    ensures var t := AudioAfter(s, claimed, step);
            t.streams - Flag(t.session.Some?) == s.streams - Flag(s.session.Some?)
                + Flag(step.Create?) - Flag(step.Destroy?)
  {
  }

  /** The engine is needed by one more or one fewer: giving back never finds nothing to give back. */
  lemma NeedersAfter(s: State, claimed: map<nat, Stream>, step: Step)
    requires step.Prepare? || step.Release? || step.Run? || step.Pause? ==> step.id in claimed
    requires step.Release? || (step.StopAsio? && s.session.Some?) ==> s.prepared > 0
    ensures var t := AudioAfter(s, claimed, step);
            t.prepared - Flag(t.session.Some?)
              == s.prepared - Flag(s.session.Some?)
                  + Flag(step.Prepare? && t.prepared > s.prepared) - Flag(step.Release?)
  {
  }

  lemma CountedAfter(w: World, step: Step)
    requires Counted(w) && Enabled(w, step)
    ensures Counted(After(w, step))
  {
    StreamsAfter(w, step, AudioAfter(w.audio, w.claimed, step).prepared > w.audio.prepared);
    UsersAfter(w.audio, w.claimed, step);
    NeedersAfter(w.audio, w.claimed, step);
  }

  lemma RateFitsAfter(s: State, claimed: map<nat, Stream>, step: Step)
    requires step.Prepare? || step.Release? || step.Run? || step.Pause? ==> step.id in claimed
    requires RateFits(s) && s.streams >= 0 && AudioAfter(s, claimed, step).streams >= 0
    ensures RateFits(AudioAfter(s, claimed, step))
  {
  }

  lemma SessionFitsAfter(w: World, step: Step)
    requires Enabled(w, step) && SessionFits(w.audio, w.sessionRate)
    requires w.audio.streams >= 0 && (After(w, step).audio.session.Some? ==> After(w, step).audio.streams > 0)
    ensures SessionFits(After(w, step).audio, After(w, step).sessionRate)
  {
  }

  lemma EngineFitsAfter(s: State, claimed: map<nat, Stream>, step: Step, powered: bool)
    requires step.Prepare? || step.Release? || step.Run? || step.Pause? ==> step.id in claimed
    requires step.Resume? || EngineFits(s, powered)
    requires step.Resume? ==> EngineFits(s, false)
    requires s.rate.None? ==> s.streams == 0
    requires s.prepared <= s.streams && AudioAfter(s, claimed, step).prepared <= AudioAfter(s, claimed, step).streams
    ensures EngineFits(AudioAfter(s, claimed, step), (powered && !step.Suspend?) || step.Resume?)
  {
  }

  /** No stream is left exactly if there was one or none to begin with. */
  lemma SoleStream(claimed: map<nat, Stream>, id: nat)
    requires id in claimed
    ensures |claimed| == 1 <==> claimed.Keys == {id}
    ensures claimed != map[]
  {
    if |claimed| == 1 {
      SubsetIsSmaller({id}, claimed.Keys);
      assert claimed.Keys - {id} == {} by {
        assert |claimed.Keys - {id}| == |claimed.Keys| - 1;
      }
    }
  }

  lemma SetterAfterStep(w: World, step: Step)
    requires Enabled(w, step) && Counted(w) && RateFits(w.audio) && w.audio.rate == w.setter
    ensures After(w, step).audio.rate == SetterAfter(w, step)
  {
    if step.Destroy? {
      SoleStream(w.claimed, step.id);
    }
  }

  lemma IdsFitAfter(w: World, step: Step)
    requires IdsFit(w.claimed) && Enabled(w, step)
    ensures IdsFit(After(w, step).claimed)
  {
  }

  /** What a step makes of the slots. */
  function RunningAfter(s: State, claimed: map<nat, Stream>, step: Step): Running
    requires step.Prepare? || step.Release? || step.Run? || step.Pause? ==> step.id in claimed
  {
    match step
    case Release(id) => s.Paused(claimed[id]).running
    case Pause(id) => s.Paused(claimed[id]).running
    case Run(id) => s.Run(claimed[id]).running
    case _ => s.running
  }

  lemma OnlyStreamsMoveSlots(s: State, claimed: map<nat, Stream>, step: Step)
    requires step.Prepare? || step.Release? || step.Run? || step.Pause? ==> step.id in claimed
    ensures AudioAfter(s, claimed, step).running == RunningAfter(s, claimed, step)
  {
  }

  lemma SlotFitsAfter(w: World, step: Step, slot: Slot)
    requires IdsFit(w.claimed) && SlotFits(w, slot) && Enabled(w, step)
    ensures SlotFits(After(w, step), slot)
  {
    OnlyStreamsMoveSlots(w.audio, w.claimed, step);
  }

  lemma StepKeeps(w: World, step: Step)
    requires Invariant(w) && Enabled(w, step)
    ensures Invariant(After(w, step))
  {
    CountedAfter(w, step);
    RateFitsAfter(w.audio, w.claimed, step);
    SessionFitsAfter(w, step);
    EngineFitsAfter(w.audio, w.claimed, step, w.powered);
    SetterAfterStep(w, step);
    IdsFitAfter(w, step);
    SlotFitsAfter(w, step, Output12);
    SlotFitsAfter(w, step, Output34);
    SlotFitsAfter(w, step, Input12);
  }

  lemma {:induction false} RunsKeep(worlds: seq<World>, steps: seq<Step>, i: nat)
    requires IsRun(worlds, steps) && i < |worlds|
    ensures Invariant(worlds[i])
  {
    if i > 0 {
      RunsKeep(worlds, steps, i - 1);
      assert StepAt(worlds, steps, i - 1);
      StepKeeps(worlds[i - 1], steps[i - 1]);
    }
  }

  /**
   Once every stream is gone and there is no session, the card is free: no count,
   no rate, no engine, nothing runs.
   */
  lemma CardIsFree(worlds: seq<World>, steps: seq<Step>, i: nat)
    requires IsRun(worlds, steps) && i < |worlds|
    requires worlds[i].claimed == map[] && worlds[i].audio.session.None?
    ensures var s := worlds[i].audio;
            && s.streams == 0 && s.prepared == 0 && s.rate == None && s.engine == None
            && s.running == [None, None, None]
  {
    RunsKeep(worlds, steps, i);
    var s := worlds[i].audio;
    assert s.running[0] == s.running[Output12.Index()] && s.running[1] == s.running[Output34.Index()]
        && s.running[2] == s.running[Input12.Index()];
  }

  /** In D0 the engine runs exactly while it is needed, unless its last start failed. */
  lemma EngineRunsWhileNeeded(worlds: seq<World>, steps: seq<Step>, i: nat)
    requires IsRun(worlds, steps) && i < |worlds|
    requires worlds[i].powered && !worlds[i].audio.faulty
    ensures worlds[i].audio.engine.Some? <==> worlds[i].prepared != {} || worlds[i].audio.session.Some?
    ensures worlds[i].audio.engine.Some? ==> worlds[i].audio.engine == worlds[i].audio.rate
  {
    RunsKeep(worlds, steps, i);
  }

  /**
   A session that fails to start leaves the counts, the streams and the rate as
   they were. One that is refused leaves the engine, too; after any other failure
   it runs at the old rate again if someone needs it and it can be started, and is stopped if not.
   */
  lemma FailedStartRestores(worlds: seq<World>, steps: seq<Step>, i: nat)
    requires IsRun(worlds, steps) && i < |steps| && steps[i].StartAsio?
    requires worlds[i].audio.AsioStatus(steps[i].rate, steps[i].ok) != Success
    ensures var (s, t) := (worlds[i].audio, worlds[i + 1].audio);
            if s.session.Some? then t == s
            else
              && t == s.(engine := t.engine, faulty := t.faulty)
              && t.engine == (if s.prepared > 0 && s.attached && steps[i].again then s.rate else None)
  {
    RunsKeep(worlds, steps, i);
    assert StepAt(worlds, steps, i);
  }

  /** From any state at all, a failed start gives back the rate exactly if there was none without streams. */
  lemma RollbackRestoresRate(s: State, owner: nat, rate: SampleRate, ok: bool, again: bool)
    requires s.AsioStatus(rate, ok) == DeviceNotReady || s.AsioStatus(rate, ok) == EngineFailed
    ensures s.AsioStarted(owner, rate, ok, again).rate == s.rate <==> (s.streams == 0 ==> s.rate == None)
  {
  }

  /** A step that takes the rate from the card's users to a new one. */
  predicate ChangesRate(w: World, step: Step) {
    step.StartAsio? && w.audio.AsioStatus(step.rate, step.ok) == Success
  }

  lemma RateStays(s: State, claimed: map<nat, Stream>, step: Step)
    requires step.Prepare? || step.Release? || step.Run? || step.Pause? ==> step.id in claimed
    requires step.StartAsio? ==> s.AsioStatus(step.rate, step.ok) != Success
    requires RateFits(s) && s.streams > 0 && AudioAfter(s, claimed, step).streams > 0
    ensures AudioAfter(s, claimed, step).rate == s.rate
  {
  }

  /**
   In every run the card's rate is what its setter asked for: the first of its
   users to come, unless a session has started since; and none when all have left.
   */
  lemma RateIsItsSetters(worlds: seq<World>, steps: seq<Step>, i: nat)
    requires IsRun(worlds, steps) && i < |worlds|
    ensures worlds[i].audio.rate == worlds[i].setter
    ensures worlds[i].setter.None? <==> worlds[i].claimed == map[] && worlds[i].audio.session.None?
  {
    RunsKeep(worlds, steps, i);
  }

  /** Between sessions starting, and as long as anyone uses the card, its rate stays what the first user made it. */
  lemma {:induction false} RateIsSettled(worlds: seq<World>, steps: seq<Step>, i: nat, j: nat)
    requires IsRun(worlds, steps) && i <= j < |worlds|
    requires forall k | i <= k <= j :: worlds[k].audio.streams > 0
    requires forall k | i <= k < j :: !ChangesRate(worlds[k], steps[k])
    ensures worlds[j].audio.rate == worlds[i].audio.rate
  {
    if i < j {
      RateIsSettled(worlds, steps, i, j - 1);
      RunsKeep(worlds, steps, j - 1);
      assert StepAt(worlds, steps, j - 1);
      RateStays(worlds[j - 1].audio, worlds[j - 1].claimed, steps[j - 1]);
    }
  }

  /** Only its owner ends a session, and only from outside a session does one start. */
  lemma SessionEndsByOwner(w: World, step: Step)
    requires Enabled(w, step)
    ensures w.audio.session.Some? && After(w, step).audio.session != w.audio.session ==>
              step == StopAsio(w.audio.session.value) && After(w, step).audio.session.None?
    ensures step.StopAsio? && w.audio.session != Some(step.owner) ==> After(w, step) == w
  {
  }

  /** Exactly when a stream gets the engine that it is prepared for, and at which rate. */
  lemma PreparedExactlyWhen(s: State, stream: Stream, ok: bool)
    ensures var t := s.Prepared(stream, ok);
            && t.prepared == s.prepared + (if s.engine.Some? || (s.attached && ok) then 1 else 0)
            && (s.engine.None? && s.attached && ok ==>
                  t.engine == Some(if s.rate.Some? then s.rate.value else stream.rate))
  {
  }

  /** Exactly when a session starts, at which rate, and what it is told if not. */
  lemma SessionExactlyWhen(s: State, owner: nat, rate: SampleRate, ok: bool, again: bool)
    ensures var (t, kept) := (s.AsioStarted(owner, rate, ok, again), s.engine.Some? && s.rate == Some(rate));
            && (s.session.Some? ==> t == s && s.AsioStatus(rate, ok) == DeviceBusy)
            && (s.session.None? && (kept || (s.attached && ok)) ==>
                  && s.AsioStatus(rate, ok) == Success && t.session == Some(owner) && t.rate == Some(rate)
                  && t.engine == (if kept then s.engine else Some(rate)))
            && (s.session.None? && !kept && !(s.attached && ok) ==>
                  && t.session.None?
                  && s.AsioStatus(rate, ok) == if s.attached then EngineFailed else DeviceNotReady)
  {
  }

  /** The step takes stream `id` out of `slot`, or puts another one there. */
  predicate Displaces(w: World, step: Step, id: nat, slot: Slot) {
    || step == Pause(id) || step == Release(id)
    || (step.Run? && step.id in w.claimed && w.claimed[step.id].slot == slot)
  }

  lemma StaysInSlot(w: World, step: Step, id: nat, slot: Slot)
    requires Invariant(w) && Enabled(w, step) && !Displaces(w, step, id, slot)
    requires w.audio.running[slot.Index()] == Some(id)
    ensures After(w, step).audio.running[slot.Index()] == Some(id)
  {
    OnlyStreamsMoveSlots(w.audio, w.claimed, step);
    assert SlotFits(w, slot);
  }

  /** A stream that is set running goes on until it is paused or released, or another is set running in its slot. */
  lemma {:induction false} RunsUntilDisplaced(worlds: seq<World>, steps: seq<Step>, i: nat, j: nat, id: nat, slot: Slot)
    requires IsRun(worlds, steps) && i < j < |worlds| && steps[i] == Run(id)
    requires id in worlds[i].claimed && worlds[i].claimed[id].slot == slot
    requires forall k | i < k < j :: !Displaces(worlds[k], steps[k], id, slot)
    ensures worlds[j].audio.running[slot.Index()] == Some(id)
  {
    assert StepAt(worlds, steps, j - 1);
    if j == i + 1 {
      RunsKeep(worlds, steps, i);
    } else {
      RunsUntilDisplaced(worlds, steps, i, j - 1, id, slot);
      RunsKeep(worlds, steps, j - 1);
      StaysInSlot(worlds[j - 1], steps[j - 1], id, slot);
    }
  }

  lemma SlotWithout(s: State, claimed: map<nat, Stream>, step: Step, id: nat, slot: Slot)
    requires step.Prepare? || step.Release? || step.Run? || step.Pause? ==> step.id in claimed
    requires IdsFit(claimed)
    requires s.running[slot.Index()] == Some(id) ==>
               step in {Pause(id), Release(id)} && id in claimed && claimed[id].slot == slot
    requires step != Run(id)
    ensures RunningAfter(s, claimed, step)[slot.Index()] != Some(id)
  {
  }

  lemma StaysOut(w: World, step: Step, id: nat, slot: Slot)
    requires Invariant(w) && Enabled(w, step)
    requires step == Pause(id) || step == Release(id) || (step != Run(id) && w.audio.running[slot.Index()] != Some(id))
    ensures After(w, step).audio.running[slot.Index()] != Some(id)
  {
    assert SlotFits(w, slot);
    OnlyStreamsMoveSlots(w.audio, w.claimed, step);
    SlotWithout(w.audio, w.claimed, step, id, slot);
  }

  /** And one that has been paused or released is in no slot until it is set running again. */
  lemma {:induction false} StopsUntilRun(worlds: seq<World>, steps: seq<Step>, i: nat, j: nat, id: nat, slot: Slot)
    requires IsRun(worlds, steps) && i < j < |worlds| && (steps[i] == Pause(id) || steps[i] == Release(id))
    requires forall k | i < k < j :: steps[k] != Run(id)
    ensures worlds[j].audio.running[slot.Index()] != Some(id)
  {
    assert StepAt(worlds, steps, j - 1);
    RunsKeep(worlds, steps, j - 1);
    if j > i + 1 {
      StopsUntilRun(worlds, steps, i, j - 1, id, slot);
    }
    StaysOut(worlds[j - 1], steps[j - 1], id, slot);
  }
}
