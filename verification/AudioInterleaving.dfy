/**
 The same operations one lock section at a time, in every interleaving of
 threads. The control lock lets one thread at a time at the engine; the audio
 lock makes single sections of what streams and sessions share; a stream that
 is made or destroyed takes only the latter.
 */
module AudioInterleaving {
  import opened AudioState
  import opened CardRates
  import opened Sets
  import opened Wrappers

  /** Where the thread that has the control lock is: what its next section does. */
  datatype Phase =
    | Preparing(id: nat, own: SampleRate)
    | PrepareStarting(id: nat, rate: SampleRate)
    | PrepareCounting(id: nat)
    | Releasing(id: nat)
    | AsioChecking(owner: nat, rate: SampleRate)
    | AsioEntering(owner: nat, rate: SampleRate)
    | AsioSwitching(owner: nat, rate: SampleRate, previous: Option<SampleRate>)
    | AsioRollingBack(rate: SampleRate, previous: Option<SampleRate>)
    | AsioRestarting(rate: SampleRate)
    | AsioCounting(owner: nat, rate: SampleRate)
    | AsioAdmitting(owner: nat, rate: SampleRate)
    | AsioTaking(owner: nat)
    | AsioReturning(owner: nat)
    | AsioLeaving(owner: nat)
    | Suspending
    | ResumeReading
    | ResumeStarting(rate: SampleRate)

  /** What a section leaves, and where its thread goes on; it gives up the control lock where there is no more to do. */
  datatype Outcome = Outcome(audio: State, next: Option<Phase>)

  function Advance(s: State, phase: Phase, ok: bool): Outcome {
    match phase
    case Preparing(id, own) =>
      Outcome(s, Some(if s.engine.Some? then PrepareCounting(id) else PrepareStarting(id, s.rate.Or(own))))
    case PrepareStarting(id, rate) =>
      var t := s.EngineStarted(rate, ok);
      Outcome(t, if t.engine.Some? then Some(PrepareCounting(id)) else None)
    case PrepareCounting(_) => Outcome(s.(prepared := s.prepared + 1), None)
    case Releasing(_) => Outcome(s.Unprepared(), None)
    case AsioChecking(owner, rate) => Outcome(s, if s.session.Some? then None else Some(AsioEntering(owner, rate)))
    case AsioEntering(owner, rate) =>
      Outcome(s.(streams := s.streams + 1, rate := Some(rate)), Some(AsioSwitching(owner, rate, s.rate)))
    case AsioSwitching(owner, rate, previous) =>
      var t := s.Switched(previous, rate, ok);
      Outcome(t, Some(if t.engine.Some? then AsioCounting(owner, rate) else AsioRollingBack(rate, previous)))
    case AsioRollingBack(_, previous) =>
      var restored := if s.streams == 1 then None else previous;
      Outcome(s.(streams := s.streams - 1, rate := restored),
              if restored.Some? && s.prepared > 0 then Some(AsioRestarting(restored.value)) else None)
    case AsioRestarting(rate) => Outcome(s.EngineStarted(rate, ok), None)
    case AsioCounting(owner, rate) => Outcome(s.(prepared := s.prepared + 1), Some(AsioAdmitting(owner, rate)))
    case AsioAdmitting(owner, _) => Outcome(s.(session := Some(owner)), None)
    case AsioTaking(owner) =>
      if s.session == Some(owner) then Outcome(s.(session := None), Some(AsioReturning(owner))) else Outcome(s, None)
    case AsioReturning(owner) => Outcome(s.Unprepared(), Some(AsioLeaving(owner)))
    case AsioLeaving(_) => Outcome(s.Unclaimed(), None)
    case Suspending => Outcome(s.(engine := None), None)
    case ResumeReading =>
      Outcome(s, if s.rate.Some? && s.prepared > 0 && s.engine.None? then Some(ResumeStarting(s.rate.value)) else None)
    case ResumeStarting(rate) => Outcome(s.EngineStarted(rate, ok), None)
  }

  // ------------------------------------------------- calls that nothing interrupts

  function Rank(phase: Phase): nat {
    match phase
    case Preparing(_, _) => 2
    case PrepareStarting(_, _) => 1
    case AsioChecking(_, _) => 4
    case AsioEntering(_, _) => 3
    case AsioSwitching(_, _, _) => 2
    case AsioRollingBack(_, _) => 1
    case AsioCounting(_, _) => 1
    case AsioTaking(_) => 2
    case AsioReturning(_) => 1
    case ResumeReading => 1
    case _ => 0
  }

  lemma AdvanceDescends(s: State, phase: Phase, ok: bool)
    ensures var next := Advance(s, phase, ok).next; next.Some? ==> Rank(next.value) < Rank(phase)
  {
  }

  /** The sections from `phase` to the end of the call, one right after the other; `again` is for a second start. */
  function Completed(s: State, phase: Phase, ok: bool, again: bool): State
    decreases Rank(phase)
  {
    var answer := if phase.AsioRestarting? then again else ok;
    var o := Advance(s, phase, answer);
    AdvanceDescends(s, phase, answer);
    if o.next.None? then o.audio else Completed(o.audio, o.next.value, ok, again)
  }

  lemma CountingIsWhole(s: State, owner: nat, rate: SampleRate, ok: bool, again: bool)
    ensures Completed(s, AsioCounting(owner, rate), ok, again) == s.(prepared := s.prepared + 1, session := Some(owner))
  {
    assert Completed(s, AsioCounting(owner, rate), ok, again)
        == Completed(s.(prepared := s.prepared + 1), AsioAdmitting(owner, rate), ok, again);
  }

  lemma RollBackIsWhole(s: State, rate: SampleRate, previous: Option<SampleRate>, ok: bool, again: bool)
    ensures Completed(s, AsioRollingBack(rate, previous), ok, again) == s.RolledBack(previous, again)
  {
    var rolled := Advance(s, AsioRollingBack(rate, previous), ok);
    if rolled.next.Some? {
      assert Completed(rolled.audio, rolled.next.value, ok, again)
          == rolled.audio.EngineStarted(rolled.next.value.rate, again);
    }
  }

  lemma EntryIsWhole(s: State, owner: nat, rate: SampleRate, ok: bool, again: bool)
    requires s.session.None?
    ensures var entered := s.Entered(rate, ok);
            Completed(s, AsioChecking(owner, rate), ok, again)
              == if entered.engine.Some? then Completed(entered, AsioCounting(owner, rate), ok, again)
                 else Completed(entered, AsioRollingBack(rate, s.rate), ok, again)
  {
    var joined := s.(streams := s.streams + 1, rate := Some(rate));
    assert Completed(s, AsioChecking(owner, rate), ok, again) == Completed(s, AsioEntering(owner, rate), ok, again);
    assert Completed(s, AsioEntering(owner, rate), ok, again)
        == Completed(joined, AsioSwitching(owner, rate, s.rate), ok, again);
  }

  /** A session start that nothing interrupts is the operation taken whole. */
  lemma StartIsWhole(s: State, owner: nat, rate: SampleRate, ok: bool, again: bool)
    ensures Completed(s, AsioChecking(owner, rate), ok, again) == s.AsioStarted(owner, rate, ok, again)
  {
    if s.session.None? {
      var entered := s.Entered(rate, ok);
      EntryIsWhole(s, owner, rate, ok, again);
      CountingIsWhole(entered, owner, rate, ok, again);
      RollBackIsWhole(entered, rate, s.rate, ok, again);
    }
  }

  lemma StopIsWhole(s: State, owner: nat, ok: bool, again: bool)
    ensures Completed(s, AsioTaking(owner), ok, again) == s.AsioStopped(owner)
  {
    if s.session == Some(owner) {
      var taken := s.(session := None);
      assert Completed(s, AsioTaking(owner), ok, again) == Completed(taken, AsioReturning(owner), ok, again);
      assert Completed(taken, AsioReturning(owner), ok, again)
          == Completed(taken.Unprepared(), AsioLeaving(owner), ok, again);
    }
  }

  lemma PrepareIsWhole(s: State, stream: Stream, ok: bool, again: bool)
    ensures Completed(s, Preparing(stream.id, stream.rate), ok, again) == s.Prepared(stream, ok)
  {
    if s.engine.None? {
      var rate := s.rate.Or(stream.rate);
      assert Completed(s, Preparing(stream.id, stream.rate), ok, again)
          == Completed(s, PrepareStarting(stream.id, rate), ok, again);
      var started := s.EngineStarted(rate, ok);
      if started.engine.Some? {
        assert Completed(s, PrepareStarting(stream.id, rate), ok, again)
            == Completed(started, PrepareCounting(stream.id), ok, again);
      }
    }
  }

  /** The stream leaves its slot before the control lock is taken. */
  lemma ReleaseIsWhole(s: State, stream: Stream, ok: bool, again: bool)
    ensures Completed(s.Paused(stream), Releasing(stream.id), ok, again) == s.Released(stream)
  {
  }

  lemma PowerIsWhole(s: State, ok: bool, again: bool)
    ensures Completed(s, Suspending, ok, again) == s.(engine := None)
    ensures Completed(s, ResumeReading, ok, again) == s.Resumed(ok)
  {
  }

  datatype Event = Opened(owner: nat) | Closed(owner: nat)

  /**
   The driver's state, the thread that has the control lock, the streams that
   exist, are prepared, and are being prepared or released, and the owners
   whose stop has passed its first check. `log` is the sessions so far; `clean`
   says no failed start has put back a missing rate while a stream had come.
   `setter` is the rate that whoever set it last asked for: the stream that came
   when there was no one, or the last session to open; none when all have left.
   */
  datatype World = World(
    audio: State,
    inside: Option<Phase>,
    claimed: set<nat>,
    prepared: set<nat>,
    preparing: set<nat>,
    releasing: set<nat>,
    stopping: multiset<nat>,
    log: seq<Event>,
    clean: bool,
    setter: Option<SampleRate>)

  datatype Step =
    | Create(id: nat, rate: SampleRate)
    | Destroy(id: nat)
    | BeginPrepare(id: nat)
    | BeginRelease(id: nat)
    | BeginStop(owner: nat)
    | Enter(phase: Phase)
    | Proceed(ok: bool)

  /** Sessions start, and the device changes power, at any time. */
  predicate MayEnter(w: World, phase: Phase) {
    match phase
    case Preparing(id, _) => id in w.preparing
    case Releasing(id) => id in w.releasing
    case AsioChecking(_, _) => true
    case AsioTaking(owner) => owner in w.stopping
    case Suspending => true
    case ResumeReading => true
    case _ => false
  }

  /** One call at a time for each stream: it is made, prepared, released, destroyed. */
  predicate Enabled(w: World, step: Step) {
    match step
    case Create(id, _) => id !in w.claimed
    case Destroy(id) => id in w.claimed && id !in w.prepared && id !in w.preparing
    case BeginPrepare(id) => id in w.claimed && id !in w.prepared && id !in w.preparing
    case BeginRelease(id) => id in w.prepared && id !in w.releasing
    case BeginStop(_) => true
    case Enter(phase) => w.inside.None? && MayEnter(w, phase)
    case Proceed(_) => w.inside.Some?
  }

  /** A failed start puts back that there was no rate, though a stream has claimed one meanwhile. */
  predicate LosesRate(s: State, phase: Phase) {
    phase.AsioRollingBack? && phase.previous.None? && s.streams > 1
  }

  predicate LosesRateAt(w: World, step: Step) {
    step.Proceed? && w.inside.Some? && LosesRate(w.audio, w.inside.value)
  }

  function Logged(log: seq<Event>, phase: Phase): seq<Event> {
    match phase
    case AsioAdmitting(owner, _) => log + [Opened(owner)]
    case AsioLeaving(owner) => log + [Closed(owner)]
    case _ => log
  }

  function PreparedAfter(prepared: set<nat>, phase: Phase): set<nat> {
    match phase
    case PrepareCounting(id) => prepared + {id}
    case Releasing(id) => prepared - {id}
    case _ => prepared
  }

  /** The stream's call returns with the control lock. */
  function PreparingAfter(preparing: set<nat>, phase: Phase, next: Option<Phase>): set<nat> {
    match phase
    case PrepareStarting(id, _) => if next.None? then preparing - {id} else preparing
    case PrepareCounting(id) => preparing - {id}
    case _ => preparing
  }

  function ReleasingAfter(releasing: set<nat>, phase: Phase): set<nat> {
    match phase
    case Releasing(id) => releasing - {id}
    case _ => releasing
  }

  /** A session that has joined the streams' count but is not the session, or no longer. */
  function Joined(inside: Option<Phase>): nat {
    if inside.None? then 0
    else
      match inside.value
      case AsioSwitching(_, _, _) => 1
      case AsioRollingBack(_, _) => 1
      case AsioCounting(_, _) => 1
      case AsioAdmitting(_, _) => 1
      case AsioReturning(_) => 1
      case AsioLeaving(_) => 1
      case _ => 0
  }

  /** No session has joined the users, and none has yet to leave them. */
  predicate NoSession(w: World) {
    w.audio.session.None? && Joined(w.inside) == 0
  }

  function SetterAfter(w: World, phase: Phase): Option<SampleRate> {
    match phase
    case AsioAdmitting(_, rate) => Some(rate)
    case AsioRollingBack(_, _) => if w.claimed == {} then None else w.setter
    case AsioLeaving(_) => if w.claimed == {} then None else w.setter
    case _ => w.setter
  }

  function Proceeded(w: World, phase: Phase, ok: bool): World {
    var o := Advance(w.audio, phase, ok);
    World(o.audio, o.next, w.claimed, PreparedAfter(w.prepared, phase), PreparingAfter(w.preparing, phase, o.next),
          ReleasingAfter(w.releasing, phase), w.stopping, Logged(w.log, phase), w.clean && !LosesRate(w.audio, phase),
          SetterAfter(w, phase))
  }

  function After(w: World, step: Step): World
    requires Enabled(w, step)
  {
    match step
    case Create(id, rate) =>
      w.(audio := w.audio.Claimed(rate), claimed := w.claimed + {id},
         setter := if w.claimed == {} && NoSession(w) then Some(rate) else w.setter)
    case Destroy(id) =>
      w.(audio := w.audio.Unclaimed(), claimed := w.claimed - {id},
         setter := if w.claimed == {id} && NoSession(w) then None else w.setter)
    case BeginPrepare(id) => w.(preparing := w.preparing + {id})
    case BeginRelease(id) => w.(releasing := w.releasing + {id})
    // The first check takes only the audio lock.
    case BeginStop(owner) =>
      if w.audio.session == Some(owner) then w.(stopping := w.stopping + multiset{owner}) else w
    case Enter(phase) =>
      w.(inside := Some(phase),
         stopping := if phase.AsioTaking? then w.stopping - multiset{phase.owner} else w.stopping)
    case Proceed(ok) => Proceeded(w, w.inside.value, ok)
  }

  function Begun(attached: bool): World {
    World(Initial().(attached := attached), None, {}, {}, {}, {}, multiset{}, [], true, None)
  }

  ghost predicate StepAt(worlds: seq<World>, steps: seq<Step>, i: nat)
    requires i < |steps| < |worlds|
  {
    Enabled(worlds[i], steps[i]) && worlds[i + 1] == After(worlds[i], steps[i])
  }

  ghost predicate IsRun(worlds: seq<World>, steps: seq<Step>) {
    && |worlds| == |steps| + 1
    && worlds[0] == Begun(worlds[0].audio.attached)
    && (forall i | 0 <= i < |steps| :: StepAt(worlds, steps, i))
  }

  // ------------------------------------------------------------- whole calls

  /** The thread with the control lock goes on to the end of its call, with no other step between. */
  function Finished(w: World, ok: bool, again: bool): World
    requires w.inside.Some?
    decreases Rank(w.inside.value)
  {
    var phase := w.inside.value;
    var answer := if phase.AsioRestarting? then again else ok;
    AdvanceDescends(w.audio, phase, answer);
    var next := Proceeded(w, phase, answer);
    if next.inside.None? then next else Finished(next, ok, again)
  }

  /** Every call comes to its end, which is where its sections lead. */
  lemma {:induction false} CallEnds(w: World, ok: bool, again: bool)
    requires w.inside.Some?
    ensures var t := Finished(w, ok, again);
            && t.inside.None? && t.claimed == w.claimed && t.stopping == w.stopping
            && t.audio == Completed(w.audio, w.inside.value, ok, again)
    decreases Rank(w.inside.value)
  {
    var phase := w.inside.value;
    var answer := if phase.AsioRestarting? then again else ok;
    AdvanceDescends(w.audio, phase, answer);
    if Proceeded(w, phase, answer).inside.Some? {
      CallEnds(Proceeded(w, phase, answer), ok, again);
    }
  }

  /** A start that cannot fail any more is logged. */
  lemma StartIsLogged(w: World, owner: nat, rate: SampleRate, ok: bool, again: bool)
    requires w.inside == Some(AsioCounting(owner, rate))
    ensures Finished(w, ok, again).log == w.log + [Opened(owner)] && Finished(w, ok, again).setter == Some(rate)
  {
    var admitting := Proceeded(w, AsioCounting(owner, rate), ok);
    assert Finished(w, ok, again) == Finished(admitting, ok, again);
  }

  /** One that has failed is not. */
  lemma FailureIsNotLogged(w: World, ok: bool, again: bool)
    requires w.inside.Some? && w.inside.value.AsioRollingBack?
    ensures Finished(w, ok, again).log == w.log
    ensures w.claimed != {} ==> Finished(w, ok, again).setter == w.setter
  {
    var rolled := Proceeded(w, w.inside.value, ok);
    if rolled.inside.Some? {
      assert Finished(w, ok, again) == Finished(rolled, ok, again);
    }
  }

  lemma StopIsLogged(w: World, owner: nat, ok: bool, again: bool)
    requires w.inside == Some(AsioTaking(owner)) && w.audio.session == Some(owner)
    ensures Finished(w, ok, again).log == w.log + [Closed(owner)]
  {
    var returning := Proceeded(w, AsioTaking(owner), ok);
    assert Finished(w, ok, again) == Finished(returning, ok, again);
    var leaving := Proceeded(returning, AsioReturning(owner), ok);
    assert Finished(returning, ok, again) == Finished(leaving, ok, again);
  }

  /** A session that is started when the control lock is free opens exactly if the start succeeds. */
  lemma StartGoesThrough(w: World, owner: nat, rate: SampleRate, ok: bool, again: bool)
    requires w.inside.None?
    ensures Enabled(w, Enter(AsioChecking(owner, rate)))
    ensures var (t, status) := (Finished(After(w, Enter(AsioChecking(owner, rate))), ok, again),
                                w.audio.AsioStatus(rate, ok));
            && t.audio == w.audio.AsioStarted(owner, rate, ok, again)
            && t.log == (if status == Success then w.log + [Opened(owner)] else w.log)
            && (status == Success ==> t.setter == Some(rate))
            && (status != Success && w.claimed != {} ==> t.setter == w.setter)
  {
    var entered := After(w, Enter(AsioChecking(owner, rate)));
    CallEnds(entered, ok, again);
    StartIsWhole(w.audio, owner, rate, ok, again);
    if w.audio.session.None? {
      var joining := Proceeded(entered, AsioChecking(owner, rate), ok);
      assert Finished(entered, ok, again) == Finished(joining, ok, again);
      var switching := Proceeded(joining, AsioEntering(owner, rate), ok);
      assert Finished(joining, ok, again) == Finished(switching, ok, again);
      var switched := Proceeded(switching, switching.inside.value, ok);
      assert Finished(switching, ok, again) == Finished(switched, ok, again);
      if switched.inside.value.AsioCounting? {
        StartIsLogged(switched, owner, rate, ok, again);
      } else {
        FailureIsNotLogged(switched, ok, again);
      }
    }
  }

  /** A stop by the session's owner gets in when the control lock is free, ends the session and leaves no trace. */
  lemma OwnersStop(w: World, owner: nat, ok: bool, again: bool)
    requires w.inside.None? && w.audio.session == Some(owner)
    ensures var begun := After(w, BeginStop(owner));
            && Enabled(begun, Enter(AsioTaking(owner)))
            && var t := Finished(After(begun, Enter(AsioTaking(owner))), ok, again);
               && t.audio == w.audio.AsioStopped(owner) && t.audio.session.None?
               && t.log == w.log + [Closed(owner)] && t.stopping == w.stopping
  {
    var entered := After(After(w, BeginStop(owner)), Enter(AsioTaking(owner)));
    assert entered.stopping == w.stopping;
    CallEnds(entered, ok, again);
    StopIsWhole(w.audio, owner, ok, again);
    StopIsLogged(entered, owner, ok, again);
  }

  /** A stream that is prepared when the control lock is free is prepared then exactly if it is counted. */
  lemma PrepareGoesThrough(w: World, stream: Stream, ok: bool, again: bool)
    requires w.inside.None? && Enabled(w, BeginPrepare(stream.id))
    ensures var begun := After(w, BeginPrepare(stream.id));
            && Enabled(begun, Enter(Preparing(stream.id, stream.rate)))
            && var t := Finished(After(begun, Enter(Preparing(stream.id, stream.rate))), ok, again);
               && t.audio == w.audio.Prepared(stream, ok) && t.preparing == w.preparing
               && (stream.id in t.prepared <==> t.audio.prepared == w.audio.prepared + 1)
  {
    var entered := After(After(w, BeginPrepare(stream.id)), Enter(Preparing(stream.id, stream.rate)));
    CallEnds(entered, ok, again);
    PrepareIsWhole(w.audio, stream, ok, again);
    var next := Proceeded(entered, entered.inside.value, ok);
    assert Finished(entered, ok, again) == Finished(next, ok, again);
    if next.inside.value.PrepareStarting? {
      var started := Proceeded(next, next.inside.value, ok);
      assert started.inside.Some? ==> Finished(next, ok, again) == Finished(started, ok, again);
    }
  }

  lemma ReleaseGoesThrough(w: World, id: nat, ok: bool, again: bool)
    requires w.inside.None? && Enabled(w, BeginRelease(id))
    ensures var begun := After(w, BeginRelease(id));
            && Enabled(begun, Enter(Releasing(id)))
            && var t := Finished(After(begun, Enter(Releasing(id))), ok, again);
               t.audio == w.audio.Unprepared() && t.prepared == w.prepared - {id} && t.releasing == w.releasing
  {
    var entered := After(After(w, BeginRelease(id)), Enter(Releasing(id)));
    assert Finished(entered, ok, again) == Proceeded(entered, Releasing(id), ok);
  }

  // ------------------------------------------------------------- the streams

  /** Each stream has at most one call under way, and only for what it is ready for. */
  ghost predicate Disciplined(w: World) {
    && w.prepared <= w.claimed && w.preparing <= w.claimed
    && w.preparing !! w.prepared && w.releasing <= w.prepared
    && (w.inside.Some? ==>
          match w.inside.value
          case Preparing(id, _) => id in w.preparing
          case PrepareStarting(id, _) => id in w.preparing
          case PrepareCounting(id) => id in w.preparing
          case Releasing(id) => id in w.releasing
          case _ => true)
  }

  lemma DisciplineKept(w: World, step: Step)
    requires Disciplined(w) && Enabled(w, step)
    ensures Disciplined(After(w, step))
  {
  }

  // -------------------------------------------------------------- the counts

  /** And one that the engine is counted to run for. */
  function Needing(inside: Option<Phase>): nat {
    if inside.Some? && (inside.value.AsioAdmitting? || inside.value.AsioReturning?) then 1 else 0
  }

  /** While one session comes or goes there is no other. */
  ghost predicate Alone(s: State, inside: Option<Phase>) {
    inside.Some? && (inside.value.AsioEntering? || inside.value.AsioRestarting? || Joined(inside) == 1) ==>
      s.session.None?
  }

  /** Everyone who uses the card is counted once; `streams` and `prepared` are how many exist and are prepared. */
  ghost predicate Counted(s: State, inside: Option<Phase>, streams: int, prepared: int) {
    && s.streams == streams + Flag(s.session.Some?) + Joined(inside)
    && s.prepared == prepared + Flag(s.session.Some?) + Needing(inside)
    && Alone(s, inside)
  }

  lemma AdvanceCounts(s: State, phase: Phase, ok: bool, streams: int, prepared: int)
    requires Counted(s, Some(phase), streams, prepared)
    requires prepared >= if phase.Releasing? then 1 else 0
    ensures var o := Advance(s, phase, ok);
            Counted(o.audio, o.next, streams, prepared + Flag(phase.PrepareCounting?) - Flag(phase.Releasing?))
  {
  }

  lemma CountsKept(w: World, step: Step)
    requires Disciplined(w) && Counted(w.audio, w.inside, |w.claimed|, |w.prepared|) && Enabled(w, step)
    ensures var t := After(w, step); Counted(t.audio, t.inside, |t.claimed|, |t.prepared|)
  {
    if step.Proceed? {
      AdvanceCounts(w.audio, w.inside.value, step.ok, |w.claimed|, |w.prepared|);
    }
  }

  // --------------------------------------------------------------- the clock

  /** The engine that a section starts does not run, and is still needed where it was. */
  ghost predicate StartFits(s: State, phase: Phase) {
    match phase
    case PrepareStarting(_, _) => s.engine.None?
    case AsioRollingBack(_, _) => s.engine.None?
    case AsioRestarting(_) => s.engine.None? && s.prepared > 0
    case ResumeStarting(_) => s.engine.None? && s.prepared > 0
    case _ => true
  }

  /** A running engine is needed: by someone it is counted to run for, or by who is about to be counted. */
  ghost predicate Needed(s: State, inside: Option<Phase>) {
    && (s.engine.Some? ==>
          s.prepared > 0 || (inside.Some? && (inside.value.PrepareCounting? || inside.value.AsioCounting?)))
    && (inside.Some? ==> StartFits(s, inside.value))
  }

  lemma AdvanceKeepsNeed(s: State, phase: Phase, ok: bool)
    requires Needed(s, Some(phase))
    ensures var o := Advance(s, phase, ok); Needed(o.audio, o.next)
  {
  }

  lemma NeedKept(w: World, step: Step)
    requires Needed(w.audio, w.inside) && Enabled(w, step)
    ensures Needed(After(w, step).audio, After(w, step).inside)
  {
    if step.Proceed? {
      AdvanceKeepsNeed(w.audio, w.inside.value, step.ok);
    }
  }

  /** The rate a section counts on finding. */
  ghost predicate PhaseFits(s: State, phase: Phase) {
    match phase
    case PrepareStarting(_, rate) => s.rate == Some(rate)
    case AsioSwitching(_, rate, _) => s.rate == Some(rate)
    case AsioRollingBack(rate, _) => s.rate == Some(rate)
    case AsioRestarting(rate) => s.rate == Some(rate)
    case AsioCounting(_, rate) => s.rate == Some(rate)
    case AsioAdmitting(_, rate) => s.rate == Some(rate)
    case ResumeStarting(rate) => s.rate == Some(rate)
    case _ => true
  }

  /** The rate the engine may run at: the card's, or until it is switched the one before a session's. */
  ghost predicate EngineFits(s: State, inside: Option<Phase>) {
    s.engine.Some? ==>
      s.engine == if inside.Some? && inside.value.AsioSwitching? then inside.value.previous else s.rate
  }

  ghost predicate ClockFits(s: State, inside: Option<Phase>) {
    RateFits(s) && EngineFits(s, inside) && (inside.Some? ==> PhaseFits(s, inside.value))
  }

  /** The stream whose call has the control lock exists. */
  predicate Subject(phase: Phase) {
    phase.Preparing? || phase.PrepareStarting? || phase.PrepareCounting?
  }

  lemma AdvanceKeepsClock(s: State, phase: Phase, ok: bool, streams: nat, prepared: nat)
    requires ClockFits(s, Some(phase)) && Needed(s, Some(phase)) && Counted(s, Some(phase), streams, prepared)
    requires prepared <= streams && (Subject(phase) ==> streams > 0)
    requires !LosesRate(s, phase)
    ensures var o := Advance(s, phase, ok); ClockFits(o.audio, o.next)
  {
  }

  lemma CreateKeepsClock(s: State, inside: Option<Phase>, rate: SampleRate)
    requires ClockFits(s, inside) && s.streams >= 0
    ensures ClockFits(s.Claimed(rate), inside)
  {
  }

  /** When the last user of the card goes, the engine has stopped. */
  lemma DestroyKeepsClock(s: State, inside: Option<Phase>, streams: nat, prepared: nat)
    requires ClockFits(s, inside) && Needed(s, inside) && Counted(s, inside, streams, prepared)
    requires prepared < streams && (inside.Some? && Subject(inside.value) ==> streams > 1)
    ensures ClockFits(s.Unclaimed(), inside)
  {
  }

  lemma EnterKeepsClock(w: World, phase: Phase)
    requires ClockFits(w.audio, None) && MayEnter(w, phase)
    ensures ClockFits(w.audio, Some(phase))
  {
  }

  /** Room for those who stay when a stream is destroyed. */
  lemma OthersRemain(w: World, id: nat)
    requires Disciplined(w) && Enabled(w, Destroy(id))
    ensures |w.prepared| < |w.claimed|
    ensures w.inside.Some? && Subject(w.inside.value) ==> |w.claimed| > 1
  {
    SubsetIsSmaller(w.prepared + {id}, w.claimed);
    if w.inside.Some? && Subject(w.inside.value) {
      SubsetIsSmaller({id, w.inside.value.id}, w.claimed);
    }
  }

  lemma ClockKept(w: World, step: Step)
    requires Disciplined(w) && Counted(w.audio, w.inside, |w.claimed|, |w.prepared|) && Enabled(w, step)
    requires ClockFits(w.audio, w.inside) && Needed(w.audio, w.inside)
    requires step.Proceed? ==> !LosesRate(w.audio, w.inside.value)
    ensures ClockFits(After(w, step).audio, After(w, step).inside)
  {
    match step
    case Create(_, rate) => CreateKeepsClock(w.audio, w.inside, rate);
    case Destroy(id) =>
      OthersRemain(w, id);
      DestroyKeepsClock(w.audio, w.inside, |w.claimed|, |w.prepared|);
    case Enter(phase) => EnterKeepsClock(w, phase);
    case Proceed(ok) =>
      var phase := w.inside.value;
      SubsetIsSmaller(w.prepared, w.claimed);
      if Subject(phase) {
        SubsetIsSmaller({phase.id}, w.claimed);
      }
      AdvanceKeepsClock(w.audio, phase, ok, |w.claimed|, |w.prepared|);
    case _ =>
  }

  /** A start that has taken over the rate and may yet fail. */
  predicate Starting(inside: Option<Phase>) {
    Joined(inside) == 1 && !inside.value.AsioReturning? && !inside.value.AsioLeaving?
  }

  /** The card's rate is its setter's, or a start's that remembers the setter's until it cannot fail. */
  ghost predicate SetterFits(rate: Option<SampleRate>, inside: Option<Phase>, setter: Option<SampleRate>) {
    && (!Starting(inside) ==> rate == setter)
    && (inside.Some? && (inside.value.AsioSwitching? || inside.value.AsioRollingBack?) ==>
          inside.value.previous == setter)
  }

  lemma SoleStream(claimed: set<nat>, id: nat)
    requires id in claimed
    ensures |claimed| == 1 <==> claimed == {id}
  {
    SubsetIsSmaller({id}, claimed);
    assert |claimed - {id}| == |claimed| - 1;
  }

  lemma SetterKept(w: World, step: Step)
    requires Disciplined(w) && Counted(w.audio, w.inside, |w.claimed|, |w.prepared|) && Enabled(w, step)
    requires ClockFits(w.audio, w.inside) && SetterFits(w.audio.rate, w.inside, w.setter)
    requires step.Proceed? ==> !LosesRate(w.audio, w.inside.value)
    ensures var t := After(w, step); SetterFits(t.audio.rate, t.inside, t.setter)
  {
    if step.Destroy? {
      SoleStream(w.claimed, step.id);
    }
  }

  // ------------------------------------------------------------ the sessions

  predicate EventFits(log: seq<Event>, i: nat)
    requires i < |log|
  {
    if i % 2 == 0 then log[i].Opened? else log[i] == Closed(log[i - 1].owner)
  }

  /** Sessions come one after the other, and each is closed by the owner that opened it. */
  ghost predicate Alternates(log: seq<Event>) {
    forall i | 0 <= i < |log| :: EventFits(log, i)
  }

  /** The owner of the session, or of the one that is being given back. */
  function Owner(s: State, inside: Option<Phase>): Option<nat> {
    if s.session.Some? then s.session
    else if inside.Some? && (inside.value.AsioReturning? || inside.value.AsioLeaving?) then Some(inside.value.owner)
    else None
  }

  /** A session is in the log as opened until all of it has been given back. */
  ghost predicate LogFits(log: seq<Event>, owner: Option<nat>) {
    && Alternates(log)
    && (|log| % 2 == 0 <==> owner.None?)
    && (owner.Some? ==> |log| > 0 && log[|log| - 1] == Opened(owner.value))
  }

  lemma LogGrows(log: seq<Event>, owner: Option<nat>, event: Event)
    requires LogFits(log, owner) && if owner.None? then event.Opened? else event == Closed(owner.value)
    ensures LogFits(log + [event], if owner.None? then Some(event.owner) else None)
  {
    var next := log + [event];
    forall i | 0 <= i < |next| ensures EventFits(next, i) {
      if i < |log| {
        assert EventFits(log, i);
      }
    }
  }

  /** Whose session it is only changes where the log does. */
  lemma AdvanceKeepsOwner(s: State, phase: Phase, ok: bool)
    requires Alone(s, Some(phase))
    ensures var (o, owner) := (Advance(s, phase, ok), Owner(s, Some(phase)));
            Owner(o.audio, o.next)
              == if phase.AsioAdmitting? then Some(phase.owner) else if phase.AsioLeaving? then None else owner
    ensures phase.AsioAdmitting? ==> Owner(s, Some(phase)) == None
    ensures phase.AsioLeaving? ==> Owner(s, Some(phase)) == Some(phase.owner)
  {
  }

  lemma LogKept(w: World, step: Step)
    requires LogFits(w.log, Owner(w.audio, w.inside)) && Alone(w.audio, w.inside) && Enabled(w, step)
    ensures LogFits(After(w, step).log, Owner(After(w, step).audio, After(w, step).inside))
  {
    if step.Proceed? {
      AdvanceKeepsOwner(w.audio, w.inside.value, step.ok);
      if w.inside.value.AsioAdmitting? {
        LogGrows(w.log, None, Opened(w.inside.value.owner));
      } else if w.inside.value.AsioLeaving? {
        LogGrows(w.log, Some(w.inside.value.owner), Closed(w.inside.value.owner));
      }
    }
  }

  // ---------------------------------------------------------------- every run

  /** What holds in every interleaving. */
  ghost predicate Invariant(w: World) {
    && Disciplined(w)
    && Counted(w.audio, w.inside, |w.claimed|, |w.prepared|)
    && LogFits(w.log, Owner(w.audio, w.inside))
    && Needed(w.audio, w.inside)
    && (w.audio.streams == 0 ==> w.audio.rate.None?)
    && (w.clean ==> ClockFits(w.audio, w.inside) && SetterFits(w.audio.rate, w.inside, w.setter))
  }

  lemma AdvanceDropsRate(s: State, phase: Phase, ok: bool)
    requires s.streams >= 0 && (s.streams == 0 ==> s.rate.None?)
    ensures var t := Advance(s, phase, ok).audio; t.streams == 0 ==> t.rate.None?
  {
  }

  lemma RateGoesWithTheLast(w: World, step: Step)
    requires w.audio.streams >= 0 && (w.audio.streams == 0 ==> w.audio.rate.None?) && Enabled(w, step)
    ensures After(w, step).audio.streams == 0 ==> After(w, step).audio.rate.None?
  {
    if step.Proceed? {
      AdvanceDropsRate(w.audio, w.inside.value, step.ok);
    }
  }

  lemma StepKeeps(w: World, step: Step)
    requires Invariant(w) && Enabled(w, step)
    ensures Invariant(After(w, step))
  {
    DisciplineKept(w, step);
    CountsKept(w, step);
    LogKept(w, step);
    NeedKept(w, step);
    RateGoesWithTheLast(w, step);
    if After(w, step).clean {
      ClockKept(w, step);
      SetterKept(w, step);
    }
  }

  lemma NoOneFits(w: World)
    requires w.inside.None? && w.log == [] && w.setter.None?
    requires w.claimed == {} && w.prepared == {} && w.preparing == {} && w.releasing == {}
    requires w.audio.streams == 0 && w.audio.prepared == 0
    requires w.audio.rate.None? && w.audio.engine.None? && w.audio.session.None?
    ensures Invariant(w)
  {
  }

  lemma {:induction false} RunsKeep(worlds: seq<World>, steps: seq<Step>, i: nat)
    requires IsRun(worlds, steps) && i < |worlds|
    ensures Invariant(worlds[i])
  {
    if i == 0 {
      NoOneFits(worlds[0]);
    } else {
      RunsKeep(worlds, steps, i - 1);
      assert StepAt(worlds, steps, i - 1);
      StepKeeps(worlds[i - 1], steps[i - 1]);
    }
  }

  /**
   There is one session at a time, also of those coming and going. Every session
   opened is closed once, by its owner, and `streams` and `prepared` are the
   streams that exist and are prepared, one for a session not yet closed, and
   one while a start is under way: what a session took is given back once.
   */
  lemma GivenBackOnce(worlds: seq<World>, steps: seq<Step>, i: nat)
    requires IsRun(worlds, steps) && i < |worlds|
    ensures var (w, open) := (worlds[i], |worlds[i].log| % 2);
            && Alternates(w.log)
            && Flag(w.audio.session.Some?) + Joined(w.inside) <= 1
            && w.audio.streams == |w.claimed| + open + Flag(Starting(w.inside))
            && (w.inside.None? ==> w.audio.prepared == |w.prepared| + open)
            && (w.inside.None? ==> (w.audio.session.Some? <==> open == 1))
  {
    RunsKeep(worlds, steps, i);
  }

  /** A stop by anyone but the owner changes nothing, before the control lock or under it. */
  lemma NonOwnersStop(w: World, owner: nat, ok: bool)
    requires w.audio.session != Some(owner)
    ensures After(w, BeginStop(owner)) == w
    ensures w.inside == Some(AsioTaking(owner)) ==> After(w, Proceed(ok)) == w.(inside := None)
  {
  }

  /**
   Whatever the interleaving, the card has no rate once nobody uses it. As long as
   no rate has been lost it has one exactly while someone does, and the engine runs at it.
   */
  lemma RateInEveryRun(worlds: seq<World>, steps: seq<Step>, i: nat)
    requires IsRun(worlds, steps) && i < |worlds|
    ensures worlds[i].audio.streams == 0 ==> worlds[i].audio.rate.None?
    ensures worlds[i].clean ==> RateFits(worlds[i].audio)
    ensures worlds[i].clean && worlds[i].inside.None? && worlds[i].audio.engine.Some? ==>
              worlds[i].audio.engine == worlds[i].audio.rate
  {
    RunsKeep(worlds, steps, i);
  }

  /** A start ends, in a session or not. */
  predicate LeavesStart(w: World, next: World) {
    Starting(w.inside) && !Starting(next.inside)
  }

  /**
   As long as no rate has been lost, the card's rate is its setter's, except while
   a session is starting: then it is the session's, and the setter's again if that fails.
   */
  lemma RateIsItsSetters(worlds: seq<World>, steps: seq<Step>, i: nat)
    requires IsRun(worlds, steps) && i < |worlds| && worlds[i].clean
    ensures var (w, starting) := (worlds[i], Starting(worlds[i].inside));
            w.audio.rate == if starting then Some(w.inside.value.rate) else w.setter
    ensures i < |steps| && LeavesStart(worlds[i], worlds[i + 1]) && worlds[i + 1].clean ==>
              worlds[i + 1].audio.rate == worlds[i + 1].setter
              && (worlds[i + 1].audio.session.None? && worlds[i + 1].claimed != {} ==>
                    worlds[i + 1].setter == worlds[i].setter)
  {
    RunsKeep(worlds, steps, i);
    if i < |steps| {
      RunsKeep(worlds, steps, i + 1);
      assert StepAt(worlds, steps, i);
    }
  }

  /**
   Whatever the interleaving, an engine that runs while no call is under way runs
   for a prepared stream or the session.
   */
  lemma EngineIsNeeded(worlds: seq<World>, steps: seq<Step>, i: nat)
    requires IsRun(worlds, steps) && i < |worlds|
    requires worlds[i].inside.None? && worlds[i].audio.engine.Some?
    ensures worlds[i].prepared != {} || worlds[i].audio.session.Some?
  {
    RunsKeep(worlds, steps, i);
  }

  /** From a run with no rate lost, a step breaks "a rate exactly while someone uses the card" only by losing it. */
  lemma RateLostExactlyWhen(worlds: seq<World>, steps: seq<Step>, i: nat)
    requires IsRun(worlds, steps) && i < |steps| && worlds[i].clean
    ensures RateFits(worlds[i + 1].audio) <==> !LosesRateAt(worlds[i], steps[i])
  {
    RunsKeep(worlds, steps, i);
    assert StepAt(worlds, steps, i);
    if !LosesRateAt(worlds[i], steps[i]) {
      ClockKept(worlds[i], steps[i]);
    }
  }

  ghost predicate Reaches(worlds: seq<World>, steps: seq<Step>, w: World) {
    IsRun(worlds, steps) && worlds[|steps|] == w
  }

  lemma Extended(worlds: seq<World>, steps: seq<Step>, w: World, step: Step, next: World)
    returns (worlds': seq<World>, steps': seq<Step>)
    requires Reaches(worlds, steps, w) && Enabled(w, step) && After(w, step) == next
    ensures Reaches(worlds', steps', next)
  {
    worlds', steps' := worlds + [next], steps + [step];
    forall i | 0 <= i < |steps'| ensures StepAt(worlds', steps', i) {
      if i < |steps| {
        assert StepAt(worlds, steps, i);
      }
    }
  }

  /** A start on a card without a rate gets as far as taking back what it did. */
  lemma FailingStart() returns (worlds: seq<World>, steps: seq<Step>, w: World)
    ensures Reaches(worlds, steps, w)
    ensures w.inside == Some(AsioRollingBack(Hz48000, None))
    ensures w.audio.streams == 1 && w.audio.rate == Some(Hz48000) && w.claimed == {}
  {
    var w0 := Begun(true);
    var w1 := w0.(inside := Some(AsioChecking(7, Hz48000)));
    var w2 := w1.(inside := Some(AsioEntering(7, Hz48000)));
    var w3 := w2.(audio := w2.audio.(streams := 1, rate := Some(Hz48000)),
                  inside := Some(AsioSwitching(7, Hz48000, None)));
    w := w3.(audio := w3.audio.(faulty := true), inside := Some(AsioRollingBack(Hz48000, None)));
    worlds, steps := [w0], [];
    worlds, steps := Extended(worlds, steps, w0, Enter(AsioChecking(7, Hz48000)), w1);
    worlds, steps := Extended(worlds, steps, w1, Proceed(true), w2);
    worlds, steps := Extended(worlds, steps, w2, Proceed(true), w3);
    worlds, steps := Extended(worlds, steps, w3, Proceed(false), w);
  }

  /** If a stream is made before it does, the stream is left without a rate. */
  lemma LateClaim() returns (worlds: seq<World>, steps: seq<Step>, w: World)
    ensures Reaches(worlds, steps, w)
    ensures w.audio.streams == 1 && w.audio.rate.None?
  {
    worlds, steps, w := FailingStart();
    var claimed := After(w, Create(1, Hz44100));
    worlds, steps := Extended(worlds, steps, w, Create(1, Hz44100), claimed);
    w := After(claimed, Proceed(true));
    worlds, steps := Extended(worlds, steps, claimed, Proceed(true), w);
  }
}
