/**
 The streaming engine's requests, completion routines, `busy` flags and
 `in_flight` count, one atomic step at a time, in every interleaving of start,
 stop, sends and completions. A completion that runs inside the send that
 caused it is the interleaving in which the sender pauses.
 */
module StreamProtocol {
  import opened Sets
  import opened Wrappers

  const TRANSFERS := 16

  /** What `in_flight` accounts for: a request the USB stack has, or a completion routine at its next step. */
  datatype Activity =
    // Sent and not completed.
    | CaptureSent(c: nat)
    | PlaybackSent(p: nat)
    // The capture routine: before its status check, looking for a free playback transfer,
    // answering with the one it found, sending that, and sending its own again.
    | CaptureEntered(c: nat, ok: bool)
    | Claiming(c: nat, slot: nat)
    | Answering(c: nat, playback: Option<nat>)
    | PlaybackSending(c: nat, p: nat)
    | PlaybackCounted(c: nat, p: nat)
    | PlaybackUncounting(c: nat, p: nat)
    | PlaybackReleasing(c: nat, p: nat)
    | CaptureSending(c: nat)
    | CaptureCounted(c: nat)
    | CaptureUncounting(c: nat)
    | CaptureLeaving
    // The playback routine, before and after it gives up its transfer.
    | PlaybackEntered(p: nat)
    | PlaybackLeaving

  /** The thread that starts the engine, stops it and frees its transfers. */
  datatype Control =
    | Preparing
    | Submitting(i: nat)
    | SubmitCounted(i: nat)
    | SubmitUncounting(i: nat)
    | StartFailed
    | Started
    | PurgingCapture
    | PurgingPlayback
    | Waiting
    | Restarting
    | Stopped
    | Freed

  datatype State = State(
    running: bool,
    inFlight: int,
    busy: seq<bool>,
    activities: map<nat, Activity>,
    control: Control,
    capturePurged: bool,
    playbackPurged: bool)

  /**
   `ok` is what the environment makes of the step: a status, or whether a call
   succeeds or a transfer has anything in it. `sent` names a request it sends.
   */
  datatype Step =
    | Act(id: nat, ok: bool, sent: nat)
    | Drive(ok: bool, sent: nat)

  /** What one step makes of an activity: what it goes on as, a request it sends, and what it does to the atomics. */
  datatype Outcome = Outcome(next: Option<Activity>, sent: Option<Activity>, counted: int, busy: seq<bool>)

  function Initial(): State {
    State(false, 0, seq(TRANSFERS, _ => false), map[], Preparing, false, false)
  }

  function SetBusy(busy: seq<bool>, p: nat, value: bool): seq<bool> {
    if p < |busy| then busy[p := value] else busy
  }

  function Acting(a: Activity, running: bool, busy: seq<bool>, ok: bool): Outcome {
    var go := (next: Activity) => Outcome(Some(next), None, 0, busy);
    match a
    case CaptureSent(c) => go(CaptureEntered(c, ok))
    case PlaybackSent(p) => go(PlaybackEntered(p))
    case CaptureEntered(c, status) => go(if status && running then Claiming(c, 0) else CaptureLeaving)
    case Claiming(c, k) =>
      if k >= |busy| then go(Answering(c, None))
      else if busy[k] then go(Claiming(c, k + 1))
      else Outcome(Some(Answering(c, Some(k))), None, 0, SetBusy(busy, k, true))
    case Answering(c, playback) =>
      go(if playback.None? then CaptureSending(c)
         else if ok then PlaybackSending(c, playback.value)
         else PlaybackReleasing(c, playback.value))
    case PlaybackSending(c, p) =>
      if ok then Outcome(Some(PlaybackCounted(c, p)), None, 1, busy) else go(PlaybackReleasing(c, p))
    case PlaybackCounted(c, p) =>
      if ok then Outcome(Some(CaptureSending(c)), Some(PlaybackSent(p)), 0, busy) else go(PlaybackUncounting(c, p))
    case PlaybackUncounting(c, p) => Outcome(Some(PlaybackReleasing(c, p)), None, -1, busy)
    case PlaybackReleasing(c, p) => Outcome(Some(CaptureSending(c)), None, 0, SetBusy(busy, p, false))
    case CaptureSending(c) =>
      if ok then Outcome(Some(CaptureCounted(c)), None, 1, busy) else go(CaptureLeaving)
    case CaptureCounted(c) =>
      if ok then Outcome(Some(CaptureLeaving), Some(CaptureSent(c)), 0, busy) else go(CaptureUncounting(c))
    case CaptureUncounting(c) => Outcome(Some(CaptureLeaving), None, -1, busy)
    case CaptureLeaving => Outcome(None, None, -1, busy)
    case PlaybackEntered(p) => Outcome(Some(PlaybackLeaving), None, 0, SetBusy(busy, p, false))
    case PlaybackLeaving => Outcome(None, None, -1, busy)
  }

  function WithOutcome(m: map<nat, Activity>, id: nat, o: Outcome, sent: nat): map<nat, Activity> {
    var kept := if o.next.Some? then m[id := o.next.value] else m - {id};
    if o.sent.Some? then kept[sent := o.sent.value] else kept
  }

  /** A stopped pipe fails what is sent to it; the wait ends at zero. */
  predicate Enabled(s: State, step: Step) {
    match step
    case Act(id, ok, sent) =>
      && id in s.activities && sent !in s.activities
      && (ok && s.activities[id].PlaybackCounted? ==> !s.playbackPurged)
      && (ok && s.activities[id].CaptureCounted? ==> !s.capturePurged)
    case Drive(ok, sent) =>
      && sent !in s.activities && !s.control.Freed?
      && (s.control.Waiting? ==> s.inFlight == 0)
      && (ok && s.control.SubmitCounted? ==> !s.capturePurged)
  }

  function Driven(s: State, ok: bool, sent: nat): State {
    match s.control
    // Nothing has been sent when making the transfers fails, so they are freed at once.
    case Preparing => if ok then s.(running := true, control := Submitting(0)) else s.(control := Freed)
    case Submitting(i) =>
      if i >= TRANSFERS then s.(control := Started)
      else if ok then s.(inFlight := s.inFlight + 1, control := SubmitCounted(i))
      else s.(control := StartFailed)
    case SubmitCounted(i) =>
      if ok then s.(activities := s.activities[sent := CaptureSent(i)], control := Submitting(i + 1))
      else s.(control := SubmitUncounting(i))
    case SubmitUncounting(i) => s.(inFlight := s.inFlight - 1, control := StartFailed)
    case StartFailed => s.(running := false, control := PurgingCapture)
    case Started => s.(running := false, control := PurgingCapture)
    case PurgingCapture => s.(capturePurged := true, control := PurgingPlayback)
    case PurgingPlayback => s.(playbackPurged := true, control := Waiting)
    case Waiting => s.(control := Restarting)
    case Restarting => s.(capturePurged := false, playbackPurged := false, control := Stopped)
    case Stopped => s.(control := Freed)
    case Freed => s
  }

  function After(s: State, step: Step): State
    requires Enabled(s, step)
  {
    match step
    case Act(id, ok, sent) =>
      var o := Acting(s.activities[id], s.running, s.busy, ok);
      s.(activities := WithOutcome(s.activities, id, o, sent), inFlight := s.inFlight + o.counted, busy := o.busy)
    case Drive(ok, sent) => Driven(s, ok, sent)
  }

  ghost predicate StepAt(states: seq<State>, steps: seq<Step>, i: nat)
    requires i < |steps| < |states|
  {
    Enabled(states[i], steps[i]) && states[i + 1] == After(states[i], steps[i])
  }

  /** `states` goes through `steps` from an engine that has not been started. */
  ghost predicate IsRun(states: seq<State>, steps: seq<Step>) {
    && |states| == |steps| + 1
    && states[0] == Initial()
    && (forall i | 0 <= i < |steps| :: StepAt(states, steps, i))
  }

  // ------------------------------------------------- counting over activities

  lemma RemovedIsSmaller(m: map<nat, Activity>, k: nat)
    requires k in m
    ensures |m - {k}| < |m|
  {
    assert (m - {k}).Keys == m.Keys - {k};
  }

  ghost function Total(m: map<nat, Activity>, f: Activity -> nat): nat
    decreases |m|
  {
    if m == map[] then 0
    else
      var k :| k in m;
      assert |m - {k}| < |m| by { RemovedIsSmaller(m, k); }
      f(m[k]) + Total(m - {k}, f)
  }

  /** Whichever activity is taken out first, the total is the same. */
  lemma {:induction false} TotalWithout(m: map<nat, Activity>, f: Activity -> nat, k: nat)
    requires k in m
    ensures Total(m, f) == f(m[k]) + Total(m - {k}, f)
    decreases |m|
  {
    var j :| j in m && Total(m, f) == f(m[j]) + Total(m - {j}, f);
    if j != k {
      RemovedIsSmaller(m, j);
      RemovedIsSmaller(m, k);
      TotalWithout(m - {j}, f, k);
      TotalWithout(m - {k}, f, j);
      assert m - {j} - {k} == m - {k} - {j};
    }
  }

  lemma TotalWith(m: map<nat, Activity>, f: Activity -> nat, k: nat, a: Activity)
    requires k !in m
    ensures Total(m[k := a], f) == f(a) + Total(m, f)
  {
    TotalWithout(m[k := a], f, k);
    assert m[k := a] - {k} == m;
  }

  function Worth(a: Option<Activity>, f: Activity -> nat): nat {
    if a.Some? then f(a.value) else 0
  }

  /** A step moves the total by what it adds and takes away. */
  lemma TotalAfter(m: map<nat, Activity>, f: Activity -> nat, id: nat, o: Outcome, sent: nat)
    requires id in m && sent !in m
    ensures Total(WithOutcome(m, id, o, sent), f) == Total(m, f) - f(m[id]) + Worth(o.next, f) + Worth(o.sent, f)
  {
    var rest := m - {id};
    TotalWithout(m, f, id);
    var kept := rest;
    if o.next.Some? {
      TotalWith(rest, f, id, o.next.value);
      kept := rest[id := o.next.value];
      assert m[id := o.next.value] == kept;
    }
    if o.sent.Some? {
      TotalWith(kept, f, sent, o.sent.value);
    }
  }

  // --------------------------------------------------------- what is counted

  /** A send counts its request before the stack has it. */
  function Weight(a: Activity): nat {
    match a
    case PlaybackCounted(_, _) => 2
    case PlaybackUncounting(_, _) => 2
    case CaptureCounted(_) => 2
    case CaptureUncounting(_) => 2
    case _ => 1
  }

  function ControlWeight(c: Control): nat {
    if c.SubmitCounted? || c.SubmitUncounting? then 1 else 0
  }

  ghost predicate CountIsExact(s: State) {
    s.inFlight == Total(s.activities, Weight) + ControlWeight(s.control)
  }

  // ------------------------------------------------------------- who owns what

  datatype Resource = Capture(i: nat) | Playback(i: nat)

  /** The transfers whose buffer and URB belong to an activity. */
  ghost function Holds(a: Activity): set<Resource> {
    match a
    case CaptureSent(c) => {Capture(c)}
    case PlaybackSent(p) => {Playback(p)}
    case CaptureEntered(c, _) => {Capture(c)}
    case Claiming(c, _) => {Capture(c)}
    case Answering(c, playback) => if playback.Some? then {Capture(c), Playback(playback.value)} else {Capture(c)}
    case PlaybackSending(c, p) => {Capture(c), Playback(p)}
    case PlaybackCounted(c, p) => {Capture(c), Playback(p)}
    case PlaybackUncounting(c, p) => {Capture(c), Playback(p)}
    case PlaybackReleasing(c, p) => {Capture(c), Playback(p)}
    case CaptureSending(c) => {Capture(c)}
    case CaptureCounted(c) => {Capture(c)}
    case CaptureUncounting(c) => {Capture(c)}
    case CaptureLeaving => {}
    case PlaybackEntered(p) => {Playback(p)}
    case PlaybackLeaving => {}
  }

  ghost function Held(a: Option<Activity>): set<Resource> {
    if a.Some? then Holds(a.value) else {}
  }

  /** The capture transfers the starting thread has yet to hand over. */
  ghost predicate ControlHolds(c: Control, r: Resource) {
    && r.Capture?
    && match c
       case Preparing => true
       case Submitting(i) => r.i >= i
       case SubmitCounted(i) => r.i >= i
       case SubmitUncounting(i) => r.i >= i
       case _ => false
  }

  ghost function Holdings(m: map<nat, Activity>): map<nat, set<Resource>> {
    map id | id in m :: Holds(m[id])
  }

  ghost predicate HasHolder(h: map<nat, set<Resource>>, r: Resource) {
    exists id :: id in h && r in h[id]
  }

  /** No transfer is held by two, and a playback transfer's flag is set exactly while it is held. */
  ghost predicate OwnedOnce(h: map<nat, set<Resource>>, busy: seq<bool>) {
    && |busy| == TRANSFERS
    && (forall a, b | a in h && b in h && a != b :: h[a] !! h[b])
    && (forall a, r | a in h && r in h[a] :: r.i < TRANSFERS && (r.Playback? ==> busy[r.i]))
    && (forall p | 0 <= p < TRANSFERS && busy[p] :: HasHolder(h, Playback(p)))
  }

  /** What the starting thread has yet to hand over is held by no activity. */
  ghost predicate ControlApart(h: map<nat, set<Resource>>, c: Control) {
    forall a, r | a in h && r in h[a] :: !ControlHolds(c, r)
  }

  ghost predicate Owned(s: State) {
    OwnedOnce(Holdings(s.activities), s.busy) && ControlApart(Holdings(s.activities), s.control)
  }

  /** The wait for the count is over. */
  predicate Done(c: Control) {
    c.Restarting? || c.Stopped? || c.Freed?
  }

  ghost predicate PhasesFit(s: State) {
    && (s.running <==> s.control.Submitting? || s.control.SubmitCounted? || s.control.SubmitUncounting?
                       || s.control.StartFailed? || s.control.Started?)
    && (s.control.SubmitCounted? ==> s.control.i < TRANSFERS)
    && (s.control.Preparing? || Done(s.control) ==> s.activities == map[] && s.inFlight == 0)
  }

  ghost predicate Invariant(s: State) {
    CountIsExact(s) && Owned(s) && PhasesFit(s)
  }

  lemma ActCounts(a: Activity, running: bool, busy: seq<bool>, ok: bool)
    ensures var o := Acting(a, running, busy, ok);
            o.counted == Worth(o.next, Weight) + Worth(o.sent, Weight) - Weight(a)
  {
  }

  lemma ActCountKept(s: State, id: nat, ok: bool, sent: nat)
    requires CountIsExact(s) && Enabled(s, Act(id, ok, sent))
    ensures CountIsExact(After(s, Act(id, ok, sent)))
  {
    var o := Acting(s.activities[id], s.running, s.busy, ok);
    ActCounts(s.activities[id], s.running, s.busy, ok);
    TotalAfter(s.activities, Weight, id, o, sent);
  }

  lemma DriveWeighs(s: State, ok: bool, sent: nat)
    requires !(s.control.SubmitCounted? && ok)
    ensures var t := Driven(s, ok, sent);
            && t.activities == s.activities
            && t.inFlight - s.inFlight == ControlWeight(t.control) - ControlWeight(s.control)
  {
  }

  lemma DriveCountKept(s: State, ok: bool, sent: nat)
    requires CountIsExact(s) && Enabled(s, Drive(ok, sent))
    ensures CountIsExact(After(s, Drive(ok, sent)))
  {
    if s.control.SubmitCounted? && ok {
      TotalWith(s.activities, Weight, sent, CaptureSent(s.control.i));
    } else {
      DriveWeighs(s, ok, sent);
    }
  }

  /** Each activity weighs at least one, so a count of zero leaves none. */
  lemma ZeroLeavesNone(s: State)
    requires CountIsExact(s)
    ensures s.inFlight >= 0
    ensures s.inFlight == 0 ==> s.activities == map[] && ControlWeight(s.control) == 0
  {
    if s.activities != map[] {
      var k :| k in s.activities;
      TotalWithout(s.activities, Weight, k);
    }
  }

  ghost function HeldAfter(o: Outcome): set<Resource> {
    Held(o.next) + Held(o.sent)
  }

  lemma ActGains(a: Activity, running: bool, busy: seq<bool>, ok: bool)
    requires |busy| == TRANSFERS
    requires forall r | r in Holds(a) :: r.i < TRANSFERS && (r.Playback? ==> busy[r.i])
    ensures var o := Acting(a, running, busy, ok);
            && Held(o.next) !! Held(o.sent) && |o.busy| == TRANSFERS
            && (forall r | r in HeldAfter(o) :: r in Holds(a) || (r.Playback? && r.i < TRANSFERS && !busy[r.i]))
  {
  }

  lemma ActFlags(a: Activity, running: bool, busy: seq<bool>, ok: bool, p: nat)
    requires |busy| == TRANSFERS && p < TRANSFERS
    requires forall r | r in Holds(a) :: r.i < TRANSFERS && (r.Playback? ==> busy[r.i])
    ensures var o := Acting(a, running, busy, ok);
            && |o.busy| == TRANSFERS
            && o.busy[p] == (Playback(p) in HeldAfter(o) || (busy[p] && Playback(p) !in Holds(a)))
  {
  }

  /**
   A step keeps or hands on what its activity holds, and adds at most a playback
   transfer whose flag was clear; flags are set and cleared with holding.
   */
  lemma ActHolds(a: Activity, running: bool, busy: seq<bool>, ok: bool)
    requires |busy| == TRANSFERS
    requires forall r | r in Holds(a) :: r.i < TRANSFERS && (r.Playback? ==> busy[r.i])
    ensures var o := Acting(a, running, busy, ok);
            && Held(o.next) !! Held(o.sent) && |o.busy| == TRANSFERS
            && (forall r | r in HeldAfter(o) :: r in Holds(a) || (r.Playback? && r.i < TRANSFERS && !busy[r.i]))
            && (forall p | 0 <= p < TRANSFERS ::
                  o.busy[p] == (Playback(p) in HeldAfter(o) || (busy[p] && Playback(p) !in Holds(a))))
  {
    ActGains(a, running, busy, ok);
    forall p: nat | p < TRANSFERS
      ensures var o := Acting(a, running, busy, ok);
              && |o.busy| == TRANSFERS
              && o.busy[p] == (Playback(p) in HeldAfter(o) || (busy[p] && Playback(p) !in Holds(a)))
    {
      ActFlags(a, running, busy, ok, p);
    }
  }

  /** What one holder has is handed on: to itself, to one new holder, or to no one; every other keeps its own. */
  ghost predicate Shared(h: map<nat, set<Resource>>, id: nat, sent: nat, h': map<nat, set<Resource>>,
                         kept: set<Resource>, given: set<Resource>)
  {
    && id in h && sent !in h && kept !! given
    && h'.Keys <= h.Keys + {sent} && h.Keys - {id} <= h'.Keys
    && (kept != {} ==> id in h') && (given != {} ==> sent in h')
    && (forall b | b in h' :: h'[b] == if b == id then kept else if b == sent then given else h[b])
  }

  lemma HolderFound(h: map<nat, set<Resource>>, id: nat, sent: nat, h': map<nat, set<Resource>>,
                    kept: set<Resource>, given: set<Resource>, r: Resource)
    requires Shared(h, id, sent, h', kept, given)
    requires r in kept + given || (HasHolder(h, r) && r !in h[id])
    ensures HasHolder(h', r)
  {
    if r in kept {
      assert r in h'[id];
    } else if r in given {
      assert r in h'[sent];
    } else {
      var b :| b in h && r in h[b];
      assert r in h'[b];
    }
  }

  /** No one else holds what is handed on. */
  lemma HeldApart(h: map<nat, set<Resource>>, busy: seq<bool>, id: nat, shared: set<Resource>)
    requires OwnedOnce(h, busy) && id in h
    requires forall r | r in shared :: r in h[id] || (r.Playback? && r.i < TRANSFERS && !busy[r.i])
    ensures forall b | b in h && b != id :: h[b] !! shared
    ensures forall r | r in shared :: r.i < TRANSFERS
  {
  }

  lemma SharesApart(h: map<nat, set<Resource>>, busy: seq<bool>, id: nat, sent: nat,
                    h': map<nat, set<Resource>>, kept: set<Resource>, given: set<Resource>, a: nat, b: nat)
    requires OwnedOnce(h, busy) && Shared(h, id, sent, h', kept, given)
    requires forall c | c in h && c != id :: h[c] !! kept + given
    requires a in h' && b in h' && a != b
    ensures h'[a] !! h'[b]
  {
    if a != id && a != sent && b != id && b != sent {
      assert h[a] !! h[b];
    }
  }

  lemma FlagsFollow(h: map<nat, set<Resource>>, busy: seq<bool>, id: nat, sent: nat,
                    h': map<nat, set<Resource>>, busy': seq<bool>, kept: set<Resource>, given: set<Resource>,
                    a: nat, r: Resource)
    requires OwnedOnce(h, busy) && Shared(h, id, sent, h', kept, given) && |busy'| == TRANSFERS
    requires forall q | q in kept + given :: q.i < TRANSFERS
    requires r.Playback? && r.i < TRANSFERS ==>
               busy'[r.i] == (r in kept + given || (busy[r.i] && r !in h[id]))
    requires a in h' && r in h'[a]
    ensures r.i < TRANSFERS && (r.Playback? ==> busy'[r.i])
  {
    if a != id && a != sent {
      assert h[a] !! h[id];
    }
  }

  /** One holder's share changes hands: what it gains was free, what it gives up it may share with one new holder. */
  lemma HandedOver(h: map<nat, set<Resource>>, busy: seq<bool>, id: nat, sent: nat,
                   h': map<nat, set<Resource>>, busy': seq<bool>, kept: set<Resource>, given: set<Resource>)
    requires OwnedOnce(h, busy) && Shared(h, id, sent, h', kept, given) && |busy'| == TRANSFERS
    requires forall r | r in kept + given :: r in h[id] || (r.Playback? && r.i < TRANSFERS && !busy[r.i])
    requires forall p | 0 <= p < TRANSFERS ::
               busy'[p] == (Playback(p) in kept + given || (busy[p] && Playback(p) !in h[id]))
    ensures OwnedOnce(h', busy')
  {
    HeldApart(h, busy, id, kept + given);
    forall a, b | a in h' && b in h' && a != b ensures h'[a] !! h'[b] {
      SharesApart(h, busy, id, sent, h', kept, given, a, b);
    }
    forall a, r | a in h' && r in h'[a] ensures r.i < TRANSFERS && (r.Playback? ==> busy'[r.i]) {
      FlagsFollow(h, busy, id, sent, h', busy', kept, given, a, r);
    }
    forall p | 0 <= p < TRANSFERS && busy'[p] ensures HasHolder(h', Playback(p)) {
      HolderFound(h, id, sent, h', kept, given, Playback(p));
    }
  }

  lemma ActOwned(s: State, id: nat, ok: bool, sent: nat)
    requires Owned(s) && Enabled(s, Act(id, ok, sent))
    ensures Owned(After(s, Act(id, ok, sent)))
  {
    var o := Acting(s.activities[id], s.running, s.busy, ok);
    var h, h' := Holdings(s.activities), Holdings(WithOutcome(s.activities, id, o, sent));
    assert h[id] == Holds(s.activities[id]);
    ActHolds(s.activities[id], s.running, s.busy, ok);
    HandedOver(h, s.busy, id, sent, h', o.busy, Held(o.next), Held(o.sent));
    forall a, r | a in h' && r in h'[a] ensures !ControlHolds(s.control, r) {
      if r in HeldAfter(o) {
        assert r in h[id] || r.Playback?;
      } else {
        assert a in h && r in h[a];
      }
    }
  }

  lemma SubmitOwned(s: State, sent: nat)
    requires Owned(s) && s.control.SubmitCounted? && s.control.i < TRANSFERS && sent !in s.activities
    ensures Owned(Driven(s, true, sent))
  {
    var h, h' := Holdings(s.activities), Holdings(s.activities[sent := CaptureSent(s.control.i)]);
    assert h' == h[sent := {Capture(s.control.i)}];
    assert ControlHolds(s.control, Capture(s.control.i));
    forall p | 0 <= p < TRANSFERS && s.busy[p] ensures HasHolder(h', Playback(p)) {
      assert HasHolder(h, Playback(p));
      var b :| b in h && Playback(p) in h[b];
      assert Playback(p) in h'[b];
    }
    forall a, r | a in h' && r in h'[a] ensures !ControlHolds(Submitting(s.control.i + 1), r) {
      if a in h && r in h[a] {
        assert !ControlHolds(s.control, r);
      }
    }
  }

  lemma DriveOwned(s: State, ok: bool, sent: nat)
    requires Owned(s) && PhasesFit(s) && Enabled(s, Drive(ok, sent))
    ensures Owned(After(s, Drive(ok, sent)))
  {
    if s.control.SubmitCounted? && ok {
      SubmitOwned(s, sent);
    } else {
      var t := Driven(s, ok, sent);
      assert t.activities == s.activities && t.busy == s.busy;
      forall r | ControlHolds(t.control, r) ensures ControlHolds(s.control, r) {
      }
    }
  }

  lemma PhasesKept(s: State, step: Step)
    requires CountIsExact(s) && PhasesFit(s) && Enabled(s, step)
    ensures PhasesFit(After(s, step))
  {
    ZeroLeavesNone(s);
  }

  lemma StepKeeps(s: State, step: Step)
    requires Invariant(s) && Enabled(s, step)
    ensures Invariant(After(s, step))
  {
    PhasesKept(s, step);
    match step
    case Act(id, ok, sent) =>
      ActCountKept(s, id, ok, sent);
      ActOwned(s, id, ok, sent);
    case Drive(ok, sent) =>
      DriveCountKept(s, ok, sent);
      DriveOwned(s, ok, sent);
  }

  lemma RunStep(states: seq<State>, steps: seq<Step>, i: nat)
    requires IsRun(states, steps) && i < |steps|
    ensures Enabled(states[i], steps[i]) && states[i + 1] == After(states[i], steps[i])
  {
    assert StepAt(states, steps, i);
  }

  lemma {:induction false} RunsKeep(states: seq<State>, steps: seq<Step>, i: nat)
    requires IsRun(states, steps) && i < |states|
    ensures Invariant(states[i])
  {
    if i > 0 {
      RunsKeep(states, steps, i - 1);
      RunStep(states, steps, i - 1);
      StepKeeps(states[i - 1], steps[i - 1]);
    }
  }

  // ---------------------------------------------------------------- stopping

  /** The engine has been told to stop. */
  predicate Stopping(c: Control) {
    c.PurgingCapture? || c.PurgingPlayback? || c.Waiting? || Done(c)
  }

  lemma QuietStep(s: State, step: Step)
    requires Enabled(s, step) && Stopping(s.control) && s.activities == map[] && s.inFlight == 0
    ensures var t := After(s, step); Stopping(t.control) && t.activities == map[] && t.inFlight == 0
  {
  }

  /**
   Once `running` has been taken back and the count is zero, no request is
   outstanding and no routine is anywhere before its end, and no later step of
   the run ever changes that.
   */
  lemma {:induction false} QuiescenceIsFinal(states: seq<State>, steps: seq<Step>, i: nat, j: nat)
    requires IsRun(states, steps) && i <= j < |states|
    requires Stopping(states[i].control) && states[i].inFlight == 0
    ensures Stopping(states[j].control) && !states[j].running
    ensures states[j].activities == map[] && states[j].inFlight == 0
  {
    RunsKeep(states, steps, i);
    ZeroLeavesNone(states[i]);
    if i < j {
      QuiescenceIsFinal(states, steps, i, j - 1);
      RunStep(states, steps, j - 1);
      QuietStep(states[j - 1], steps[j - 1]);
    }
    RunsKeep(states, steps, j);
  }

  /** The transfers whose memory a step reads or writes. */
  ghost function Touched(s: State, step: Step): set<Resource> {
    match step
    case Act(id, _, _) =>
      if id !in s.activities then {}
      else (match s.activities[id]
       // The USB stack, until it completes the request.
       case CaptureSent(c) => {Capture(c)}
       case PlaybackSent(p) => {Playback(p)}
       // Packets are decoded from the one and laid out in the other.
       case Answering(c, playback) => Holds(s.activities[id])
       case PlaybackSending(_, p) => {Playback(p)}
       case CaptureSending(c) => {Capture(c)}
       case _ => {})
    case Drive(_, _) => if s.control.Submitting? && s.control.i < TRANSFERS then {Capture(s.control.i)} else {}
  }

  /** A step touches only transfers its own activity holds, which no other activity and no sender holds. */
  lemma TouchesOnlyItsOwn(states: seq<State>, steps: seq<Step>, i: nat, other: nat)
    requires IsRun(states, steps) && i < |steps| && other in states[i].activities
    requires steps[i].Act? ==> other != steps[i].id
    ensures Touched(states[i], steps[i]) !! Holds(states[i].activities[other])
    ensures steps[i].Act? ==> steps[i].id in states[i].activities
    ensures steps[i].Act? ==> Touched(states[i], steps[i]) <= Holds(states[i].activities[steps[i].id])
    ensures steps[i].Drive? ==> forall r | r in Touched(states[i], steps[i]) :: ControlHolds(states[i].control, r)
  {
    RunsKeep(states, steps, i);
    RunStep(states, steps, i);
    assert Holdings(states[i].activities)[other] == Holds(states[i].activities[other]);
    if steps[i].Act? {
      assert Holdings(states[i].activities)[steps[i].id] == Holds(states[i].activities[steps[i].id]);
    } else {
      assert forall r | r in Touched(states[i], steps[i]) :: ControlHolds(states[i].control, r);
    }
  }

  /** A playback transfer is free, or has one holder: an answer that owns it, a request in flight, or its routine. */
  lemma PlaybackHasOneHolder(states: seq<State>, steps: seq<Step>, i: nat, p: nat)
    requires IsRun(states, steps) && i < |states| && p < TRANSFERS
    ensures |states[i].busy| == TRANSFERS
    ensures states[i].busy[p] <==> HasHolder(Holdings(states[i].activities), Playback(p))
    ensures var h := Holdings(states[i].activities);
            forall a, b | a in h && b in h && Playback(p) in h[a] && Playback(p) in h[b] :: a == b
  {
    RunsKeep(states, steps, i);
  }

  /** When the transfers are freed nothing holds one, and nothing ever touches one again. */
  lemma FreedUntouched(states: seq<State>, steps: seq<Step>, i: nat, j: nat)
    requires IsRun(states, steps) && i <= j < |states| && states[i].control.Freed?
    ensures states[j].activities == map[] && states[j].control.Freed?
    ensures forall step: Step :: !Enabled(states[j], step)
  {
    RunsKeep(states, steps, i);
    if i < j {
      RunStep(states, steps, i);
    }
  }

  // ------------------------------------------------------------ the wait ends

  /** How many steps an activity and the requests it sends have left when nothing is answered any more. */
  function Rank(a: Activity): nat {
    match a
    case PlaybackLeaving => 1
    case PlaybackEntered(_) => 2
    case PlaybackSent(_) => 3
    case CaptureLeaving => 1
    case CaptureEntered(_, _) => 2
    case CaptureSent(_) => 3
    case CaptureUncounting(_) => 2
    case CaptureCounted(_) => 5
    case CaptureSending(_) => 6
    case PlaybackReleasing(_, _) => 7
    case PlaybackUncounting(_, _) => 8
    case PlaybackCounted(_, _) => 10
    case PlaybackSending(_, _) => 11
    case Answering(_, _) => 12
    case Claiming(_, k) => 13 + if k < TRANSFERS then TRANSFERS - k else 0
  }

  lemma ActDescends(a: Activity, busy: seq<bool>, ok: bool)
    requires |busy| == TRANSFERS
    ensures var o := Acting(a, false, busy, ok);
            Worth(o.next, Rank) + Worth(o.sent, Rank) < Rank(a)
  {
  }

  /**
   After `running` is taken back, every step of a request or routine brings the
   end of the wait nearer, and as long as the count is not zero there is such a
   step: the wait in `stop` cannot go on for ever.
   */
  lemma StopDescends(s: State, step: Step)
    requires Invariant(s) && Enabled(s, step) && Stopping(s.control)
    ensures Total(After(s, step).activities, Rank) <= Total(s.activities, Rank)
    ensures step.Act? ==> Total(After(s, step).activities, Rank) < Total(s.activities, Rank)
  {
    if step.Act? {
      var o := Acting(s.activities[step.id], s.running, s.busy, step.ok);
      ActDescends(s.activities[step.id], s.busy, step.ok);
      TotalAfter(s.activities, Rank, step.id, o, step.sent);
    }
  }

  lemma FreshId(ids: set<nat>) returns (id: nat)
    ensures id !in ids
  {
    id := 0;
    var below: set<nat> := {};
    while id in ids
      invariant below <= ids && |below| == id && (forall k | k in below :: k < id)
      decreases |ids| - id
    {
      SubsetIsSmaller(below + {id}, ids);
      below := below + {id};
      id := id + 1;
    }
  }

  lemma StopNeverStuck(s: State)
    requires Invariant(s) && Stopping(s.control) && s.inFlight != 0
    ensures exists id, sent :: Enabled(s, Act(id, false, sent))
  {
    assert Total(map[], Weight) == 0;
    var id :| id in s.activities;
    var sent := FreshId(s.activities.Keys);
    assert Enabled(s, Act(id, false, sent));
  }

  function Steps(steps: seq<Step>): nat {
    if steps == [] then 0 else Steps(steps[..|steps| - 1]) + if steps[|steps| - 1].Act? then 1 else 0
  }

  lemma StepsSplit(steps: seq<Step>, i: nat, j: nat)
    requires i < j <= |steps|
    ensures Steps(steps[i..j]) == Steps(steps[i..j - 1]) + if steps[j - 1].Act? then 1 else 0
  {
    assert steps[i..j][..j - i - 1] == steps[i..j - 1];
  }

  lemma StoppingStays(s: State, step: Step)
    requires Enabled(s, step) && Stopping(s.control)
    ensures Stopping(After(s, step).control)
  {
  }

  /** From the moment it is told to stop, an engine takes no more steps than its activities had left then. */
  lemma {:induction false} StopIsBounded(states: seq<State>, steps: seq<Step>, i: nat, j: nat)
    requires IsRun(states, steps) && i <= j < |states| && Stopping(states[i].control)
    ensures Stopping(states[j].control)
    ensures Steps(steps[i..j]) + Total(states[j].activities, Rank) <= Total(states[i].activities, Rank)
  {
    if i < j {
      StopIsBounded(states, steps, i, j - 1);
      RunsKeep(states, steps, j - 1);
      RunStep(states, steps, j - 1);
      var s, step := states[j - 1], steps[j - 1];
      StoppingStays(s, step);
      StopDescends(s, step);
      StepsSplit(steps, i, j);
    }
  }
}
