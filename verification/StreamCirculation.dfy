/**
 That a running engine keeps going: every capture request is sent again and
 again with an answer between, and every playback transfer that an answer claims
 is sent, or given up for a failure.
 */
module StreamCirculation {
  import opened StreamProtocol
  import opened Wrappers

  // ------------------------------------------------------------ capture transfers

  /** The activities from which capture transfer `c` is sent again unless that fails. */
  ghost predicate Circulates(a: Activity, c: nat) {
    && Capture(c) in Holds(a)
    && !a.CaptureUncounting?
    && (a.CaptureEntered? ==> a.ok)
  }

  ghost predicate InCirculation(m: map<nat, Activity>, c: nat) {
    exists id :: id in m && Circulates(m[id], c)
  }

  /** A request for capture transfer `c` completes with an error, or sending it again fails. */
  ghost predicate LosesCapture(s: State, step: Step, c: nat) {
    && step.Act? && !step.ok && step.id in s.activities
    && s.activities[step.id] in {CaptureSent(c), CaptureSending(c), CaptureCounted(c)}
  }

  ghost predicate Lost(states: seq<State>, steps: seq<Step>, i: nat, c: nat)
    requires i <= |steps| < |states|
  {
    exists k :: 0 <= k < i && LosesCapture(states[k], steps[k], c)
  }

  /** Starting has not failed and the engine has not been stopped. */
  predicate Streaming(control: Control) {
    control.Preparing? || control.Submitting? || control.SubmitCounted? || control.Started?
  }

  /** A transfer goes round from when it is handed over until it is lost, and never after. */
  ghost predicate GoesRound(s: State, c: nat, lost: bool) {
    if lost then !ControlHolds(s.control, Capture(c)) && !InCirculation(s.activities, c)
    else Streaming(s.control) ==> ControlHolds(s.control, Capture(c)) || InCirculation(s.activities, c)
  }

  lemma ActPassesOn(a: Activity, running: bool, busy: seq<bool>, ok: bool, c: nat)
    ensures var o := Acting(a, running, busy, ok);
            var fails := !ok && a in {CaptureSent(c), CaptureSending(c), CaptureCounted(c)};
            var passed :=
              (o.next.Some? && Circulates(o.next.value, c)) || (o.sent.Some? && Circulates(o.sent.value, c));
            && (passed ==> Circulates(a, c) && !fails)
            && (running && Circulates(a, c) && !fails ==> passed)
            && (fails ==> Circulates(a, c))
  {
  }

  /** What circulates after a step of `id` did so before, or has just been passed on. */
  lemma CirculationAfter(m: map<nat, Activity>, id: nat, o: Outcome, sent: nat, c: nat)
    requires id in m && sent !in m
    ensures var passed :=
              (o.next.Some? && Circulates(o.next.value, c)) || (o.sent.Some? && Circulates(o.sent.value, c));
            InCirculation(WithOutcome(m, id, o, sent), c) <==> passed || InCirculation(m - {id}, c)
  {
    var rest, m' := m - {id}, WithOutcome(m, id, o, sent);
    if b :| b in rest && Circulates(rest[b], c) {
      assert b in m' && m'[b] == rest[b];
    }
    if b :| b in m' && Circulates(m'[b], c) {
      assert b != id && b != sent ==> b in rest && rest[b] == m'[b];
    }
    if o.next.Some? {
      assert id in m' && m'[id] == o.next.value;
    }
    if o.sent.Some? {
      assert sent in m' && m'[sent] == o.sent.value;
    }
  }

  lemma CirculationWithout(m: map<nat, Activity>, id: nat, c: nat)
    requires id in m
    ensures InCirculation(m, c) <==> Circulates(m[id], c) || InCirculation(m - {id}, c)
  {
    if b :| b in m && Circulates(m[b], c) {
      assert b != id ==> b in m - {id} && (m - {id})[b] == m[b];
    }
    if b :| b in m - {id} && Circulates((m - {id})[b], c) {
      assert b in m && m[b] == (m - {id})[b];
    }
  }

  /** Who holds a capture transfer is the only one, and starting is done with it. */
  lemma NoOtherCirculates(s: State, id: nat, c: nat)
    requires Owned(s) && id in s.activities && Circulates(s.activities[id], c)
    ensures !InCirculation(s.activities - {id}, c) && !ControlHolds(s.control, Capture(c))
  {
    var h := Holdings(s.activities);
    assert Capture(c) in h[id];
    forall b | b in s.activities && b != id ensures !Circulates(s.activities[b], c) {
      assert h[b] !! h[id];
    }
  }

  lemma ActGoesRound(s: State, id: nat, ok: bool, sent: nat, c: nat, lost: bool)
    requires Invariant(s) && Enabled(s, Act(id, ok, sent)) && GoesRound(s, c, lost)
    ensures GoesRound(After(s, Act(id, ok, sent)), c, lost || LosesCapture(s, Act(id, ok, sent), c))
  {
    var a := s.activities[id];
    var o := Acting(a, s.running, s.busy, ok);
    ActPassesOn(a, s.running, s.busy, ok, c);
    CirculationWithout(s.activities, id, c);
    CirculationAfter(s.activities, id, o, sent, c);
    if Circulates(a, c) {
      NoOtherCirculates(s, id, c);
    }
  }

  lemma SubmitGoesRound(s: State, sent: nat, c: nat, lost: bool)
    requires s.control.SubmitCounted? && sent !in s.activities && GoesRound(s, c, lost)
    ensures GoesRound(Driven(s, true, sent), c, lost)
  {
    var m := s.activities;
    var m' := m[sent := CaptureSent(s.control.i)];
    CirculationWithout(m', sent, c);
    assert m' - {sent} == m;
  }

  lemma DriveGoesRound(s: State, ok: bool, sent: nat, c: nat, lost: bool)
    requires Enabled(s, Drive(ok, sent)) && GoesRound(s, c, lost) && c < TRANSFERS
    ensures GoesRound(After(s, Drive(ok, sent)), c, lost)
  {
    if s.control.SubmitCounted? && ok {
      SubmitGoesRound(s, sent, c, lost);
    } else {
      assert Driven(s, ok, sent).activities == s.activities;
    }
  }

  lemma {:induction false} EachGoesRound(states: seq<State>, steps: seq<Step>, i: nat, c: nat)
    requires IsRun(states, steps) && i < |states| && c < TRANSFERS
    ensures GoesRound(states[i], c, Lost(states, steps, i, c))
  {
    if i > 0 {
      EachGoesRound(states, steps, i - 1, c);
      RunsKeep(states, steps, i - 1);
      RunStep(states, steps, i - 1);
      var s, step, lost := states[i - 1], steps[i - 1], Lost(states, steps, i - 1, c);
      assert Lost(states, steps, i, c) <==> lost || LosesCapture(s, step, c);
      match step
      case Act(id, ok, sent) => ActGoesRound(s, id, ok, sent, c, lost);
      case Drive(ok, sent) => DriveGoesRound(s, ok, sent, c, lost);
    }
  }

  /**
   While an engine streams, each of its capture transfers is at the stack or in
   its routine on the way there again, if and only if none of its requests has failed.
   */
  lemma CaptureGoesRound(states: seq<State>, steps: seq<Step>, i: nat, c: nat)
    requires IsRun(states, steps) && i < |states| && states[i].control.Started? && c < TRANSFERS
    ensures InCirculation(states[i].activities, c) <==> !Lost(states, steps, i, c)
    ensures !Lost(states, steps, i, c) ==> HasHolder(Holdings(states[i].activities), Capture(c))
  {
    EachGoesRound(states, steps, i, c);
    if InCirculation(states[i].activities, c) {
      var id :| id in states[i].activities && Circulates(states[i].activities[id], c);
      assert Capture(c) in Holdings(states[i].activities)[id];
    }
  }

  /** What holds capture transfer `c` before it is answered. */
  predicate BeforeAnswer(a: Activity, c: nat) {
    a == CaptureSent(c) || (a.CaptureEntered? && a.c == c) || (a.Claiming? && a.c == c) || (a.Answering? && a.c == c)
  }

  /** The step answers capture transfer `c`. */
  predicate Answers(s: State, step: Step, c: nat) {
    step.Act? && step.id in s.activities && s.activities[step.id].Answering? && s.activities[step.id].c == c
  }

  /** The step sends capture transfer `c` again. */
  predicate SendsAgain(s: State, step: Step, c: nat) {
    step.Act? && step.ok && step.id in s.activities && s.activities[step.id] == CaptureCounted(c)
  }

  ghost predicate AllBeforeAnswer(m: map<nat, Activity>, c: nat) {
    forall id | id in m && Capture(c) in Holds(m[id]) :: BeforeAnswer(m[id], c)
  }

  lemma ActBeforeAnswer(a: Activity, running: bool, busy: seq<bool>, ok: bool, c: nat)
    requires Capture(c) in Holds(a) ==> BeforeAnswer(a, c) && !a.Answering?
    ensures var o := Acting(a, running, busy, ok);
            && (o.next.Some? && Capture(c) in Holds(o.next.value) ==> BeforeAnswer(o.next.value, c))
            && (o.sent.Some? && Capture(c) in Holds(o.sent.value) ==> BeforeAnswer(o.sent.value, c))
  {
  }

  lemma StepBeforeAnswer(s: State, step: Step, c: nat)
    requires Enabled(s, step) && !Answers(s, step, c) && AllBeforeAnswer(s.activities, c)
    ensures AllBeforeAnswer(After(s, step).activities, c)
  {
    if step.Act? {
      var a := s.activities[step.id];
      ActBeforeAnswer(a, s.running, s.busy, step.ok, c);
    }
  }

  lemma {:induction false} UnansweredUntil(states: seq<State>, steps: seq<Step>, i: nat, j: nat, c: nat)
    requires IsRun(states, steps) && i <= j < |states| && AllBeforeAnswer(states[i].activities, c)
    requires forall k | i <= k < j :: !Answers(states[k], steps[k], c)
    ensures AllBeforeAnswer(states[j].activities, c)
  {
    if i < j {
      UnansweredUntil(states, steps, i, j - 1, c);
      RunStep(states, steps, j - 1);
      StepBeforeAnswer(states[j - 1], steps[j - 1], c);
    }
  }

  lemma SendsAgainIsAnswered(m: map<nat, Activity>, id: nat, c: nat)
    requires id in m && m[id] == CaptureCounted(c)
    ensures !AllBeforeAnswer(m, c)
  {
    assert Capture(c) in Holds(m[id]);
  }

  /**
   Between two times that a capture transfer is at the stack it has been answered:
   what it brought is never dropped.
   */
  lemma AnsweredBetween(states: seq<State>, steps: seq<Step>, i: nat, j: nat, id: nat, c: nat)
    requires IsRun(states, steps) && i <= j < |steps|
    requires id in states[i].activities && states[i].activities[id] == CaptureSent(c)
    requires SendsAgain(states[j], steps[j], c)
    ensures exists k :: i <= k < j && Answers(states[k], steps[k], c)
  {
    RunsKeep(states, steps, i);
    var h := Holdings(states[i].activities);
    assert Capture(c) in h[id];
    forall b | b in states[i].activities && Capture(c) in Holds(states[i].activities[b])
      ensures BeforeAnswer(states[i].activities[b], c)
    {
      assert Capture(c) in h[b];
    }
    SendsAgainIsAnswered(states[j].activities, steps[j].id, c);
    if forall k | i <= k < j :: !Answers(states[k], steps[k], c) {
      UnansweredUntil(states, steps, i, j, c);
      assert false;
    }
  }

  // ----------------------------------------------------------- playback transfers

  /** The routine `id` found playback transfer `p` in use. */
  predicate FoundBusy(s: State, step: Step, id: nat, p: nat) {
    && step.Act? && step.id == id && id in s.activities
    && s.activities[id].Claiming? && s.activities[id].slot == p
    && p < |s.busy| && s.busy[p]
  }

  /** How many playback transfers an activity has been through and found in use. */
  function Passed(a: Activity): nat {
    if a.Claiming? then a.slot else if a.Answering? && a.playback.None? then TRANSFERS else 0
  }

  lemma ActPasses(a: Activity, running: bool, busy: seq<bool>, ok: bool)
    requires |busy| == TRANSFERS
    ensures var o := Acting(a, running, busy, ok);
            && (o.next.Some? && Passed(o.next.value) > Passed(a) ==>
                  a.Claiming? && a.slot < TRANSFERS && busy[a.slot] && Passed(o.next.value) == a.slot + 1)
            && (o.sent.Some? ==> Passed(o.sent.value) == 0)
  {
  }

  lemma StepPasses(s: State, step: Step, id: nat, p: nat)
    requires |s.busy| == TRANSFERS && Enabled(s, step)
    requires id in After(s, step).activities && p < Passed(After(s, step).activities[id])
    requires !FoundBusy(s, step, id, p)
    ensures id in s.activities && p < Passed(s.activities[id])
  {
    if step.Act? {
      ActPasses(s.activities[step.id], s.running, s.busy, step.ok);
    }
  }

  /** An answer goes without a playback transfer only after its routine has found each of them in use. */
  lemma {:induction false} PassedWereBusy(states: seq<State>, steps: seq<Step>, i: nat, id: nat, p: nat)
    requires IsRun(states, steps) && i < |states| && id in states[i].activities
    requires p < Passed(states[i].activities[id])
    ensures exists k :: 0 <= k < i && FoundBusy(states[k], steps[k], id, p)
  {
    if i > 0 {
      RunsKeep(states, steps, i - 1);
      RunStep(states, steps, i - 1);
      if !FoundBusy(states[i - 1], steps[i - 1], id, p) {
        StepPasses(states[i - 1], steps[i - 1], id, p);
        PassedWereBusy(states, steps, i - 1, id, p);
      }
    }
  }

  /** An answer goes without a playback transfer only after its routine has found each of them in use. */
  lemma UnplayedFoundAllBusy(states: seq<State>, steps: seq<Step>, i: nat, id: nat, p: nat)
    requires IsRun(states, steps) && i < |states| && id in states[i].activities && p < TRANSFERS
    requires states[i].activities[id].Answering? && states[i].activities[id].playback.None?
    ensures exists k :: 0 <= k < i && FoundBusy(states[k], steps[k], id, p)
  {
    PassedWereBusy(states, steps, i, id, p);
  }

  /** The step claims a free playback transfer for an answer. */
  predicate Claims(s: State, step: Step) {
    && step.Act? && step.id in s.activities && s.activities[step.id].Claiming?
    && s.activities[step.id].slot < |s.busy| && !s.busy[s.activities[step.id].slot]
  }

  /** Answers with a playback transfer, until the stack is done with it. */
  function Carries(a: Activity): nat {
    if (a.Answering? && a.playback.Some?) || a.PlaybackSending? || a.PlaybackCounted? || a.PlaybackSent? then 1 else 0
  }

  /** The step finds nothing to play in an answer, or cannot send it. */
  predicate GivesUp(s: State, step: Step) {
    step.Act? && !step.ok && step.id in s.activities && Carries(s.activities[step.id]) == 1
      && !s.activities[step.id].PlaybackSent?
  }

  /** The stack is done with an answer. */
  predicate PlaysOut(s: State, step: Step) {
    step.Act? && step.id in s.activities && s.activities[step.id].PlaybackSent?
  }

  /** How many of the first `i` steps of a run are `what`. */
  ghost function Times(states: seq<State>, steps: seq<Step>, i: nat, what: (State, Step) -> bool): nat
    requires i <= |steps| < |states|
  {
    if i == 0 then 0
    else Times(states, steps, i - 1, what) + if what(states[i - 1], steps[i - 1]) then 1 else 0
  }

  function Flag(b: bool): nat {
    if b then 1 else 0
  }

  lemma ActCarries(a: Activity, running: bool, busy: seq<bool>, ok: bool)
    ensures var o := Acting(a, running, busy, ok);
            Worth(o.next, Carries) + Worth(o.sent, Carries)
              == Carries(a) + Flag(a.Claiming? && a.slot < |busy| && !busy[a.slot])
                   - Flag(Carries(a) == 1 && (a.PlaybackSent? || !ok))
  {
  }

  lemma StepCarries(s: State, step: Step)
    requires Enabled(s, step)
    ensures Total(After(s, step).activities, Carries) + Flag(GivesUp(s, step)) + Flag(PlaysOut(s, step))
              == Total(s.activities, Carries) + Flag(Claims(s, step))
  {
    match step
    case Act(id, ok, sent) =>
      var a := s.activities[id];
      ActCarries(a, s.running, s.busy, ok);
      TotalAfter(s.activities, Carries, id, Acting(a, s.running, s.busy, ok), sent);
    case Drive(ok, sent) =>
      if s.control.SubmitCounted? && ok {
        TotalWith(s.activities, Carries, sent, CaptureSent(s.control.i));
      }
  }

  /**
   Every playback transfer claimed has been played out, has been given up because
   there was nothing to play or a send failed, or is on its way: none is forgotten.
   */
  lemma {:induction false} ClaimsAreAccountedFor(states: seq<State>, steps: seq<Step>, i: nat)
    requires IsRun(states, steps) && i < |states|
    ensures Times(states, steps, i, Claims)
              == Times(states, steps, i, PlaysOut) + Times(states, steps, i, GivesUp)
                   + Total(states[i].activities, Carries)
  {
    if i > 0 {
      ClaimsAreAccountedFor(states, steps, i - 1);
      RunStep(states, steps, i - 1);
      StepCarries(states[i - 1], steps[i - 1]);
    }
  }

  // -------------------------------------------------------------------- stopping

  ghost predicate PurgesFit(s: State) {
    && (s.control.PurgingPlayback? || s.control.Waiting? || s.control.Restarting? ==> s.capturePurged)
    && (s.control.Waiting? || s.control.Restarting? ==> s.playbackPurged)
    && (!Stopping(s.control) || s.control.Stopped? || s.control.Freed? ==> !s.capturePurged && !s.playbackPurged)
  }

  lemma PurgesKept(s: State, step: Step)
    requires Enabled(s, step) && PurgesFit(s)
    ensures PurgesFit(After(s, step))
  {
  }

  lemma {:induction false} PurgesHold(states: seq<State>, steps: seq<Step>, i: nat)
    requires IsRun(states, steps) && i < |states|
    ensures PurgesFit(states[i])
  {
    if i > 0 {
      PurgesHold(states, steps, i - 1);
      RunStep(states, steps, i - 1);
      PurgesKept(states[i - 1], steps[i - 1]);
    }
  }

  function Requests(a: Activity): nat {
    if a.CaptureSent? || a.PlaybackSent? then 1 else 0
  }

  lemma ActRequests(a: Activity, running: bool, busy: seq<bool>, ok: bool)
    requires ok ==> !a.PlaybackCounted? && !a.CaptureCounted?
    ensures var o := Acting(a, running, busy, ok);
            Worth(o.next, Requests) + Worth(o.sent, Requests) <= Requests(a)
  {
  }

  /** While `stop` waits for the count nothing new reaches the stack, whatever completes. */
  lemma NothingIsSentWhileWaiting(states: seq<State>, steps: seq<Step>, i: nat)
    requires IsRun(states, steps) && i < |steps| && states[i].control.Waiting?
    ensures Total(states[i + 1].activities, Requests) <= Total(states[i].activities, Requests)
  {
    PurgesHold(states, steps, i);
    RunStep(states, steps, i);
    var s, step := states[i], steps[i];
    if step.Act? {
      var a := s.activities[step.id];
      ActRequests(a, s.running, s.busy, step.ok);
      TotalAfter(s.activities, Requests, step.id, Acting(a, s.running, s.busy, step.ok), step.sent);
    }
  }

  /** An engine that is stopped leaves both pipes able to send again. */
  lemma PipesRestart(states: seq<State>, steps: seq<Step>, i: nat)
    requires IsRun(states, steps) && i < |states| && (states[i].control.Stopped? || states[i].control.Freed?)
    ensures !states[i].capturePurged && !states[i].playbackPurged
  {
    PurgesHold(states, steps, i);
  }
}
