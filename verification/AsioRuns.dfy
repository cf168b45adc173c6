/**
 Every run of a session: the card captures and plays frames a transfer at a
 time, and between transfers the host reads periods and answers each with one
 period of output. Reading and writing are separate requests, so a period may
 be held by the host while transfers go on.
 */
module AsioRuns {
  import opened Arithmetic
  import opened AsioBuffers

  /**
   A session and what has happened to it: the frames captured so far, how many
   the host has read and how many were dropped, how many it holds unanswered,
   and the captured frames of the current transfer not yet matched by a played one;
   the silence a session starts with and all that was written after it, how many
   of those frames were played or pushed over, and how often there was none to play.
   */
  datatype Run = Run(session: Session, history: seq<InFrame>, read: nat, dropped: nat, held: nat, pending: nat,
                     queued: seq<OutFrame>, gone: nat, silent: nat)

  datatype Step =
    | Capture(frame: InFrame)
    | Render
    | EndTransfer
    | Read
    | Write(frames: seq<OutFrame>)

  /**
   Within a transfer frames are captured before they are answered by played
   ones, and the audio lock keeps the host out. A transfer that finds no free
   playback buffer ends without playing. The host answers a period before it
   reads the next.
   */
  predicate Enabled(r: Run, step: Step) {
    match step
    case Capture(_) => true
    case Render => r.pending > 0
    case EndTransfer => true
    case Read => r.pending == 0 && r.held == 0
    case Write(frames) => r.pending == 0 && r.held == |frames| == r.session.period
  }

  function After(r: Run, step: Step): Run {
    var s := r.session;
    match step
    case Capture(frame) =>
      r.(session := s.Capture(frame), history := r.history + [frame], pending := r.pending + 1,
         dropped := r.dropped + if |s.input| < s.InputRoom() then 0 else 1)
    case Render =>
      var next := r.(session := s.Render(), pending := if r.pending > 0 then r.pending - 1 else 0);
      if r.gone < |r.queued| then next.(gone := r.gone + 1) else next.(silent := r.silent + 1)
    case EndTransfer => r.(pending := 0)
    case Read =>
      if s.Readable() then r.(session := s.Read(), read := r.read + s.period, held := s.period) else r
    case Write(frames) =>
      var queued := r.queued + frames;
      r.(session := s.Write(frames), held := 0, queued := queued, gone := Max(r.gone, |queued| - s.OutputRoom()))
  }

  function Begun(period: nat, transfer: nat): Run {
    Run(Started(period, transfer), [], 0, 0, 0, 0, seq(2 * period + transfer, _ => (0, 0, 0, 0)), 0, 0)
  }

  ghost predicate StepAt(runs: seq<Run>, steps: seq<Step>, i: nat)
    requires i < |steps| < |runs|
  {
    Enabled(runs[i], steps[i]) && runs[i + 1] == After(runs[i], steps[i])
  }

  /** `runs` goes through `steps` from the start of a session. */
  ghost predicate IsRun(period: nat, transfer: nat, runs: seq<Run>, steps: seq<Step>) {
    && |runs| == |steps| + 1
    && runs[0] == Begun(period, transfer)
    && (forall i | 0 <= i < |steps| :: StepAt(runs, steps, i))
  }

  /** The input ring holds exactly the newest captured frames not yet read, in order. */
  ghost predicate InputIsNewest(r: Run) {
    && r.read + r.dropped <= |r.history|
    && r.session.input == r.history[r.read + r.dropped..]
  }

  /** The output ring holds exactly the frames queued and not gone, in order. */
  ghost predicate OutputIsNewest(r: Run) {
    r.gone <= |r.queued| && r.session.output == r.queued[r.gone..]
  }

  ghost predicate CountersAgree(r: Run)
    requires r.session.period >= 1
  {
    && r.session.captured == |r.history| % r.session.period
    && r.read % r.session.period == 0
    && r.session.droppedFrames == Min(r.dropped, MAX_COUNT)
    && r.session.silentFrames == Min(r.silent, MAX_COUNT)
    && (r.held == 0 || r.held == r.session.period)
  }

  /**
   Frames are only ever missing between input and output while the input is full:
   otherwise what is unread, held or waiting to play makes up the latency and
   what the current transfer has yet to play.
   */
  ghost predicate Conserved(r: Run) {
    var s := r.session;
    |s.input| == s.InputRoom() || |s.input| + r.held + |s.output| >= s.OutputRoom() + r.pending
  }

  ghost predicate Invariant(r: Run) {
    && r.session.period >= 1 && r.session.Valid()
    && InputIsNewest(r) && OutputIsNewest(r) && CountersAgree(r) && Conserved(r)
  }

  lemma BegunIsInvariant(period: nat, transfer: nat)
    requires period >= 1
    ensures Invariant(Begun(period, transfer))
  {
  }

  lemma CaptureKeeps(r: Run, frame: InFrame)
    requires Invariant(r)
    ensures Invariant(After(r, Capture(frame)))
  {
    var s, next := r.session, After(r, Capture(frame));
    ModAdd(|r.history|, 1, s.period);
    if s.captured + 1 == s.period {
      DivModUnique(s.captured + 1, s.period, 1, 0);
    } else {
      DivModUnique(s.captured + 1, s.period, 0, s.captured + 1);
    }
    assert s.input + [frame] == next.history[r.read + r.dropped..];
  }

  /** Pushing over a queue that is the end of a row leaves the end of the longer row. */
  lemma EndOfRow<T>(row: seq<T>, gone: nat, room: nat, xs: seq<T>)
    requires gone <= |row| && |row| - gone <= room
    ensures var end := Max(gone, |row| + |xs| - room);
            0 <= end <= |row + xs| && PushedAll(row[gone..], room, xs) == (row + xs)[end..]
  {
    PushedAllKeepsNewest(row[gone..], room, xs);
    assert row[gone..] + xs == (row + xs)[gone..];
  }

  lemma WriteKeeps(r: Run, frames: seq<OutFrame>)
    requires Invariant(r) && Enabled(r, Write(frames))
    ensures Invariant(After(r, Write(frames)))
  {
    EndOfRow(r.queued, r.gone, r.session.OutputRoom(), frames);
  }

  lemma ReadKeeps(r: Run)
    requires Invariant(r) && Enabled(r, Read)
    ensures Invariant(After(r, Read))
  {
    if r.session.Readable() {
      ModAdd(r.read, r.session.period, r.session.period);
      DivModUnique(r.session.period, r.session.period, 1, 0);
      assert r.session.input[r.session.period..] == r.history[r.read + r.session.period + r.dropped..];
    }
  }

  lemma StepKeeps(r: Run, step: Step)
    requires Invariant(r) && Enabled(r, step)
    ensures Invariant(After(r, step))
  {
    match step
    case Capture(frame) => CaptureKeeps(r, frame);
    case Render =>
    case EndTransfer =>
    case Read => ReadKeeps(r);
    case Write(frames) => WriteKeeps(r, frames);
  }

  /** Every state of every run is as the invariant says. */
  lemma {:induction false} RunsKeep(period: nat, transfer: nat, runs: seq<Run>, steps: seq<Step>, i: nat)
    requires period >= 1 && IsRun(period, transfer, runs, steps) && i < |runs|
    ensures Invariant(runs[i]) && runs[i].session.period == period && runs[i].session.transfer == transfer
  {
    if i == 0 {
      BegunIsInvariant(period, transfer);
    } else {
      RunsKeep(period, transfer, runs, steps, i - 1);
      assert StepAt(runs, steps, i - 1);
      StepKeeps(runs[i - 1], steps[i - 1]);
    }
  }

  /** At transfer boundaries the frames on their way never fall below two periods and a transfer. */
  lemma LatencyNeverShrinks(period: nat, transfer: nat, runs: seq<Run>, steps: seq<Step>, i: nat)
    requires period >= 1 && IsRun(period, transfer, runs, steps) && i < |runs|
    requires runs[i].pending == 0
    ensures var r := runs[i];
            |r.session.input| + r.held + |r.session.output| >= 2 * period + transfer
    ensures runs[i].session.input == [] && runs[i].held == 0 ==> |runs[i].session.output| == 2 * period + transfer
  {
    RunsKeep(period, transfer, runs, steps, i);
  }

  /** Silence plays only while the host is a whole latency behind. */
  lemma SilenceMeansLate(period: nat, transfer: nat, runs: seq<Run>, steps: seq<Step>, i: nat)
    requires period >= 1 && IsRun(period, transfer, runs, steps) && i < |steps|
    requires steps[i] == Render && runs[i].session.output == []
    ensures |runs[i].session.input| + runs[i].held >= 2 * period + transfer
  {
    RunsKeep(period, transfer, runs, steps, i);
    assert StepAt(runs, steps, i);
  }

  /** Every captured frame has been read, has been dropped or is unread, and the counters agree on how many. */
  lemma FramesAreAccountedFor(period: nat, transfer: nat, runs: seq<Run>, steps: seq<Step>, i: nat)
    requires period >= 1 && IsRun(period, transfer, runs, steps) && i < |runs|
    ensures var r := runs[i];
            && |r.history| == r.read + r.dropped + |r.session.input|
            && r.session.input == r.history[|r.history| - |r.session.input|..]
            && (|r.session.input| + r.dropped) % period == r.session.captured
  {
    RunsKeep(period, transfer, runs, steps, i);
    var r := runs[i];
    ModAdd(r.read, |r.session.input| + r.dropped, period);
  }

  lemma InStep(unread: nat, dropped: nat, period: nat)
    requires period >= 1 && unread >= 1 && (unread + dropped) % period == 0
    ensures dropped == 0 ==> unread >= period
    ensures unread <= period ==> (unread == period <==> dropped % period == 0)
  {
    ModAdd(dropped, unread, period);
    if unread < period {
      DivModUnique(unread, period, 0, unread);
    } else if unread == period {
      ModAdd(unread, dropped, period);
      DivModUnique(unread, period, 1, 0);
    }
  }

  /**
   A period signalled complete is there to be read unless frames have been
   dropped. In general it is there exactly when there was one already or the
   drops make up whole periods, so that the signal and the ring are in step.
   */
  lemma SignalMeansReadable(period: nat, transfer: nat, runs: seq<Run>, steps: seq<Step>, i: nat)
    requires period >= 1 && IsRun(period, transfer, runs, steps) && i < |steps|
    requires steps[i].Capture? && runs[i].session.Completes()
    ensures runs[i + 1].dropped == 0 ==> runs[i + 1].session.Readable()
    ensures runs[i + 1].session.Readable() <==>
              |runs[i].session.input| >= period || runs[i + 1].dropped % period == 0
  {
    RunsKeep(period, transfer, runs, steps, i);
    assert StepAt(runs, steps, i);
    FramesAreAccountedFor(period, transfer, runs, steps, i + 1);
    InStep(|runs[i + 1].session.input|, runs[i + 1].dropped, period);
  }

  /** A captured frame signals a period exactly if the frames captured so far are then whole periods. */
  lemma SignalEveryPeriod(period: nat, transfer: nat, runs: seq<Run>, steps: seq<Step>, i: nat)
    requires period >= 1 && IsRun(period, transfer, runs, steps) && i < |steps| && steps[i].Capture?
    ensures |runs[i + 1].history| == |runs[i].history| + 1
    ensures runs[i].session.Completes() <==> |runs[i + 1].history| % period == 0
  {
    RunsKeep(period, transfer, runs, steps, i);
    RunsKeep(period, transfer, runs, steps, i + 1);
    assert StepAt(runs, steps, i);
  }

  /**
   What a session plays is the silence it started with and then all that was
   written, in order and without what was pushed over; and when all of that is
   gone silence, each frame of it counted up to the 32-bit limit.
   */
  lemma PlaysInOrder(period: nat, transfer: nat, runs: seq<Run>, steps: seq<Step>, i: nat)
    requires period >= 1 && IsRun(period, transfer, runs, steps) && i < |steps| && steps[i] == Render
    ensures var (r, t) := (runs[i], runs[i + 1]);
            && r.session.Rendered() == (if r.gone < |r.queued| then r.queued[r.gone] else (0, 0, 0, 0))
            && t.gone == r.gone + (if r.gone < |r.queued| then 1 else 0)
            && t.silent == r.silent + (if r.gone < |r.queued| then 0 else 1)
            && t.session.silentFrames == Min(t.silent, 0xFFFF_FFFF)
  {
    RunsKeep(period, transfer, runs, steps, i);
    RunsKeep(period, transfer, runs, steps, i + 1);
    assert StepAt(runs, steps, i);
  }

  // ------------------------------------------- a signal without a period

  lemma Extended(period: nat, transfer: nat, runs: seq<Run>, steps: seq<Step>, step: Step)
    returns (runs': seq<Run>, steps': seq<Step>)
    requires IsRun(period, transfer, runs, steps) && Enabled(runs[|steps|], step)
    ensures IsRun(period, transfer, runs', steps')
    ensures steps' == steps + [step] && runs' == runs + [After(runs[|steps|], step)]
  {
    runs', steps' := runs + [After(runs[|steps|], step)], steps + [step];
    forall i | 0 <= i < |steps'| ensures StepAt(runs', steps', i) {
      if i < |steps| {
        assert StepAt(runs, steps, i);
      }
    }
  }

  /** A transfer of `n` frames that no one reads. */
  lemma {:induction false} Stalled(period: nat, transfer: nat, n: nat) returns (runs: seq<Run>, steps: seq<Step>)
    requires period >= 1
    ensures IsRun(period, transfer, runs, steps)
    ensures var r := runs[|steps|];
            r.held == 0 && |r.history| == n && |r.session.input| == Min(n, 4 * period + 2 * transfer)
  {
    if n == 0 {
      runs, steps := [Begun(period, transfer)], [];
    } else {
      runs, steps := Stalled(period, transfer, n - 1);
      RunsKeep(period, transfer, runs, steps, |steps|);
      runs, steps := Extended(period, transfer, runs, steps, Capture(NO_INPUT));
    }
  }

  /** The host reads and answers all it can. */
  lemma {:induction false} Drained(period: nat, transfer: nat, runs: seq<Run>, steps: seq<Step>)
    returns (runs': seq<Run>, steps': seq<Step>)
    requires period >= 1 && IsRun(period, transfer, runs, steps)
    requires runs[|steps|].pending == 0 && runs[|steps|].held == 0
    ensures IsRun(period, transfer, runs', steps')
    ensures runs'[|steps'|].history == runs[|steps|].history && runs'[|steps'|].dropped == runs[|steps|].dropped
    ensures |runs'[|steps'|].session.input| < period
    decreases |runs[|steps|].session.input|
  {
    runs', steps' := runs, steps;
    RunsKeep(period, transfer, runs, steps, |steps|);
    if |runs[|steps|].session.input| >= period {
      runs', steps' := Extended(period, transfer, runs', steps', Read);
      runs', steps' := Extended(period, transfer, runs', steps', Write(Silent(period)));
      runs', steps' := Drained(period, transfer, runs', steps');
    }
  }

  /** One frame dropped is enough for a period to be signalled that is not there. */
  lemma SignalWithoutPeriod() returns (runs: seq<Run>, steps: seq<Step>)
    ensures IsRun(2, 1, runs, steps) && |steps| > 0
    ensures var last := |steps| - 1;
            && steps[last].Capture? && runs[last].session.Completes()
            && !runs[last + 1].session.Readable() && runs[last + 1].dropped == 1
  {
    runs, steps := Stalled(2, 1, 11);
    FramesAreAccountedFor(2, 1, runs, steps, |steps|);
    RunsKeep(2, 1, runs, steps, |steps|);
    runs, steps := Extended(2, 1, runs, steps, EndTransfer);
    runs, steps := Drained(2, 1, runs, steps);
    RunsKeep(2, 1, runs, steps, |steps|);
    runs, steps := Extended(2, 1, runs, steps, Capture(NO_INPUT));
    SignalMeansReadable(2, 1, runs, steps, |steps| - 1);
  }
}
