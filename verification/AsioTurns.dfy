/**
 The turns of card and host that the latency is told in are runs of a session:
 every transfer and every host's turn is a row of enabled steps that ends in
 the same session, having played the same frames.
 */
module AsioTurns {
  import opened AsioBuffers
  import opened AsioLatency
  import opened AsioRuns
  import opened Sequences

  function PlayedBy(r: Run, step: Step): seq<OutFrame> {
    if step.Render? then [r.session.Rendered()] else []
  }

  /** A run so far: its states and the steps between them. */
  datatype Trace = Trace(runs: seq<Run>, steps: seq<Step>) {

    ghost predicate Runs(period: nat, transfer: nat) {
      IsRun(period, transfer, runs, steps)
    }

    function Last(): Run
      requires |runs| == |steps| + 1
    {
      runs[|steps|]
    }

    /** The frames played by the steps so far. */
    function Played(): seq<OutFrame>
      requires |runs| == |steps| + 1
      decreases |steps|
    {
      if steps == [] then []
      else
        var i := |steps| - 1;
        Trace(runs[..i + 1], steps[..i]).Played() + PlayedBy(runs[i], steps[i])
    }

    function Then(step: Step): Trace
      requires |runs| == |steps| + 1
    {
      Trace(runs + [After(Last(), step)], steps + [step])
    }
  }

  lemma ThenRuns(trace: Trace, step: Step, period: nat, transfer: nat)
    requires trace.Runs(period, transfer) && Enabled(trace.Last(), step)
    ensures trace.Then(step).Runs(period, transfer)
    ensures trace.Then(step).Last() == After(trace.Last(), step)
    ensures trace.Then(step).Played() == trace.Played() + PlayedBy(trace.Last(), step)
  {
    var (next, n) := (trace.Then(step), |trace.steps|);
    var runs, steps := Extended(period, transfer, trace.runs, trace.steps, step);
    assert Trace(runs, steps) == next;
    assert next.runs[..n + 1] == trace.runs && next.steps[..n] == trace.steps;
    assert Trace(next.runs[..n + 1], next.steps[..n]) == trace;
  }

  lemma {:induction false} CapturesRun(trace: Trace, xs: seq<InFrame>, period: nat, transfer: nat) returns (next: Trace)
    requires trace.Runs(period, transfer)
    ensures next.Runs(period, transfer) && next.Played() == trace.Played()
    ensures next.Last().session == CaptureAll(trace.Last().session, xs)
    ensures next.Last().pending == trace.Last().pending + |xs| && next.Last().held == trace.Last().held
    ensures next.Last().history == trace.Last().history + xs
    decreases |xs|
  {
    next := trace;
    if xs == [] {
      assert trace.Last().history + xs == trace.Last().history;
    } else {
      ThenRuns(trace, Capture(xs[0]), period, transfer);
      next := CapturesRun(trace.Then(Capture(xs[0])), xs[1..], period, transfer);
      assert trace.Last().history + [xs[0]] + xs[1..] == trace.Last().history + xs;
    }
  }

  lemma {:induction false} RendersRun(trace: Trace, n: nat, period: nat, transfer: nat) returns (next: Trace)
    requires trace.Runs(period, transfer) && n <= trace.Last().pending
    ensures next.Runs(period, transfer)
    ensures next.Played() == trace.Played() + RenderAll(trace.Last().session, n).1
    ensures next.Last().session == RenderAll(trace.Last().session, n).0
    ensures next.Last().pending == trace.Last().pending - n && next.Last().held == trace.Last().held
    ensures next.Last().history == trace.Last().history
    decreases n
  {
    next := trace;
    if n > 0 {
      ThenRuns(trace, Render, period, transfer);
      next := RendersRun(trace.Then(Render), n - 1, period, transfer);
      ConcatAssociates(trace.Played(), [trace.Last().session.Rendered()],
                       RenderAll(trace.Last().session.Render(), n - 1).1);
    }
  }

  /** The packets of a transfer, one after the other. */
  lemma {:induction false} TransferRuns(trace: Trace, packets: seq<seq<InFrame>>, period: nat, transfer: nat)
    returns (next: Trace)
    requires trace.Runs(period, transfer) && trace.Last().pending == 0
    ensures next.Runs(period, transfer)
    ensures next.Played() == trace.Played() + Transfer(trace.Last().session, packets).1
    ensures next.Last().session == Transfer(trace.Last().session, packets).0
    ensures next.Last().pending == 0 && next.Last().held == trace.Last().held
    ensures next.Last().history == trace.Last().history + Joined(packets)
    decreases |packets|
  {
    next := trace;
    if packets == [] {
      assert trace.Last().history + Joined(packets) == trace.Last().history;
    } else {
      var s, xs := trace.Last().session, packets[0];
      next := CapturesRun(next, xs, period, transfer);
      next := RendersRun(next, |xs|, period, transfer);
      next := TransferRuns(next, packets[1..], period, transfer);
      ConcatAssociates(trace.Played(), Packet(s, xs).1, Transfer(Packet(s, xs).0, packets[1..]).1);
      ConcatAssociates(trace.Last().history, xs, Joined(packets[1..]));
    }
  }

  /** The host's turn: it reads each whole period and answers it before the next. */
  lemma {:induction false} RespondRuns(trace: Trace, host: Host, heard: seq<InFrame>, period: nat, transfer: nat)
    returns (next: Trace)
    requires trace.Runs(period, transfer) && trace.Last().pending == 0 && trace.Last().held == 0
    requires Answering(host, period) && trace.Last().session.period == period
    ensures next.Runs(period, transfer) && next.Played() == trace.Played()
    ensures next.Last().session == Respond(trace.Last().session, host, heard).0
    ensures next.Last().pending == 0 && next.Last().held == 0
    ensures next.Last().history == trace.Last().history
    decreases |trace.Last().session.input|
  {
    next := trace;
    var s := trace.Last().session;
    if s.Readable() {
      var now := heard + s.input[..period];
      ThenRuns(next, Read, period, transfer);
      next := next.Then(Read);
      ThenRuns(next, Write(host(now)), period, transfer);
      next := next.Then(Write(host(now)));
      next := RespondRuns(next, host, now, period, transfer);
    }
  }

  /** Any transfers, each with the host's turn after it, from any state of any run between transfers. */
  lemma {:induction false} RoundsRun(trace: Trace, host: Host, heard: seq<InFrame>,
                                     transfers: seq<seq<seq<InFrame>>>, period: nat, transfer: nat)
    returns (next: Trace)
    requires trace.Runs(period, transfer) && trace.Last().pending == 0 && trace.Last().held == 0
    requires Answering(host, period) && trace.Last().session.period == period
    ensures var t := Rounds(trace.Last().session, host, heard, transfers);
            && next.Runs(period, transfer) && next.Last().session == t.session
            && next.Played() == trace.Played() + t.played
    ensures next.Last().pending == 0 && next.Last().held == 0
    ensures next.Last().history == trace.Last().history + AllFrames(transfers)
    decreases |transfers|
  {
    next := trace;
    var s := trace.Last().session;
    if transfers == [] {
      assert trace.Last().history + AllFrames(transfers) == trace.Last().history;
    } else {
      var first := Round(s, host, heard, transfers[0]);
      TransferKeepsPeriod(s, transfers[0]);
      RoundKeepsPeriod(s, host, heard, transfers[0]);
      next := TransferRuns(next, transfers[0], period, transfer);
      next := RespondRuns(next, host, heard, period, transfer);
      next := RoundsRun(next, host, first.heard, transfers[1..], period, transfer);
      ConcatAssociates(trace.Played(), first.played,
                       Rounds(first.session, host, first.heard, transfers[1..]).played);
      ConcatAssociates(trace.Last().history, Joined(transfers[0]), AllFrames(transfers[1..]));
    }
  }

  /** What `PromptHostLatency` tells is played, and heard of a run, from the start of a session. */
  lemma SessionRuns(period: nat, transfer: nat, host: Host, transfers: seq<seq<seq<InFrame>>>) returns (trace: Trace)
    requires Answering(host, period)
    ensures var t := Rounds(Started(period, transfer), host, [], transfers);
            && trace.Runs(period, transfer) && trace.Last().session == t.session && trace.Played() == t.played
    ensures trace.Last().history == AllFrames(transfers)
  {
    trace := RoundsRun(Trace([Begun(period, transfer)], []), host, [], transfers, period, transfer);
  }
}
