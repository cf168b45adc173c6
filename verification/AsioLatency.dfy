/**
 The latency of a session whose host answers between transfers: two periods
 and a transfer from the start for a host that keeps up, and again after a stall.
 */
module AsioLatency {
  import opened Arithmetic
  import opened AsioBuffers
  import opened Sequences
  import AsioRuns

  /** Any host: what it has heard so far, all of it, decides the period it answers with. */
  type Host = seq<InFrame> -> seq<OutFrame>

  ghost predicate Answering(host: Host, period: nat) {
    period >= 1 && (forall heard: seq<InFrame> :: |host(heard)| == period)
  }

  /** The answers to the whole periods of `input`, after `heard`. */
  function Answers(host: Host, period: nat, heard: seq<InFrame>, input: seq<InFrame>): seq<OutFrame>
    requires period >= 1
    decreases |input|
  {
    if |input| < period then []
    else host(heard + input[..period]) + Answers(host, period, heard + input[..period], input[period..])
  }

  /** How much of `n` frames is whole periods. */
  function Whole(n: nat, period: nat): nat
    requires period >= 1
  {
    n - n % period
  }

  lemma OnePeriodLess(n: nat, period: nat)
    requires period >= 1 && n >= period
    ensures n % period == (n - period) % period && Whole(n, period) == Whole(n - period, period) + period
  {
    ModAdd(period, n - period, period);
    DivModUnique(period, period, 1, 0);
  }

  lemma NoPeriod(n: nat, period: nat)
    requires n < period
    ensures n % period == n && Whole(n, period) == 0
  {
    DivModUnique(n, period, 0, n);
  }

  lemma SkipPeriod<T>(heard: seq<T>, input: seq<T>, period: nat, less: nat)
    requires period + less <= |input|
    ensures input[period..][less..] == input[less + period..]
    ensures heard + input[..period] + input[period..][..less] == heard + input[..less + period]
  {
  }

  lemma SplitFront<T>(front: seq<T>, back: seq<T>, n: nat)
    requires n <= |front|
    ensures (front + back)[..n] == front[..n] && (front + back)[n..] == front[n..] + back
  {
  }

  lemma WholeOfLess(n: nat, period: nat)
    requires period >= 1
    ensures n < period ==> Whole(n, period) == 0
  {
    if n < period {
      NoPeriod(n, period);
    }
  }

  lemma {:induction false} AnswersLength(host: Host, period: nat, heard: seq<InFrame>, input: seq<InFrame>)
    requires Answering(host, period)
    ensures |Answers(host, period, heard, input)| == Whole(|input|, period)
    decreases |input|
  {
    if |input| < period {
      NoPeriod(|input|, period);
    } else {
      OnePeriodLess(|input|, period);
      AnswersLength(host, period, heard + input[..period], input[period..]);
    }
  }

  /** Answering as the input comes is answering it all at once. */
  lemma {:induction false} AnswersJoin(host: Host, period: nat, heard: seq<InFrame>,
                                       front: seq<InFrame>, back: seq<InFrame>)
    requires period >= 1
    ensures var whole := Whole(|front|, period);
            0 <= whole <= |front| &&
            Answers(host, period, heard, front + back) ==
              Answers(host, period, heard, front) + Answers(host, period, heard + front[..whole], front[whole..] + back)
    decreases |front|
  {
    if |front| < period {
      NoPeriod(|front|, period);
      assert heard + front[..0] == heard && front[0..] + back == front + back;
    } else {
      OnePeriodLess(|front|, period);
      var next, rest := heard + front[..period], front[period..];
      AnswersJoin(host, period, next, rest, back);
      SplitFront(front, back, period);
      SkipPeriod(heard, front, period, Whole(|rest|, period));
      ConcatAssociates(host(next), Answers(host, period, next, rest),
                       Answers(host, period, heard + front[..Whole(|front|, period)],
                               front[Whole(|front|, period)..] + back));
    }
  }

  /**
   The host's answer to input frame `j`: that frame of its period's answer, given
   all input up to the period's end.
   */
  function AnswerTo(host: Host, period: nat, heard: seq<InFrame>, input: seq<InFrame>, j: nat): OutFrame
    requires Answering(host, period) && Whole(j, period) + period <= |input|
  {
    host(heard + input[..Whole(j, period) + period])[j % period]
  }

  /** Answer `i` is part of the answer to the period it belongs to, given all the input up to that period's end. */
  lemma {:induction false} AnswerAt(host: Host, period: nat, heard: seq<InFrame>, input: seq<InFrame>, i: nat)
    requires Answering(host, period) && i < Whole(|input|, period)
    ensures |Answers(host, period, heard, input)| == Whole(|input|, period)
    ensures Whole(i, period) + period <= |input|
    ensures Answers(host, period, heard, input)[i] == AnswerTo(host, period, heard, input, i)
    decreases |input|
  {
    AnswersLength(host, period, heard, input);
    WholeOfLess(|input|, period);
    if |input| >= period {
      OnePeriodLess(|input|, period);
      if i < period {
        NoPeriod(i, period);
      } else {
        OnePeriodLess(i, period);
        AnswerAt(host, period, heard + input[..period], input[period..], i - period);
        var end := Whole(i, period) + period;
        assert heard + input[..period] + input[period..][..end - period] == heard + input[..end];
      }
    }
  }

  // ---------------------------------------------------------- the host's turn

  /** The host reads every complete period and answers it. */
  function Respond(s: Session, host: Host, heard: seq<InFrame>): (Session, seq<InFrame>)
    requires s.period >= 1
    decreases |s.input|
  {
    if !s.Readable() then (s, heard)
    else
      var next := heard + s.input[..s.period];
      Respond(s.Read().Write(host(next)), host, next)
  }

  lemma {:induction false} RespondIs(s: Session, host: Host, heard: seq<InFrame>)
    requires s.period >= 1
    ensures var whole := Whole(|s.input|, s.period);
            0 <= whole <= |s.input| &&
            Respond(s, host, heard) ==
              (s.(input := s.input[whole..],
                  output := PushedAll(s.output, s.OutputRoom(), Answers(host, s.period, heard, s.input))),
               heard + s.input[..whole])
    decreases |s.input|
  {
    if !s.Readable() {
      NoPeriod(|s.input|, s.period);
      assert s.input[0..] == s.input && heard + s.input[..0] == heard;
    } else {
      OnePeriodLess(|s.input|, s.period);
      var next := heard + s.input[..s.period];
      var onwards := s.Read().Write(host(next));
      RespondIs(onwards, host, next);
      PushedAllAppend(s.output, s.OutputRoom(), host(next), Answers(host, s.period, next, onwards.input));
      SkipPeriod(heard, s.input, s.period, Whole(|onwards.input|, s.period));
    }
  }

  // ------------------------------------------------------------- the card's turn

  function CaptureAll(s: Session, xs: seq<InFrame>): Session
    decreases |xs|
  {
    if xs == [] then s else CaptureAll(s.Capture(xs[0]), xs[1..])
  }

  function RenderAll(s: Session, n: nat): (Session, seq<OutFrame>)
    decreases n
  {
    if n == 0 then (s, [])
    else
      var (last, played) := RenderAll(s.Render(), n - 1);
      (last, [s.Rendered()] + played)
  }

  /** One packet: its captured frames, then as many played ones. */
  function Packet(s: Session, xs: seq<InFrame>): (Session, seq<OutFrame>) {
    RenderAll(CaptureAll(s, xs), |xs|)
  }

  function Joined<T>(parts: seq<seq<T>>): seq<T> {
    if parts == [] then [] else parts[0] + Joined(parts[1..])
  }

  /** A transfer is its packets in order; the host waits for the lock. */
  function Transfer(s: Session, packets: seq<seq<InFrame>>): (Session, seq<OutFrame>)
    decreases |packets|
  {
    if packets == [] then (s, [])
    else
      var (next, played) := Packet(s, packets[0]);
      var (last, more) := Transfer(next, packets[1..]);
      (last, played + more)
  }

  lemma {:induction false} CaptureAllIs(s: Session, xs: seq<InFrame>)
    requires |s.input| + |xs| <= s.InputRoom()
    ensures var t := CaptureAll(s, xs); t == s.(input := s.input + xs, captured := t.captured)
    decreases |xs|
  {
    if xs == [] {
      assert s.input + xs == s.input;
    } else {
      CaptureAllIs(s.Capture(xs[0]), xs[1..]);
      assert s.Capture(xs[0]).input + xs[1..] == s.input + xs;
    }
  }

  lemma {:induction false} RenderAllIs(s: Session, n: nat)
    requires n <= |s.output|
    ensures RenderAll(s, n) == (s.(output := s.output[n..]), s.output[..n])
    decreases n
  {
    if n == 0 {
      assert s.output[0..] == s.output;
    } else {
      RenderAllIs(s.Render(), n - 1);
      assert s.output[1..][n - 1..] == s.output[n..];
      assert [s.output[0]] + s.output[1..][..n - 1] == s.output[..n];
    }
  }

  lemma TakeInTwo<T>(s: seq<T>, k: nat, n: nat)
    requires k <= n <= |s|
    ensures s[..k] + s[k..][..n - k] == s[..n]
  {
  }

  /** A transfer the buffers have room for loses nothing and plays what was queued. */
  lemma {:induction false} TransferIs(s: Session, packets: seq<seq<InFrame>>)
    requires |s.input| + |Joined(packets)| <= s.InputRoom() && |Joined(packets)| <= |s.output|
    ensures var ((t, played), n) := (Transfer(s, packets), |Joined(packets)|);
            && t == s.(input := s.input + Joined(packets), output := s.output[n..], captured := t.captured)
            && played == s.output[..n]
    decreases |packets|
  {
    var n := |Joined(packets)|;
    if packets == [] {
      assert s.output[0..] == s.output && s.input + Joined(packets) == s.input;
    } else {
      var k := |packets[0]|;
      CaptureAllIs(s, packets[0]);
      RenderAllIs(CaptureAll(s, packets[0]), k);
      TransferIs(Packet(s, packets[0]).0, packets[1..]);
      ConcatAssociates(s.input, packets[0], Joined(packets[1..]));
      SkipPeriod([], s.output, k, n - k);
      TakeInTwo(s.output, k, n);
    }
  }

  // -------------------------------------------------------------- whole sessions

  datatype Turn = Turn(session: Session, heard: seq<InFrame>, played: seq<OutFrame>)

  lemma {:induction false} CaptureAllKeepsPeriod(s: Session, xs: seq<InFrame>)
    ensures var t := CaptureAll(s, xs); t.period == s.period && t.transfer == s.transfer
    decreases |xs|
  {
    if xs != [] {
      CaptureAllKeepsPeriod(s.Capture(xs[0]), xs[1..]);
    }
  }

  lemma {:induction false} RenderAllKeepsPeriod(s: Session, n: nat)
    ensures var t := RenderAll(s, n).0; t.period == s.period && t.transfer == s.transfer
    decreases n
  {
    if n > 0 {
      RenderAllKeepsPeriod(s.Render(), n - 1);
    }
  }

  lemma {:induction false} TransferKeepsPeriod(s: Session, packets: seq<seq<InFrame>>)
    ensures var t := Transfer(s, packets).0; t.period == s.period && t.transfer == s.transfer
    decreases |packets|
  {
    if packets != [] {
      CaptureAllKeepsPeriod(s, packets[0]);
      RenderAllKeepsPeriod(CaptureAll(s, packets[0]), |packets[0]|);
      TransferKeepsPeriod(Packet(s, packets[0]).0, packets[1..]);
    }
  }

  /** A transfer, then the host's turn. */
  function Round(s: Session, host: Host, heard: seq<InFrame>, packets: seq<seq<InFrame>>): Turn
    requires s.period >= 1
  {
    var (moved, played) := Transfer(s, packets);
    TransferKeepsPeriod(s, packets);
    var (answered, heard') := Respond(moved, host, heard);
    Turn(answered, heard', played)
  }

  lemma {:induction false} RespondKeepsPeriod(s: Session, host: Host, heard: seq<InFrame>)
    requires s.period >= 1
    ensures var t := Respond(s, host, heard).0; t.period == s.period && t.transfer == s.transfer
  {
    RespondIs(s, host, heard);
  }

  lemma RoundKeepsPeriod(s: Session, host: Host, heard: seq<InFrame>, packets: seq<seq<InFrame>>)
    requires s.period >= 1
    ensures var t := Round(s, host, heard, packets).session; t.period == s.period && t.transfer == s.transfer
  {
    TransferKeepsPeriod(s, packets);
    RespondKeepsPeriod(Transfer(s, packets).0, host, heard);
  }

  function Rounds(s: Session, host: Host, heard: seq<InFrame>, transfers: seq<seq<seq<InFrame>>>): Turn
    requires s.period >= 1
    decreases |transfers|
  {
    if transfers == [] then Turn(s, heard, [])
    else
      var first := Round(s, host, heard, transfers[0]);
      RoundKeepsPeriod(s, host, heard, transfers[0]);
      var rest := Rounds(first.session, host, first.heard, transfers[1..]);
      rest.(played := first.played + rest.played)
  }

  function AllFrames(transfers: seq<seq<seq<InFrame>>>): seq<InFrame> {
    if transfers == [] then [] else Joined(transfers[0]) + AllFrames(transfers[1..])
  }

  /** The host has answered every whole period, and `excess` frames more than the latency are on their way. */
  ghost predicate CaughtUp(s: Session, excess: nat) {
    && s.period >= 1 && |s.input| < s.period && |s.output| <= s.OutputRoom()
    && |s.input| + |s.output| == s.OutputRoom() + excess
  }

  /**
   Every transfer finds as many frames queued as it plays, counting from a
   partial period of `level` frames and `excess` frames above the latency.
   */
  ghost predicate Roomy(excess: nat, level: nat, transfers: seq<seq<seq<InFrame>>>, period: nat, transfer: nat)
    requires period >= 1
    decreases |transfers|
  {
    transfers == [] ||
    var n := |Joined(transfers[0])|;
    var residue := (level + n) % period;
    level + n <= 2 * period + transfer + excess
        && Roomy(Min(excess, residue), residue, transfers[1..], period, transfer)
  }

  /** No transfer is more than a period and a frame larger than the one the session was made for. */
  ghost predicate WithinLead(transfers: seq<seq<seq<InFrame>>>, period: nat, transfer: nat) {
    forall k | 0 <= k < |transfers| :: |Joined(transfers[k])| <= period + transfer + 1
  }

  /** Transfers that small have room whatever the host has left unread. */
  lemma {:induction false} SmallIsRoomy(excess: nat, level: nat, transfers: seq<seq<seq<InFrame>>>,
                                        period: nat, transfer: nat)
    requires level < period && WithinLead(transfers, period, transfer)
    ensures Roomy(excess, level, transfers, period, transfer)
    decreases |transfers|
  {
    if transfers != [] {
      var residue := (level + |Joined(transfers[0])|) % period;
      SmallIsRoomy(Min(excess, residue), residue, transfers[1..], period, transfer);
    }
  }

  lemma {:induction false} AfterTheHost(s: Session, host: Host, heard: seq<InFrame>)
    requires Answering(host, s.period) && |s.output| <= s.OutputRoom()
    ensures var (t, residue) := (Respond(s, host, heard).0, |s.input| % s.period);
            && t == s.(input := t.input, output := t.output) && t.input == s.input[Whole(|s.input|, s.period)..]
            && |t.input| == residue
            && |t.output| <= s.OutputRoom()
            && |t.input| + |t.output| == Min(|s.input| + |s.output|, s.OutputRoom() + residue)
            && (|s.input| + |s.output| <= s.OutputRoom() + residue ==>
                  t.output == s.output + Answers(host, s.period, heard, s.input))
  {
    RespondIs(s, host, heard);
    AnswersLength(host, s.period, heard, s.input);
    PushedAllKeepsNewest(s.output, s.OutputRoom(), Answers(host, s.period, heard, s.input));
  }

  /** A round of a host that has caught up: what was queued plays, and the excess can only go. */
  lemma CaughtUpRound(s: Session, excess: nat, host: Host, heard: seq<InFrame>, packets: seq<seq<InFrame>>)
    requires CaughtUp(s, excess) && Answering(host, s.period) && |Joined(packets)| <= |s.output|
    ensures var (xs, t) := (Joined(packets), Round(s, host, heard, packets));
            var residue := |s.input + xs| % s.period;
            && CaughtUp(t.session, Min(excess, residue))
            && t.session.period == s.period && t.session.transfer == s.transfer
            && t.session.silentFrames == s.silentFrames && t.session.droppedFrames == s.droppedFrames
            && t.played == s.output[..|xs|]
            && t.session.input == (s.input + xs)[Whole(|s.input + xs|, s.period)..]
            && t.heard == heard + (s.input + xs)[..Whole(|s.input + xs|, s.period)]
            && (excess <= residue ==>
                  t.session.output == s.output[|xs|..] + Answers(host, s.period, heard, s.input + xs))
  {
    TransferIs(s, packets);
    var (moved, played) := Transfer(s, packets);
    AfterTheHost(moved, host, heard);
    RespondIs(moved, host, heard);
  }

  lemma QueueAdvances<T>(queue: seq<T>, now: seq<T>, later: seq<T>, n: nat, m: nat)
    requires n <= |queue| && m <= |(queue[n..] + now) + later|
    ensures n + m <= |queue + (now + later)|
    ensures queue[..n] + ((queue[n..] + now) + later)[..m] == (queue + (now + later))[..n + m]
  {
  }

  /**
   From a session with no excess every frame is played exactly one latency later:
   first what was queued, then the answers, nothing silent and nothing dropped.
   */
  lemma {:induction false} PromptRounds(s: Session, host: Host, heard: seq<InFrame>, transfers: seq<seq<seq<InFrame>>>)
    requires CaughtUp(s, 0) && Answering(host, s.period)
    requires Roomy(0, |s.input|, transfers, s.period, s.transfer)
    ensures var (xs, t) := (AllFrames(transfers), Rounds(s, host, heard, transfers));
            var queue := s.output + Answers(host, s.period, heard, s.input + xs);
            && CaughtUp(t.session, 0)
            && t.session.silentFrames == s.silentFrames && t.session.droppedFrames == s.droppedFrames
            && |xs| <= |queue| && t.played == queue[..|xs|]
    decreases |transfers|
  {
    if transfers != [] {
      var now, later := Joined(transfers[0]), AllFrames(transfers[1..]);
      var first := Round(s, host, heard, transfers[0]);
      CaughtUpRound(s, 0, host, heard, transfers[0]);
      PromptRounds(first.session, host, first.heard, transfers[1..]);
      AnswersJoin(host, s.period, heard, s.input + now, later);
      ConcatAssociates(s.input, now, later);
      QueueAdvances(s.output, Answers(host, s.period, heard, s.input + now),
                    Answers(host, s.period, first.heard, first.session.input + later), |now|, |later|);
    }
  }

  lemma AnswersReach(host: Host, period: nat, heard: seq<InFrame>, input: seq<InFrame>, i: nat)
    requires Answering(host, period) && i + period <= |input|
    ensures i < Whole(|input|, period) == |Answers(host, period, heard, input)|
  {
    AnswersLength(host, period, heard, input);
  }

  /** A queue that plays on into the answers plays answer `j` right after what was queued before it. */
  lemma PlayedAnswer(queue: seq<OutFrame>, host: Host, period: nat, heard: seq<InFrame>, input: seq<InFrame>,
                     played: seq<OutFrame>, j: nat)
    requires Answering(host, period) && j + period <= |input|
    requires |queue| + j < |played| && played <= queue + Answers(host, period, heard, input)
    ensures Whole(j, period) + period <= |input|
    ensures played[|queue| + j] == AnswerTo(host, period, heard, input, j)
  {
    AnswersReach(host, period, heard, input, j);
    AnswerAt(host, period, heard, input, j);
  }

  /** With no excess, the answer to the frame captured at step `i` plays at step `i` + 2P + T exactly. */
  lemma ExactLatency(s: Session, host: Host, heard: seq<InFrame>, transfers: seq<seq<seq<InFrame>>>, i: nat)
    requires CaughtUp(s, 0) && Answering(host, s.period)
    requires Roomy(0, |s.input|, transfers, s.period, s.transfer)
    requires i + s.OutputRoom() < |AllFrames(transfers)|
    ensures Whole(|s.input| + i, s.period) + s.period <= |s.input + AllFrames(transfers)|
    ensures var played := Rounds(s, host, heard, transfers).played;
            |played| == |AllFrames(transfers)| &&
            played[i + s.OutputRoom()] == AnswerTo(host, s.period, heard, s.input + AllFrames(transfers), |s.input| + i)
  {
    PromptRounds(s, host, heard, transfers);
    PlayedAnswer(s.output, host, s.period, heard, s.input + AllFrames(transfers),
                 Rounds(s, host, heard, transfers).played, |s.input| + i);
  }

  lemma PromptHostStarts(period: nat, transfer: nat, host: Host, transfers: seq<seq<seq<InFrame>>>)
    requires Answering(host, period) && Roomy(0, 0, transfers, period, transfer)
    ensures var (xs, t) := (AllFrames(transfers), Rounds(Started(period, transfer), host, [], transfers));
            && |t.played| == |xs| && t.session.silentFrames == 0 && t.session.droppedFrames == 0
            && (forall i | 0 <= i < |xs| && i < 2 * period + transfer :: t.played[i] == SILENCE)
  {
    PromptRounds(Started(period, transfer), host, [], transfers);
  }

  lemma PromptHostAnswers(period: nat, transfer: nat, host: Host, transfers: seq<seq<seq<InFrame>>>, i: nat)
    requires Answering(host, period) && Roomy(0, 0, transfers, period, transfer)
    requires i + 2 * period + transfer < |AllFrames(transfers)|
    ensures var (xs, t) := (AllFrames(transfers), Rounds(Started(period, transfer), host, [], transfers));
            && |t.played| == |xs| && Whole(i, period) + period <= |xs|
            && t.played[i + 2 * period + transfer] == AnswerTo(host, period, [], xs, i)
  {
    var s, xs := Started(period, transfer), AllFrames(transfers);
    ExactLatency(s, host, [], transfers, i);
    assert s.input + xs == xs;
  }

  /**
   A host that answers between transfers, from the start of its session: nothing
   silent because of it and nothing dropped, silence for the first 2P + T frames,
   and then every captured frame's answer that much later.
   */
  lemma PromptHostLatency(period: nat, transfer: nat, host: Host, transfers: seq<seq<seq<InFrame>>>, i: nat)
    requires Answering(host, period) && Roomy(0, 0, transfers, period, transfer) && i < |AllFrames(transfers)|
    ensures var (xs, t) := (AllFrames(transfers), Rounds(Started(period, transfer), host, [], transfers));
            var latency := 2 * period + transfer;
            && |t.played| == |xs| && t.session.silentFrames == 0 && t.session.droppedFrames == 0
            && (i < latency ==> t.played[i] == SILENCE)
            && (i + latency < |xs| ==>
                  && Whole(i, period) + period <= |xs|
                  && t.played[i + latency] == AnswerTo(host, period, [], xs, i))
  {
    PromptHostStarts(period, transfer, host, transfers);
    if i + 2 * period + transfer < |AllFrames(transfers)| {
      PromptHostAnswers(period, transfer, host, transfers, i);
    }
  }

  // --------------------------------------------------- how large a transfer may be

  lemma {:induction false} CaptureAllQueues(s: Session, xs: seq<InFrame>)
    ensures var t := CaptureAll(s, xs); t.output == s.output && t.silentFrames == s.silentFrames
    decreases |xs|
  {
    if xs != [] {
      CaptureAllQueues(s.Capture(xs[0]), xs[1..]);
    }
  }

  /** Frames are played as silence exactly when there are more to play than are queued. */
  lemma {:induction false} RenderAllSilence(s: Session, n: nat)
    ensures var t := RenderAll(s, n).0;
            && t.silentFrames >= s.silentFrames
            && (n <= |s.output| ==> t.silentFrames == s.silentFrames && |t.output| == |s.output| - n)
            && (n > |s.output| && s.silentFrames < MAX_COUNT ==> t.silentFrames > s.silentFrames)
    decreases n
  {
    if n > 0 {
      RenderAllSilence(s.Render(), n - 1);
    }
  }

  lemma {:induction false} TransferSilence(s: Session, packets: seq<seq<InFrame>>)
    ensures var t := Transfer(s, packets).0;
            && t.silentFrames >= s.silentFrames
            && (s.silentFrames < MAX_COUNT ==> (t.silentFrames == s.silentFrames <==> |Joined(packets)| <= |s.output|))
    decreases |packets|
  {
    if packets != [] {
      CaptureAllQueues(s, packets[0]);
      RenderAllSilence(CaptureAll(s, packets[0]), |packets[0]|);
      TransferSilence(Packet(s, packets[0]).0, packets[1..]);
    }
  }

  /** The host's turn does not change what has been silent. */
  lemma RoundSilence(s: Session, host: Host, heard: seq<InFrame>, packets: seq<seq<InFrame>>)
    requires s.period >= 1
    ensures var t := Round(s, host, heard, packets).session;
            && t.period == s.period && t.silentFrames >= s.silentFrames
            && (s.silentFrames < MAX_COUNT ==> (t.silentFrames == s.silentFrames <==> |Joined(packets)| <= |s.output|))
  {
    TransferKeepsPeriod(s, packets);
    TransferSilence(s, packets);
    RespondIs(Transfer(s, packets).0, host, heard);
  }

  lemma {:induction false} SilenceStays(s: Session, host: Host, heard: seq<InFrame>, transfers: seq<seq<seq<InFrame>>>)
    requires s.period >= 1
    ensures Rounds(s, host, heard, transfers).session.silentFrames >= s.silentFrames
    decreases |transfers|
  {
    if transfers != [] {
      var first := Round(s, host, heard, transfers[0]);
      RoundSilence(s, host, heard, transfers[0]);
      SilenceStays(first.session, host, first.heard, transfers[1..]);
    }
  }

  /** A host that has caught up hears no silence of its making if and only if every transfer has room. */
  lemma {:induction false} SilentUnlessRoomy(s: Session, excess: nat, host: Host, heard: seq<InFrame>,
                                             transfers: seq<seq<seq<InFrame>>>)
    requires CaughtUp(s, excess) && Answering(host, s.period) && s.silentFrames < MAX_COUNT
    ensures Rounds(s, host, heard, transfers).session.silentFrames == s.silentFrames
            <==> Roomy(excess, |s.input|, transfers, s.period, s.transfer)
    decreases |transfers|
  {
    if transfers != [] {
      var packets := transfers[0];
      var first := Round(s, host, heard, packets);
      if |Joined(packets)| <= |s.output| {
        CaughtUpRound(s, excess, host, heard, packets);
        SilentUnlessRoomy(first.session, Min(excess, |s.input + Joined(packets)| % s.period), host, first.heard,
                          transfers[1..]);
      } else {
        RoundSilence(s, host, heard, packets);
        SilenceStays(first.session, host, first.heard, transfers[1..]);
      }
    }
  }

  /** From the start of a session, with the answers that `PromptHostLatency` tells of. */
  lemma PromptHostHearsAll(period: nat, transfer: nat, host: Host, transfers: seq<seq<seq<InFrame>>>)
    requires Answering(host, period)
    ensures Rounds(Started(period, transfer), host, [], transfers).session.silentFrames == 0
            <==> Roomy(0, 0, transfers, period, transfer)
  {
    SilentUnlessRoomy(Started(period, transfer), 0, host, [], transfers);
  }

  /**
   P + T + 1 frames are the most a transfer can always have: a frame short of a
   period, then one more than that, and every host plays silence.
   */
  lemma LargerIsSilent(period: nat, transfer: nat, host: Host, short: seq<seq<InFrame>>, large: seq<seq<InFrame>>)
    requires Answering(host, period)
    requires |Joined(short)| == period - 1 && |Joined(large)| == period + transfer + 2
    ensures Rounds(Started(period, transfer), host, [], [short, large]).session.silentFrames > 0
  {
    NoPeriod(period - 1, period);
    assert [short, large][1..] == [large];
    assert !Roomy(0, period - 1, [large], period, transfer);
    PromptHostHearsAll(period, transfer, host, [short, large]);
  }

  // ------------------------------------------------------------ after a stall

  /** However late the host is, its turn leaves at most its partial period above the latency. */
  lemma LateTurn(s: Session, host: Host, heard: seq<InFrame>)
    requires Answering(host, s.period) && s.Valid() && |s.input| + |s.output| >= s.OutputRoom()
    ensures CaughtUp(Respond(s, host, heard).0, Min(|s.input| + |s.output| - s.OutputRoom(), |s.input| % s.period))
  {
    AfterTheHost(s, host, heard);
    RespondKeepsPeriod(s, host, heard);
    DivModParts(|s.input|, s.period);
  }

  /** The excess left after some transfers, from a partial period of `level` frames. */
  function Excess(excess: nat, level: nat, transfers: seq<seq<seq<InFrame>>>, period: nat): nat
    requires period >= 1
    decreases |transfers|
  {
    if transfers == [] then excess
    else
      var residue := (level + |Joined(transfers[0])|) % period;
      Excess(Min(excess, residue), residue, transfers[1..], period)
  }

  lemma {:induction false} LateRounds(s: Session, excess: nat, host: Host, heard: seq<InFrame>,
                                      transfers: seq<seq<seq<InFrame>>>)
    requires CaughtUp(s, excess) && Answering(host, s.period)
    requires Roomy(excess, |s.input|, transfers, s.period, s.transfer)
    ensures var t := Rounds(s, host, heard, transfers);
            && CaughtUp(t.session, Excess(excess, |s.input|, transfers, s.period))
            && t.session.period == s.period && t.session.transfer == s.transfer
            && t.session.silentFrames == s.silentFrames && t.session.droppedFrames == s.droppedFrames
    decreases |transfers|
  {
    if transfers != [] {
      var residue := |s.input + Joined(transfers[0])| % s.period;
      CaughtUpRound(s, excess, host, heard, transfers[0]);
      var first := Round(s, host, heard, transfers[0]);
      LateRounds(first.session, Min(excess, residue), host, first.heard, transfers[1..]);
    }
  }

  /** Whether some transfer ends where a period does, counting from a partial period of `level` frames. */
  ghost predicate MeetsAPeriod(level: nat, transfers: seq<seq<seq<InFrame>>>, period: nat)
    requires period >= 1
    decreases |transfers|
  {
    transfers != [] &&
    var residue := (level + |Joined(transfers[0])|) % period;
    residue == 0 || MeetsAPeriod(residue, transfers[1..], period)
  }

  /** The latency is exact again if and only if it never was off or a transfer has ended where a period does. */
  lemma {:induction false} ExcessIsGone(excess: nat, level: nat, transfers: seq<seq<seq<InFrame>>>, period: nat)
    requires period >= 1
    ensures Excess(excess, level, transfers, period) == 0 <==> excess == 0 || MeetsAPeriod(level, transfers, period)
    decreases |transfers|
  {
    if transfers != [] {
      var residue := (level + |Joined(transfers[0])|) % period;
      ExcessIsGone(Min(excess, residue), residue, transfers[1..], period);
    }
  }

  ghost predicate SingleFrames(transfers: seq<seq<seq<InFrame>>>) {
    forall k | 0 <= k < |transfers| :: |Joined(transfers[k])| == 1
  }

  /** Frame by frame, a period ends within a period. */
  lemma {:induction false} FramesMeetAPeriod(level: nat, transfers: seq<seq<seq<InFrame>>>, period: nat)
    requires level < period <= level + |transfers| && SingleFrames(transfers)
    ensures MeetsAPeriod(level, transfers, period)
    decreases |transfers|
  {
    if level + 1 < period {
      NoPeriod(level + 1, period);
      FramesMeetAPeriod(level + 1, transfers[1..], period);
    } else {
      DivModUnique(level + 1, period, 1, 0);
    }
  }

  lemma SinglesAreWithinLead(transfers: seq<seq<seq<InFrame>>>, period: nat, transfer: nat)
    requires SingleFrames(transfers) && period >= 1
    ensures WithinLead(transfers, period, transfer)
  {
  }

  /** A period of steps after its first turn, the host's latency is exact again. */
  lemma CatchesUp(s: Session, host: Host, heard: seq<InFrame>, recovering: seq<seq<seq<InFrame>>>)
    requires Answering(host, s.period) && s.Valid() && |s.input| + |s.output| >= s.OutputRoom()
    requires SingleFrames(recovering) && |recovering| >= s.period
    ensures var (turned, heard1) := Respond(s, host, heard);
            turned.period == s.period && turned.transfer == s.transfer &&
            var t := Rounds(turned, host, heard1, recovering).session;
            && CaughtUp(t, 0) && t.period == s.period && t.transfer == s.transfer
            && t.silentFrames == s.silentFrames && t.droppedFrames == s.droppedFrames
  {
    LateTurn(s, host, heard);
    AfterTheHost(s, host, heard);
    RespondKeepsPeriod(s, host, heard);
    var (turned, heard1) := Respond(s, host, heard);
    var excess := Min(|s.input| + |s.output| - s.OutputRoom(), |s.input| % s.period);
    SinglesAreWithinLead(recovering, s.period, s.transfer);
    SmallIsRoomy(excess, |turned.input|, recovering, s.period, s.transfer);
    LateRounds(turned, excess, host, heard1, recovering);
    ExcessIsGone(excess, |turned.input|, recovering, s.period);
    FramesMeetAPeriod(|turned.input|, recovering, s.period);
  }

  /**
   After any run of the session, however long the host has stalled in it: once
   the host takes its turns again, a period of steps brings the latency back to
   2P + T exactly, without another frame silent or dropped. From there
   `ExactLatency` and `PromptRounds` say that it stays.
   */
  lemma StallRecovery(period: nat, transfer: nat, runs: seq<AsioRuns.Run>, steps: seq<AsioRuns.Step>,
                      host: Host, heard: seq<InFrame>, recovering: seq<seq<seq<InFrame>>>)
    requires AsioRuns.IsRun(period, transfer, runs, steps) && Answering(host, period)
    requires runs[|steps|].pending == 0 && runs[|steps|].held == 0
    requires SingleFrames(recovering) && |recovering| >= period
    ensures var stalled := runs[|steps|].session;
            stalled.period == period &&
            var (turned, heard1) := Respond(stalled, host, heard);
            turned.period == period &&
            var t := Rounds(turned, host, heard1, recovering).session;
            && CaughtUp(t, 0) && t.period == period && t.transfer == transfer
            && t.silentFrames == stalled.silentFrames && t.droppedFrames == stalled.droppedFrames
  {
    AsioRuns.RunsKeep(period, transfer, runs, steps, |steps|);
    AsioRuns.LatencyNeverShrinks(period, transfer, runs, steps, |steps|);
    CatchesUp(runs[|steps|].session, host, heard, recovering);
  }
}
