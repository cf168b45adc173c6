# Audio Kontrol 1 driver: a verified model

This project models the audio data path and the engine control of the Audio Kontrol 1 Windows
driver and proves what they are for: that converting rates is a plain infinite sum and never
drifts, that the ASIO buffers keep one exact latency, that streaming stops with nothing left
touching its memory, that the card's clock has one owner, and that samples go over the wire and
through the packet rings unharmed.

`dafny verify dfyconfig.toml` checks all of it.

| module | models |
|---|---|
| `Convolution` | what the resampler is meant to compute: a sum over every input sample, past and future |
| `Resampler` | the resampler itself: fields, 512-slot ring, table walk without a division, early exit |
| `ResamplerLimits` | widths, table error and ring size, for the card's rates and in general |
| `Conversion` | whole conversions: how many frames come out, and which |
| `AsioBuffers` | the two ring FIFOs of a session |
| `AsioRuns` | every interleaving of transfers with a host's reads and writes |
| `AsioLatency` | the latency a prompt host gets, and how a late one gets it back |
| `AsioTurns` | the turns of card and host that this is told in, as runs of a session |
| `StreamProtocol` | requests, completion routines, `busy` flags, `in_flight`, `stop`: one atomic step at a time |
| `StreamCirculation` | that a running engine keeps going: what becomes of every capture and playback transfer |
| `StreamAnswer` | `answer`: decoding, filling in lost packets, laying out playback |
| `AudioState` | what streams and session share of the card, and what each operation makes of it |
| `AudioControl` | `Audio` with each method taken whole, over every run |
| `AudioInterleaving` | the same, one lock section at a time, in every interleaving |
| `AudioMixing` | mixing the ASIO output with the streams |
| `PacketRing` | the ring of real-time packets: places, containers, notifications |
| `RtStream` | a stream on the card: ring and resampler together |
| `Mode2` | the wire codec, both ways |
| `CaptureFormat` | capture packets byte by byte: what the card sends, and what one wrong byte does |
| `Arithmetic`, `CardRates`, `Sequences`, `Sets`, `Wrappers` | shared facts and types |

Objects the driver updates in place are classes; what their methods leave is stated as a function
of what was there, or as the property itself. Runs are sequences of states and steps; a theorem
about a run holds for every sequence of steps the environment allows.

## How to read the main results

* **Resampler.** `Convolution.SumsTo(v, x, c, n, total)` says that the sum over all integers `i` of
  `x[i]` times the kernel at distance `|i * up - n * down|` is `total`: every window wide enough is
  worth it; `Superposition` and `ImpulseResponse` say what that makes of any signal. `Resampler.Pop`
  returns its rounded value for the n-th output whenever the ring still holds what that output
  needs; for a client that pushes only after a pop has come back empty that is the case exactly when
  twice the kernel's half width fits the ring (`Conversion.PushesRetain`), and that exactly when the
  rates convert down by at most 8 (`ResamplerLimits.RingFits`).
* **ASIO.** P is the period and T the transfer. `AsioRuns.Conserved` is the invariant behind the
  latency: while the input ring is not full, unread, held and queued frames together are never fewer
  than 2P + T and what the transfer under way has yet to play. The latency of a prompt host is exact
  as long as every transfer finds what it plays queued; `AsioLatency.SilentUnlessRoomy` says for any
  transfers exactly when they do, and `LargerIsSilent` that the bound P + T + 1, under which they
  always do, is the best there is. `AsioTurns.RoundsRun` shows that these turns are runs.
* **Signal and ring.** A true return of `capture` does not always mean a readable period: after a
  dropped frame the counter and the ring are out of step. `AsioRuns.SignalWithoutPeriod` is a run
  that shows it, and `AsioRuns.SignalMeansReadable` says when it cannot happen.
* **Clock.** With each method of `Audio` taken whole, the card has a rate exactly while someone uses
  it, and that of whoever set it last (`AudioControl.RateIsItsSetters`). Section by section that is
  false: `AudioInterleaving.LateClaim` is a run in which a stream made during a failing session
  start is left without a rate, and `AudioInterleaving.RateLostExactlyWhen` says which step, and no
  other, does that. The two models are one: `StartIsWhole` and its neighbours show that the sections
  of a call, run with nothing between them, are the whole operation.
* **Streaming.** `StreamCirculation.CaptureGoesRound` says of each capture transfer of a running
  engine that it goes round if and only if none of its requests has failed, `AnsweredBetween` that
  it is answered on every round, and `ClaimsAreAccountedFor` what becomes of the playback transfers.
* **Wire.** `CaptureFormat.IsPacket` is what the card sends, told in bytes and numbers.
  `CaptureRoundTrip` and `CleanIsItsOwn` make decoding its inverse both ways, `PlaybackIsCapture`
  ties the encoder to it, and `StreamAnswer.Engine.Answer` says in its terms what the streams hear.
* **Stop.** `StreamProtocol.QuiescenceIsFinal` holds for every interleaving because a routine counts
  what it sends before it gives up its own count. `StopIsBounded` and `StopNeverStuck` add that the
  wait ends if requests and routines that can go on do.

## Model

| member | source | states |
|---|---|---|
| Resampler.Gcd | crates/ak1-proto/src/resample.rs:168-173 | the result divides both numbers and every common divisor divides it; of two zeros it is zero |
| Resampler.LowestTerms | crates/ak1-proto/src/resample.rs:90-91 | dividing both rates by their greatest common divisor keeps the ratio exactly and leaves coprime numbers |
| Resampler.Ratio | crates/ak1-proto/src/resample.rs:90-91 | `up` and `down` are the two rates in lowest terms |
| Resampler.Constants | crates/ak1-proto/src/resample.rs:92-101 | the derived fields are what the specification's scale, taps, gain, reciprocal and step are for the ratio |
| Resampler.SlotIsRemainder | crates/ak1-proto/src/resample.rs:154 | a negative position wrapped to 64 bits lands in the slot of its true remainder modulo 512 |
| Resampler.SlotsDistinct | crates/ak1-proto/src/resample.rs:115 | 512 positions in a row have different slots |
| Resampler.PhaseCarries | crates/ak1-proto/src/resample.rs:129-131 | advancing phase and centre keeps the position exactly n * down / up |
| Resampler.WalkStep | crates/ak1-proto/src/resample.rs:158-163 | the carried table walk gives the quotient and remainder a division would |
| Resampler.Resampler.Boxed | crates/ak1-proto/src/resample.rs:76-80 | zero in every field, no rates, nothing pushed |
| Resampler.Resampler.New | crates/ak1-proto/src/resample.rs:55-74 | a resampler reset to the two rates |
| Resampler.Resampler.Clear | crates/ak1-proto/src/resample.rs:83-86 | no rates and no conversion until the next reset; the stream so far is untouched |
| Resampler.Resampler.Reset | crates/ak1-proto/src/resample.rs:89-107 | starts a new stream at the exact ratio of the rates, silence before it |
| Resampler.Resampler.Push | crates/ak1-proto/src/resample.rs:114-117 | appends to the input; the ring goes on holding its last 512 frames |
| Resampler.Resampler.Lookup | crates/ak1-proto/src/resample.rs:146-151 | the coefficient read by the walk is the kernel's value at the tap's distance |
| Resampler.Resampler.Walk | crates/ak1-proto/src/resample.rs:158-163 | after the step the walk stands where a division for the next tap would put it |
| Resampler.Resampler.AddTap | crates/ak1-proto/src/resample.rs:155-157 | adds sample times coefficient on every channel, each on its own |
| Resampler.Resampler.AddSide | crates/ak1-proto/src/resample.rs:137-165 | adds exactly the terms of one side of the sum, early exit or not |
| Resampler.Resampler.TapDistance | crates/ak1-proto/src/resample.rs:127-128 | tap k of a side lies k input samples further out than its first |
| Resampler.Resampler.TapFrame | crates/ak1-proto/src/resample.rs:154 | the slot a tap reads holds the input it stands for, silence before the stream included |
| Resampler.Resampler.BreakLosesNothing | crates/ak1-proto/src/resample.rs:143-145 | once the walk has left the table all further terms are zero |
| Resampler.Resampler.SidesMakeTheSum | crates/ak1-proto/src/resample.rs:127-128 | the two sides together are the whole sum |
| Resampler.Resampler.SumIsFinal | crates/ak1-proto/src/resample.rs:121-123 | when an output is ready its sum over all integers is the same however the input goes on |
| Resampler.Resampler.Sums | crates/ak1-proto/src/resample.rs:124-128 | the two passes leave the reference sum on every channel |
| Resampler.Resampler.Advance | crates/ak1-proto/src/resample.rs:129-131 | moves to the next output with centre * up + phase = n * down exactly and phase < up |
| Resampler.Resampler.Pop | crates/ak1-proto/src/resample.rs:120-133 | nothing until the input half a kernel past the output has come; then the rounded, clamped sum over the whole input signal |
| Convolution.SumIsUnique | crates/ak1-proto/src/resample.rs:8-12 | the sum over all integers is one number |
| Convolution.Superposition | crates/ak1-proto/src/resample.rs:155-157 | the sum of two signals converts to the sum of their conversions, each channel on its own |
| Convolution.ImpulseResponse | crates/ak1-proto/src/resample.rs:8-12 | a single sample is heard in output n as itself times the kernel at distance abs(i * up - n * down), on its own channel |
| Convolution.CoefficientBeyondTaps | crates/ak1-proto/src/resample.rs:97 | the kernel is zero `taps` input samples away and further |
| Convolution.EqualRates | crates/ak1-proto/src/resample.rs:139-151 | between equal rates an input k samples from the output weighs entry 256 * k of the table, and nothing from 32 samples on |
| Convolution.TableReach | crates/ak1-proto/src/resample.rs:143 | the table ends exactly at its last zero crossing, and from there on the kernel is zero |
| Convolution.RoundedIsNearest | crates/ak1-proto/src/resample.rs:132 | a sum in Q30 becomes the nearest sample, the upper of two, and the last one within 24 bits if it is too loud |
| Convolution.SupportIsTheSum | crates/ak1-proto/src/resample.rs:142 | cutting off after `taps` on either side loses nothing of the infinite sum |
| Convolution.SupportIsCausal | crates/ak1-proto/src/resample.rs:119-123 | a ready output does not depend on input still to come |
| ResamplerLimits.RingFits | crates/ak1-proto/src/resample.rs:19-21 | twice the kernel's half width fits the ring if and only if the input rate is at most 8 times the output rate |
| ResamplerLimits.CardRatesFit | crates/ak1-proto/src/resample.rs:106 | the reset's debug assertion holds for all pairs of card rates; at most 160 taps a side |
| ResamplerLimits.TapsWithin | crates/ak1-proto/src/resample.rs:97 | exactly which rates need no more than a given number of taps |
| ResamplerLimits.WeightError | crates/ak1-proto/src/resample.rs:147 | the Q16 weight never exceeds the exact fraction and is less than 2 units below it |
| ResamplerLimits.BetweenNeighbours | crates/ak1-proto/src/resample.rs:146-148 | an interpolated coefficient lies between its two table entries |
| ResamplerLimits.LookupError | crates/ak1-proto/src/resample.rs:146-148 | interpolation is off the exact line by a bounded multiple of the rise |
| ResamplerLimits.GainIsRatio | crates/ak1-proto/src/resample.rs:98 | converting down, the gain is the greatest Q16 number not above up / down; it is zero exactly for ratios over 2^16 |
| ResamplerLimits.CoefficientIsScaled | crates/ak1-proto/src/resample.rs:149-151 | inside the table the coefficient is the interpolated value when converting up, and up / down of it when converting down, within one rounding and one unit of the gain |
| ResamplerLimits.CoefficientBounded | crates/ak1-proto/src/resample.rs:148-151 | with a table of magnitude at most 2^30, so is every coefficient |
| ResamplerLimits.LookupFits | crates/ak1-proto/src/resample.rs:147-151 | no product in a lookup leaves 64 bits |
| ResamplerLimits.WindowBounded | crates/ak1-proto/src/resample.rs:155-157 | a sum of k terms is at most k times the largest term |
| ResamplerLimits.SumsFit | crates/ak1-proto/src/resample.rs:124-132 | for card rates and 24-bit input the whole sum and its rounding fit 64 bits |
| ResamplerLimits.SideFits | crates/ak1-proto/src/resample.rs:155-157 | and so does every partial sum on the way |
| Conversion.DrainedCount | crates/ak1-proto/src/resample.rs:120-123 | after P drained pushes exactly max(0, ceil((P - taps) * up / down)) frames have come out |
| Conversion.AvailableInHertz | crates/ak1-proto/src/resample.rs:120-123 | the same in hertz: output n is out once n * from < (P - taps) * to |
| Conversion.OutputsFollowTheRatio | crates/ak1-proto/src/resample.rs:229-239 | P input frames give at most floor(P * up / down) outputs, and no fewer than that less floor(taps * up / down) + 1 |
| Conversion.OutputsAreCausal | crates/ak1-proto/src/resample.rs:42-44 | outputs given out stay right as more input comes |
| Conversion.OutputsAreTheSum | crates/ak1-proto/src/resample.rs:8-12 | every output sample is the rounded sum over the whole signal |
| Conversion.PushesRetain | crates/ak1-proto/src/resample.rs:19-21 | for a client that pushes only after a pop came back empty, an output finds all it needs in the ring if and only if twice the kernel's half width fits there |
| Conversion.PopNext | driver/ak1-acx/src/rt.rs:111-116 | such a client's pop is empty or the next reference output, for which it had been given exactly what that needs |
| Conversion.Drain | driver/ak1-acx/src/rt.rs:131-133 | popping until empty gives exactly the outputs that are ready, in order |
| Conversion.PushAndDrain | driver/ak1-acx/src/rt.rs:130-133 | one push gives out exactly the next outputs, in order, all of them |
| Conversion.Convert | crates/ak1-proto/src/resample.rs:191-201 | any input converted from a reset yields exactly the reference outputs |
| AsioBuffers.PushedAllKeepsNewest | crates/ak1-proto/src/asio.rs:159-167 | pushing over keeps exactly the newest frames that fit |
| AsioBuffers.PushedAllAppend | crates/ak1-proto/src/asio.rs:121-123 | pushing two rows one after the other is pushing both |
| AsioBuffers.Fifo.New | crates/ak1-proto/src/asio.rs:141-146 | an empty ring of the given room, or an error without memory |
| AsioBuffers.Fifo.Push | crates/ak1-proto/src/asio.rs:149-157 | appends unless full, and says whether it did |
| AsioBuffers.Fifo.PushOver | crates/ak1-proto/src/asio.rs:160-167 | appends; drops the oldest frame exactly when full |
| AsioBuffers.Fifo.Pop | crates/ak1-proto/src/asio.rs:169-177 | takes the oldest frame, none when empty |
| AsioBuffers.Buffers.New | crates/ak1-proto/src/asio.rs:69-80 | an error if memory for either ring is missing; otherwise output full of silence, 2P + T frames, and input empty |
| AsioBuffers.Buffers.Capture | crates/ak1-proto/src/asio.rs:83-93 | the session after a captured frame, and whether that made a period whole |
| AsioBuffers.Buffers.Render | crates/ak1-proto/src/asio.rs:96-101 | plays the oldest queued frame, counted silence when there is none |
| AsioBuffers.Buffers.Read | crates/ak1-proto/src/asio.rs:105-114 | takes out the oldest whole period; nothing changes when there is none or no room for it |
| AsioBuffers.Buffers.Write | crates/ak1-proto/src/asio.rs:117-125 | queues a period over the oldest output; refuses anything else unchanged |
| AsioRuns.StepKeeps | crates/ak1-proto/src/asio.rs:83-125 | every step of card or host keeps the invariant |
| AsioRuns.RunsKeep | crates/ak1-proto/src/asio.rs:83-125 | every state of every run has it |
| AsioRuns.LatencyNeverShrinks | crates/ak1-proto/src/asio.rs:53-57 | between transfers unread, held and queued frames are never fewer than 2P + T; with nothing unread or held the output is exactly full |
| AsioRuns.SilenceMeansLate | crates/ak1-proto/src/asio.rs:54-57 | silence plays only while at least 2P + T frames are unread or held by the host |
| AsioRuns.FramesAreAccountedFor | crates/ak1-proto/src/asio.rs:83-114 | captured = read + dropped + unread; the ring is the newest of them in order; unread + dropped is the counter modulo P |
| AsioRuns.PlaysInOrder | crates/ak1-proto/src/asio.rs:96-125 | played are the silence of the start and then all written frames in order, less those pushed over; with nothing left each played frame is zero and counted once, up to 2^32 - 1 |
| AsioRuns.SignalEveryPeriod | crates/ak1-proto/src/asio.rs:87-92 | in every run `capture` returns true exactly on each frame that makes the captured frames whole periods |
| AsioRuns.SignalMeansReadable | crates/ak1-proto/src/asio.rs:82-93 | with no frame dropped a true return means a whole period is readable; in general one is if and only if there was one already or the drops make whole periods |
| AsioRuns.SignalWithoutPeriod | crates/ak1-proto/src/asio.rs:82-93 | a run in which one dropped frame makes `capture` signal a period that is not there |
| AsioLatency.AnswerAt | asio/src/duplex.rs:306-312 | the host's answer to a frame is in the period that answers the frame's period, at the same place |
| AsioLatency.AnswersJoin | asio/src/duplex.rs:306-312 | answering in two turns is answering in one |
| AsioLatency.RespondIs | asio/src/duplex.rs:306-312 | a turn reads every whole period, answers each, and leaves the partial one |
| AsioLatency.TransferIs | driver/ak1-acx/src/stream.rs:277-316 | a transfer the buffers have room for loses nothing and plays what was queued |
| AsioLatency.CaughtUpRound | crates/ak1-proto/src/asio.rs:53-57 | a transfer and a turn of a host that has caught up: what was queued plays, and any excess over the latency only goes |
| AsioLatency.PromptRounds | crates/ak1-proto/src/asio.rs:219-226 | any number of transfers that find what they play queued: played is what was queued, then the answers; nothing silent or dropped |
| AsioLatency.ExactLatency | crates/ak1-proto/src/asio.rs:219-226 | from a state with no excess the answer to frame i plays at step i + 2P + T exactly |
| AsioLatency.PromptHostLatency | crates/ak1-proto/src/asio.rs:219-226 | from the start of a session: silence for 2P + T frames, then every frame's answer that much later, both counts zero |
| AsioLatency.TransferSilence | crates/ak1-proto/src/asio.rs:96-101 | with the count of silent frames below its 32-bit limit, a transfer of any packets plays silence if and only if it has more frames than are queued |
| AsioLatency.SilentUnlessRoomy | crates/ak1-proto/src/asio.rs:53-57 | a host that has caught up plays no silence over any transfers if and only if each has at most 2P + T frames, and what excess there is, less what is unread; with the count below its limit |
| AsioLatency.PromptHostHearsAll | crates/ak1-proto/src/asio.rs:219-226 | the same from the start of a session, which says exactly when the latency above holds |
| AsioLatency.SmallIsRoomy | crates/ak1-proto/src/asio.rs:53-57 | transfers of at most P + T + 1 frames always have room |
| AsioLatency.LargerIsSilent | crates/ak1-proto/src/asio.rs:53-57 | P - 1 frames and then P + T + 2 make every host's session play silence, so no larger bound does |
| AsioLatency.LateTurn | crates/ak1-proto/src/asio.rs:55-57 | however late, one turn leaves at most the partial period above the latency |
| AsioLatency.LateRounds | crates/ak1-proto/src/asio.rs:55-57 | the excess after any transfers, with nothing more silent or dropped |
| AsioLatency.ExcessIsGone | crates/ak1-proto/src/asio.rs:55-57 | the latency is exact again if and only if it never was off or some transfer has ended where a period does |
| AsioLatency.FramesMeetAPeriod | crates/ak1-proto/src/asio.rs:228-237 | frame by frame that happens within a period of steps |
| AsioLatency.CatchesUp | crates/ak1-proto/src/asio.rs:228-237 | from any state with at least the latency on its way, a turn and P single steps bring it to 2P + T exactly |
| AsioLatency.StallRecovery | crates/ak1-proto/src/asio.rs:228-237 | the same after every run, however long the host stalled in it |
| AsioTurns.TransferRuns | driver/ak1-acx/src/stream.rs:277-316 | a transfer of any packets is a row of enabled steps of a session's run, with the same session and the same frames played |
| AsioTurns.RespondRuns | asio/src/duplex.rs:306-312 | so is a host's turn |
| AsioTurns.RoundsRun | crates/ak1-proto/src/asio.rs:197-210 | and any number of transfers, each with a turn after it, from any state of any run between transfers |
| AsioTurns.SessionRuns | crates/ak1-proto/src/asio.rs:197-210 | and a session told in turns from its start |
| Mode2.SignExtended | crates/ak1-proto/src/mode2.rs:98-100 | the one 24-bit sample with the same low 24 bits; 24-bit samples are themselves |
| Mode2.FramesInPacket | crates/ak1-proto/src/mode2.rs:39-41 | as many frames are decoded as whole ones fit, and the status counts them |
| Mode2.CapturedAppend | crates/ak1-proto/src/mode2.rs:46-63 | one more frame's bytes decode to one more frame, with its errors and flags |
| Mode2.TrailingBytesIgnored | crates/ak1-proto/src/mode2.rs:43 | a partial frame at the end changes nothing |
| Mode2.DecodeBlock | crates/ak1-proto/src/mode2.rs:49-60 | a block fills its channel in both streams and adds its errors and rejection |
| Mode2.DecodeFrame | crates/ak1-proto/src/mode2.rs:47-61 | a frame of two blocks, left and right from the second and the first |
| Mode2.DecodeCapture | crates/ak1-proto/src/mode2.rs:44-65 | the loop yields exactly the packet's frames in order and their status |
| Mode2.EncodedJoins | crates/ak1-proto/src/mode2.rs:67-71 | the carried tail joins two packets into the bytes of one |
| Mode2.SplitDoesNotMatter | crates/ak1-proto/src/mode2.rs:67-92 | however frames are cut into packets, the bytes on the wire are the same |
| Mode2.BlockRoundTrip | crates/ak1-proto/src/mode2.rs:7-12 | the end of one playback block and the beginning of the next are a clean capture block |
| Mode2.FrameRoundTrip | crates/ak1-proto/src/mode2.rs:7-12 | a playback frame shifted by four bytes is a clean capture frame, left and right crossed |
| Mode2.WireRoundTrip | crates/ak1-proto/src/mode2.rs:44-92 | the playback bytes from the fifth on decode to the encoded frames, left and right crossed, samples sign-extended, no check error and no rejection |
| Mode2.PacketsRoundTrip | crates/ak1-proto/src/mode2.rs:44-92 | and so do the packets of any split |
| CaptureFormat.ErrorsCountWrongBytes | crates/ak1-proto/src/mode2.rs:51-55 | changing any byte changes the error count by exactly whether it is a check byte that is or was wrong in its low six bits |
| CaptureFormat.CleanMeansRight | crates/ak1-proto/src/mode2.rs:53-55 | no error is counted exactly if each check byte is right |
| CaptureFormat.OneWrongByte | crates/ak1-proto/src/mode2.rs:53-55 | one check byte of a clean packet changed in its low six bits is exactly one error |
| CaptureFormat.RejectedMeansBit7 | crates/ak1-proto/src/mode2.rs:56 | playback is reported rejected exactly if some check byte has bit 7 set |
| CaptureFormat.CaptureRoundTrip | crates/ak1-proto/src/mode2.rs:7-18 | what the card sends for any frames decodes to those frames in order, sign-extended, without an error |
| CaptureFormat.CleanIsItsOwn | crates/ak1-proto/src/mode2.rs:7-18 | and every packet without an error is what the card sends for the frames it decodes to |
| CaptureFormat.PlaybackIsCapture | crates/ak1-proto/src/mode2.rs:7-18 | playback from the fifth byte on is what the card would send for the same frames, left and right exchanged |
| Mode2.PlaybackEncoder.EncodeBlock | crates/ak1-proto/src/mode2.rs:79-88 | a block ends the samples before it and begins its own; the rest of the packet is untouched |
| Mode2.PlaybackEncoder.EncodeFrame | crates/ak1-proto/src/mode2.rs:76-90 | two blocks of a frame and the tail it leaves |
| Mode2.PlaybackEncoder.Encode | crates/ak1-proto/src/mode2.rs:75-91 | the loop takes as many frames as fit and writes exactly their encoding, nothing else |
| StreamAnswer.Format.CountFits | driver/ak1-acx/src/stream.rs:289-307 | a packet, arrived or lost, stands for at most 32 frames, so the decode buffer holds them |
| StreamAnswer.Format.TotalFits | driver/ak1-acx/src/stream.rs:309-315 | any number of packets stand for at most 32 frames each in all |
| StreamAnswer.Format.PacketsMirror | driver/ak1-acx/src/stream.rs:309-315 | playback packets lie back to back from 0, stay within the transfer, and have the length of the valid packet they answer |
| StreamAnswer.Format.InputsCounted | driver/ak1-acx/src/stream.rs:303-307 | as many frames are delivered as are played |
| StreamAnswer.Format.AllInputsAreHeard | driver/ak1-acx/src/stream.rs:286-307 | over any packets: for what the card sent its stream 0 left and right samples, sign-extended and in order; for a lost packet or one with a wrong check byte silence for as long |
| StreamAnswer.Format.BroughtIsCounted | driver/ak1-acx/src/stream.rs:279-300 | what a packet adds to the statistics, told by its length and bytes |
| StreamAnswer.Format.FillConserves | driver/ak1-acx/src/stream.rs:103-108 | frames filled and the remainder kept are together exactly the lost packets' time |
| StreamAnswer.Format.FillJoins | driver/ak1-acx/src/stream.rs:95-99 | filling goes on across transfers as over one row of packets |
| StreamAnswer.Format.FillIsExact | driver/ak1-acx/src/stream.rs:102-108 | after m lost packets floor(m * rate / 8000) frames have been filled in, and the remainder is m * rate mod 8000 |
| StreamAnswer.Engine.NominalFrames | driver/ak1-acx/src/stream.rs:103-108 | 8000 times the frames, and a remainder below 8000, are what was kept and the rate |
| StreamAnswer.Engine.Decode | driver/ak1-acx/src/stream.rs:284-301 | decodes a valid packet, nothing for a lost one, and counts |
| StreamAnswer.Engine.DecodePacket | driver/ak1-acx/src/stream.rs:279-301 | whether the packet arrived, its frames if so, and the four counts in terms of its length and bytes |
| StreamAnswer.Engine.Deliver | driver/ak1-acx/src/stream.rs:304-307 | delivers inputs 1/2, silence unless the packet was clean |
| StreamAnswer.Engine.Receive | driver/ak1-acx/src/stream.rs:280-307 | one packet: how many frames it stands for, what is delivered, the remainder and every count |
| StreamAnswer.Engine.LayOut | driver/ak1-acx/src/stream.rs:309-316 | a playback packet at its offset with its length, encoded from exactly that many frames; earlier bytes untouched |
| StreamAnswer.Engine.LayOutNext | driver/ak1-acx/src/stream.rs:309-316 | after it, the first i + 1 answers lie back to back and encode all frames played so far as one stream |
| StreamAnswer.Engine.ReceiveNext | driver/ak1-acx/src/stream.rs:278-307 | after it, the first i + 1 packets have been delivered in order and counted |
| StreamAnswer.Engine.AnswerPacket | driver/ak1-acx/src/stream.rs:278-317 | both for one packet, with or without a free playback transfer |
| StreamAnswer.Engine.Answer | driver/ak1-acx/src/stream.rs:258-320 | a whole transfer: all packets delivered, counted and answered as above; without a free transfer nothing is played and the overrun is counted; with the answers before it, one row of packets and one stream of frames |
| StreamAnswer.Log.Add | driver/ak1-acx/src/stream.rs:95-99 | an answer fills and encodes on from where the one before it ended |
| StreamAnswer.Log.FilledSoFar | driver/ak1-acx/src/stream.rs:102-108 | after any answers of an engine, the fills are floor(m * rate / 8000) for its m lost packets, and its remainder is m * rate mod 8000 |
| StreamAnswer.Log.WrittenSoFar | driver/ak1-acx/src/stream.rs:309-316 | and all bytes it has laid out, four bytes in, decode to the frames it has played, channels crossed, without an error |
| StreamProtocol.ActCounts | driver/ak1-acx/src/stream.rs:241-253 | each step of a request or routine moves the count by what it adds and ends |
| StreamProtocol.ActHolds | driver/ak1-acx/src/stream.rs:259-262 | a step keeps or hands on the transfers it holds, and gains at most a playback transfer whose flag was clear; flags follow |
| StreamProtocol.StepKeeps | driver/ak1-acx/src/stream.rs:175-470 | every step keeps the exact count and the ownership of every transfer |
| StreamProtocol.RunsKeep | driver/ak1-acx/src/stream.rs:119-470 | every state of every interleaving has them: nothing is lost from the count, held twice or touched by another |
| StreamProtocol.QuiescenceIsFinal | driver/ak1-acx/src/stream.rs:190-193 | once stopping and at zero, no request is outstanding, no routine runs, and no later step raises the count |
| StreamProtocol.TouchesOnlyItsOwn | driver/ak1-acx/src/stream.rs:258-332 | a step touches only transfers its own routine holds and no one else does |
| StreamProtocol.PlaybackHasOneHolder | driver/ak1-acx/src/stream.rs:457-470 | a playback transfer is busy exactly while held, and has one holder |
| StreamProtocol.FreedUntouched | driver/ak1-acx/src/stream.rs:335-344 | when transfers are freed nothing holds one, and no step is left |
| StreamProtocol.StopDescends | driver/ak1-acx/src/stream.rs:176-193 | after `running` is cleared every step brings the end nearer |
| StreamProtocol.StopNeverStuck | driver/ak1-acx/src/stream.rs:190-193 | while the count is not zero some request or routine can go on |
| StreamProtocol.StopIsBounded | driver/ak1-acx/src/stream.rs:175-193 | from the stop on, an engine takes no more steps than its activities had left |
| StreamCirculation.CaptureGoesRound | driver/ak1-acx/src/stream.rs:439-455 | while the engine runs, a capture transfer is at the stack or in its routine on the way there again if and only if none of its requests has completed with an error or failed to be sent again |
| StreamCirculation.AnsweredBetween | driver/ak1-acx/src/stream.rs:441-446 | between two times that a capture transfer is at the stack its packets have been answered |
| StreamCirculation.UnplayedFoundAllBusy | driver/ak1-acx/src/stream.rs:259-265 | an answer goes without a playback transfer only if its routine has found each of the 16 in use |
| StreamCirculation.ClaimsAreAccountedFor | driver/ak1-acx/src/stream.rs:322-332 | playback transfers claimed are those played out, those given up for an empty answer or a failed send, and those on their way |
| StreamCirculation.NothingIsSentWhileWaiting | driver/ak1-acx/src/stream.rs:177-193 | while `stop` waits, requests at the stack only become fewer |
| StreamCirculation.PipesRestart | driver/ak1-acx/src/stream.rs:194-198 | an engine that has stopped leaves neither pipe purged |
| AudioControl.Audio.ClaimRate | driver/ak1-acx/src/audio.rs:80-88 | one stream more; its rate becomes the card's only if there was none |
| AudioControl.Audio.ReleaseRate | driver/ak1-acx/src/audio.rs:90-100 | one stream fewer; the rate goes with the last |
| AudioControl.Audio.Prepare | driver/ak1-acx/src/audio.rs:102-112 | the stream starts over; it is counted if and only if the engine runs or starts, at the card's rate |
| AudioControl.Audio.Release | driver/ak1-acx/src/audio.rs:114-122 | pauses the stream and stops an engine no one needs |
| AudioControl.Audio.SwitchEngine | driver/ak1-acx/src/audio.rs:140-144 | keeps an engine already at the session's rate, else stops it and starts it there |
| AudioControl.Audio.RollBack | driver/ak1-acx/src/audio.rs:146-159 | takes the session's count back and the rate, and restarts for prepared streams |
| AudioControl.Audio.StartAsio | driver/ak1-acx/src/audio.rs:127-165 | busy, started or rolled back: the whole state and the status of each |
| AudioControl.Audio.StopAsio | driver/ak1-acx/src/audio.rs:168-190 | ends the owner's session and gives back its counts; anyone else's call changes nothing |
| AudioControl.Audio.StartEngine | driver/ak1-acx/src/audio.rs:221-226 | runs at the rate if the card is attached and the start succeeds, else an error and no change |
| AudioControl.Audio.Resume | driver/ak1-acx/src/audio.rs:209-219 | starts again exactly when there is a rate, someone prepared and no engine |
| AudioControl.Audio.Pause | driver/ak1-acx/src/audio.rs:239-248 | only the stream that runs in the slot leaves it |
| AudioControl.UsersAfter | driver/ak1-acx/src/audio.rs:80-190 | every operation moves `streams` by the stream or session it adds or takes |
| AudioControl.NeedersAfter | driver/ak1-acx/src/audio.rs:102-190 | and `prepared` likewise, the saturating subtractions never saturating |
| AudioControl.StepKeeps | driver/ak1-acx/src/audio.rs:80-248 | every operation keeps counts, rate, engine and running slots in agreement |
| AudioControl.RunsKeep | driver/ak1-acx/src/audio.rs:80-248 | in every run: a rate exactly while anyone uses the card; a running engine at that rate and needed; `prepared` the prepared streams and the session; only prepared streams run |
| AudioControl.CardIsFree | driver/ak1-acx/src/audio.rs:1-5 | with no stream and no session nothing is left: counts, rate, engine, slots |
| AudioControl.EngineRunsWhileNeeded | driver/ak1-acx/src/audio.rs:4-5 | in D0, unless its last start failed, the engine runs exactly while someone is prepared, at the card's rate |
| AudioControl.FailedStartRestores | driver/ak1-acx/src/audio.rs:143-161 | a session that fails to start leaves everything but the engine as it was; the engine runs at the old rate again exactly if someone is prepared and it starts, and not at all otherwise; a session refused as busy leaves that, too |
| AudioControl.RollbackRestoresRate | driver/ak1-acx/src/audio.rs:149-151 | from any state, the rate is restored if and only if there was none without streams |
| AudioControl.RateIsItsSetters | driver/ak1-acx/src/audio.rs:80-160 | in every run the card's rate is that of the stream that came when there was no user, or of the last session that started; none exactly once all have left |
| AudioControl.RateIsSettled | driver/ak1-acx/src/audio.rs:2-4 | so between sessions starting it does not change while anyone uses the card |
| AudioControl.SessionEndsByOwner | driver/ak1-acx/src/audio.rs:167-190 | only its owner's stop ends a session |
| AudioControl.PreparedExactlyWhen | driver/ak1-acx/src/audio.rs:102-112 | a stream is counted exactly if the engine runs or starts, at the card's rate or else its own |
| AudioControl.SessionExactlyWhen | driver/ak1-acx/src/audio.rs:127-165 | a session starts exactly if there is none and the engine runs at its rate or can be started at it; else it is busy, failed or not ready |
| AudioControl.RunsUntilDisplaced | driver/ak1-acx/src/audio.rs:235-248 | a stream set running stays in its slot until it is paused or released or another is set running there |
| AudioControl.StopsUntilRun | driver/ak1-acx/src/audio.rs:114-115 | a stream paused or released is in no slot until it is set running again |
| AudioInterleaving.StartIsWhole | driver/ak1-acx/src/audio.rs:127-165 | the sections of a session start with nothing between are the operation taken whole |
| AudioInterleaving.StopIsWhole | driver/ak1-acx/src/audio.rs:168-190 | so are those of a stop |
| AudioInterleaving.PrepareIsWhole | driver/ak1-acx/src/audio.rs:102-112 | of preparing a stream |
| AudioInterleaving.ReleaseIsWhole | driver/ak1-acx/src/audio.rs:114-122 | of releasing one |
| AudioInterleaving.PowerIsWhole | driver/ak1-acx/src/audio.rs:204-219 | and of suspending and resuming |
| AudioInterleaving.CallEnds | driver/ak1-acx/src/audio.rs:102-219 | every call comes to its end, and its sections lead there |
| AudioInterleaving.StartGoesThrough | driver/ak1-acx/src/audio.rs:127-165 | a start when the control lock is free opens a session exactly if the operation succeeds |
| AudioInterleaving.OwnersStop | driver/ak1-acx/src/audio.rs:168-190 | a stop by the owner gets past the first check, ends the session once and leaves no trace of the call |
| AudioInterleaving.PrepareGoesThrough | driver/ak1-acx/src/audio.rs:102-112 | a stream prepared when the control lock is free is prepared exactly if it is counted |
| AudioInterleaving.ReleaseGoesThrough | driver/ak1-acx/src/audio.rs:114-122 | and a stream released then is not prepared any more |
| AudioInterleaving.AdvanceKeepsClock | driver/ak1-acx/src/audio.rs:102-233 | each section under the control lock keeps rate and engine in agreement unless it loses a rate |
| AudioInterleaving.DestroyKeepsClock | driver/ak1-acx/src/audio.rs:90-100 | and so does a stream destroyed between any two of them |
| AudioInterleaving.StepKeeps | driver/ak1-acx/src/audio.rs:80-233 | every step of every thread keeps the invariant |
| AudioInterleaving.RunsKeep | driver/ak1-acx/src/audio.rs:80-233 | it holds in every interleaving |
| AudioInterleaving.GivenBackOnce | driver/ak1-acx/src/audio.rs:127-190 | one session at a time; each is closed once, by its owner; `streams` and `prepared` account for it exactly until then and not after |
| AudioInterleaving.NonOwnersStop | driver/ak1-acx/src/audio.rs:175-181 | a stop by anyone but the owner changes nothing, at the unlocked check or under the lock |
| AudioInterleaving.RateInEveryRun | driver/ak1-acx/src/audio.rs:27-30 | in every interleaving no users means no rate; until a rate is lost a user means one, and a running engine runs at it |
| AudioInterleaving.RateIsItsSetters | driver/ak1-acx/src/audio.rs:80-160 | until a rate is lost, the card's rate is its setter's in every interleaving, except during a session's start, when it is the session's; if that fails it is the setter's again |
| AudioInterleaving.EngineIsNeeded | driver/ak1-acx/src/audio.rs:4-5 | in every interleaving, rate lost or not, an engine that runs while no call is under way runs for a prepared stream or the session |
| AudioInterleaving.RateLostExactlyWhen | driver/ak1-acx/src/audio.rs:146-153 | the first step to break "a rate exactly while someone uses the card" is a rollback to no rate with another user there, and every such step does |
| AudioInterleaving.LateClaim | driver/ak1-acx/src/audio.rs:80-88 | a run that ends with one stream and no rate |
| AudioMixing.Render | driver/ak1-acx/src/audio.rs:298-308 | each output is the clipped sum of the session's sample and what its pair plays, zero for one that is missing, without 32-bit wrap; a stream alone is heard on its own pair of outputs and a session alone on all four |
| PacketRing.ContainerRoundTrip | driver/ak1-acx/src/rt.rs:139-161 | a 24-bit sample stored and read back is itself in 32 bits, with its low 8 bits cleared in 16 |
| PacketRing.ContainerIsLittleEndian | driver/ak1-acx/src/rt.rs:157-161 | a container is the sample's upper 16 bits, or the sample 8 bits up, least byte first |
| PacketRing.LeftThenRight | driver/ak1-acx/src/rt.rs:139-163 | left lies before right, and each is read as the signed number of its own bytes |
| PacketRing.LoadedIs24Bit | driver/ak1-acx/src/rt.rs:139-147 | whatever lies in the ring, what is played is 24-bit |
| PacketRing.FrameRoundTrip | driver/ak1-acx/src/rt.rs:139-163 | a whole frame read back |
| PacketRing.Layout.PlaceFits | driver/ak1-acx/src/rt.rs:172-177 | every frame lies in one of the packets and within its pages |
| PacketRing.Layout.FirstPlace | driver/ak1-acx/src/rt.rs:172-177 | frame 0 starts at the first packet's offset |
| PacketRing.Layout.NextPlace | driver/ak1-acx/src/rt.rs:172-177 | each frame follows the one before it, in its packet or at the start of the next, the first after the last |
| PacketRing.Layout.PlacesApart | driver/ak1-acx/src/rt.rs:172-177 | as many frames in a row as the ring has room for never overlap |
| PacketRing.Layout.WrittenApart | driver/ak1-acx/src/rt.rs:172-177 | a frame written leaves every other frame of the last turn of the ring as it was |
| PacketRing.Layout.HoldsNext | driver/ak1-acx/src/rt.rs:153-177 | a ring that holds the newest frames, and then one more written, holds the newest |
| PacketRing.Pages | driver/ak1-acx/src/rt.rs:226-228 | whole pages, the fewest that hold a packet |
| PacketRing.PacketRing.AllocatePackets | driver/ak1-acx/src/rt.rs:218-258 | exactly which requests are invalid; on failure no ring; on success fresh, distinct packets described as laid out |
| PacketRing.PacketRing.FrameBytes | driver/ak1-acx/src/rt.rs:167-178 | the next frame's packet and offset, none without packets |
| PacketRing.Cursor.Advance | driver/ak1-acx/src/rt.rs:188-199 | packets reported finished stay exactly 0, 1, 2, … once each in order, `current_packet` is frames / frames per packet modulo 2^32, and the last one's start is the time its first frame moved |
| PacketRing.PacketRing.Advance | driver/ak1-acx/src/rt.rs:180-200 | with packets as above; without them only the position and its time move |
| PacketRing.NextPacket | driver/ak1-acx/src/rt.rs:194-195 | a packet is finished by the frame that makes it whole and by no other |
| PacketRing.PacketRing.StoreFrame | driver/ak1-acx/src/rt.rs:155-162 | both samples of a frame side by side |
| PacketRing.PacketRing.Replace | driver/ak1-acx/src/rt.rs:153-163 | the ring's memory is as before with the frame written at its place |
| PacketRing.PacketRing.CaptureFrame | driver/ak1-acx/src/rt.rs:153-165 | the ring goes on holding the newest captured frames, as many as it has room for |
| PacketRing.PacketRing.RenderFrame | driver/ak1-acx/src/rt.rs:137-150 | plays what lies at the next frame's place; without packets silence, and nothing moves |
| PacketRing.PacketRing.PlaysJoin | driver/ak1-acx/src/rt.rs:167-178 | frames rendered first and frames rendered next are those in the packets one after the other |
| PacketRing.PacketRing.Reset | driver/ak1-acx/src/rt.rs:208-216 | from frame 0, with no packet reported |
| RtStream.RtStream.Reset | driver/ak1-acx/src/rt.rs:208-216 | ring and resampler start over |
| RtStream.RtStream.Tune | driver/ak1-acx/src/rt.rs:107-110 | the resampler restarts when the card's rate has changed and is left alone otherwise |
| RtStream.RtStream.RatioIsExact | driver/ak1-acx/src/rt.rs:107-110 | whenever it converts, `up` and `down` are the two rates in lowest terms |
| RtStream.RtStream.Pull | driver/ak1-acx/src/rt.rs:111-116 | the loop ends with the next output and has taken exactly the frames that needs, those in the packets from the next one on |
| RtStream.RtStream.Render | driver/ak1-acx/src/rt.rs:102-117 | output n is the conversion, in the exact ratio of the two rates, of the frames in the packets, floor((n - 1) * down / up) + taps + 1 of them after n outputs; at the card's own rate the next of them; 24-bit either way |
| RtStream.RtStream.Convert | driver/ak1-acx/src/rt.rs:126-131 | a captured frame makes exactly the next outputs available, converted in the exact ratio of the two rates |
| RtStream.RtStream.Capture | driver/ak1-acx/src/rt.rs:121-134 | they go into the ring in order, which goes on holding the newest and reporting finished packets |
| RtStream.RtStream.Play | driver/ak1-acx/src/rt.rs:102-117 | playing any number of frames from a reset on plays the conversion, in the exact ratio, of the frames in the packets from the first on |
| RtStream.RtStream.Record | driver/ak1-acx/src/rt.rs:121-134 | recording any frames from a reset on records their conversion in the exact ratio, and the ring holds the newest part of it |

## Left out

- The kernel table is a parameter with the right number of entries, and of magnitude at most 2^30 where sizes are at stake; how `build.rs` computes it, and signal quality (80 dB, constant level), is floating point.
- Resampler.Resampler.Pop: says nothing about the value when the ring has been overrun, which a client that pushes only after an empty pop cannot do at the card's rates; `pushed`, `center` and the ring's frame counter are unbounded here, 64-bit in the driver.
- AsioRuns.StepKeeps: a period is at least one frame, as the driver's session start demands (driver/ak1-acx/src/asio.rs:160); copying a period through the request's own buffer, and the shift by 8 bits on the way, is not modelled.
- StreamProtocol.RunsKeep: WDF, USB and the URBs are steps that succeed, fail or complete at any time; purging fails later sends, but that it waits is not relied on. A failed format or reuse counts as a failed send that was never counted.
- StreamAnswer.Engine.Answer: timestamps, and the atomic counters' wrap-around, are not modelled; what the streams play comes from a source object in place of the closure, so `Frames.render` (modelled in `AudioMixing` and `RtStream`) is not called from it. `Frames.capture` is the list of frames delivered. The rate is at most 192 kHz.
- AudioControl.RunsKeep: counts are unbounded, 32-bit in the driver. It assumes the framework's discipline: a stream is made, prepared, released and destroyed in that order, and released only if it was prepared.
- AudioInterleaving.RunsKeep: `running` slots and `run`/`pause`, single sections under the audio lock, are only in `AudioControl`, as is attaching the card; a stop that waits for the control lock is a step that comes at any later time.
- RtStream.RtStream.Play: nobody writes the packets while it plays; `Render`, which it calls for each frame, holds whatever has been written in between.
- RtStream.RtStream.Convert: takes all outputs before they are stored, where the driver stores each as it comes; the resampler does not see the ring.
- The property set, COM surface, registry settings, panel, setup, circuits and the command exchange with the card.
- Statistics other than those named, recording them when an engine or a session ends, and event signalling.
