# Verified model of rsipstack-server

rsipstack-server is a small VoIP server: it accepts SIP calls, binds an RTP/RTCP port pair for each,
negotiates a codec and moves audio between the RTP socket and an audio handler. This project models the
parts of it that carry hard properties and proves them for every input, every run and every interleaving:

- `PortRange.dfy`, `PortPool.dfy`, `PortAllocation.dfy`: the lock-free port pool. `PortPool` is a step
  system in which any number of calls load, compare-exchange, bind and release concurrently, on an
  operating system whose ports others use too. `PortAllocation` is the same code run alone, imperatively,
  and the proof that an undisturbed run of the step system agrees with it.
- `Bits.dfy`, `CodeWord.dfy`, `Segments.dfy`, `Pcma.dfy`, `Pcmu.dfy`, `G711.dfy`, `L16.dfy`, `Wire.dfy`:
  the codecs written in the repository. Shifts and masks are transcribed literally over bit operations
  defined bit by bit; `Segments` is the logarithmic scale both G.711 laws share.
- `SendTask.dfy`, `ReceiveTask.dfy`, `MediaSession.dfy`, `TaskLoops.dfy`: the media tasks of a call. The
  first two are the task loops as written, over arbitrary turns of their selects; `MediaSession` puts
  receive task, echo handler, send task, clock, channels and cancellation tokens together as one step
  system; `TaskLoops` proves that in every run of it the two tasks do what the loops do.
- `Negotiation.dfy`: codec negotiation on structured SDP offers, for every set of compiled-in codecs.
- `CallLifecycle.dfy`: `handle_call` for any number of interleaved calls, with metrics and sockets, on
  top of the port pool.
- `CallMedia.dfy`, `CallPaths.dfy`: the whole server, in which the media tasks of every call are a session
  of `MediaSession`, and states of it that some run reaches.
- `TimingDeviation.dfy`: the send cadence metric. `Wrappers.dfy`: the option type.

A run of a step system is a sequence of states and a sequence of labels with every step enabled; a
statement about `states[i]` of a run is a statement about every reachable state.

Where the code and what is said about it disagree, the model follows the code:

- The configuration documents the media receive timeout as stopping the call, and the receive task logs
  that it cancels the call. The task cancels the session's child token, while the call waits for the
  dialog's token, so the timeout alone ends the media and leaves the call active: `CanTalk` and
  `TimeoutAloneLeavesCallActive` reach such a state, and `TimeoutNeverEndsCall` says, for every run, that
  a talking call can return exactly if its dialog was cancelled.
- Port ranges that `RtpPortRange::new` accepts can still misbehave. `DrawsSoundExactlyWhen` says exactly
  which of them overflow. An odd minimum with an even maximum loses its last pair (`PoolIsRange`). A range
  that starts at port 0 is a third bad configuration: the operating system never refuses port 0 and picks
  a free port instead, so several live calls can announce the pair (0, 1). `NeverSharedExactlyWhen` says
  that, on ranges that do not overflow, this is the only way for live calls to share a port.
- The answer's clock rate is always the offered one for L16 and for no other codec:
  `AnsweredAtOfferedRateExactlyWhen`.
- A-law treats a set sign bit as negative in both directions, the opposite of ITU-T G.711; round trips
  are claimed, not conformance of polarity.

## Model

| member | source | states |
|---|---|---|
| PortRange.DrawsSoundExactlyWhen | src/media/rtp.rs:119-175 | construction fails exactly on an empty range; otherwise all draws, any number of them, stay in the pool, keep the parity of the first port, keep RTCP at most max_port and never overflow sixteen bits, exactly unless (min even, max 65535) or (min odd, max = min + 1) |
| PortRange.PoolIsRange | src/media/rtp.rs:119-175 | but for an odd minimum right below the maximum, the pool has (max - min + 1) / 2 pairs, one less for an odd minimum with an even maximum, and these are exactly the pairs of the configured range with the parity of its first port, the lost last one excepted |
| PortRange.CursorEscapesToZero | src/media/rtp.rs:150-171 | with an even minimum and max 65535 the cursor wraps to port 0 after one round |
| PortRange.CursorIsRoundRobin | src/media/rtp.rs:150-175 | after n draws the cursor stands on pair n mod capacity |
| PortPool.StepInv | src/media/rtp.rs:150-243 | every step of every call keeps: cursor and draws in round-robin order, a port owned by a call exactly while the call has a socket on it, calls working only on pairs they drew, attempts counted |
| PortPool.RoundRobin | src/media/rtp.rs:150-171 | in every run the k-th successful compare-exchange draws pair k mod capacity, stale loads and ABA included |
| PortPool.WindowCoversPool | src/media/rtp.rs:150-175 | any capacity consecutive draws hand out each pair exactly once |
| PortPool.LoadsAnyEarlierCursor | src/media/rtp.rs:153-156 | in every run the relaxed load can return a value exactly if the cursor held it at some time up to then |
| PortPool.CompareExchangeSucceedsIff | src/media/rtp.rs:153-170 | in every run, a compare-exchange after a load, with any steps of others in between, succeeds exactly when the pool has moved by a multiple of its capacity since the loaded value was current: not at all, or round to the same value (ABA) |
| PortPool.RetryMeansProgress | src/media/rtp.rs:151-170 | the retry loop is lock-free: after an up-to-date load it repeats only if another call drew a pair meanwhile |
| PortPool.LiveCallsAreDisjoint | src/media/rtp.rs:195-222 | the pairs of two calls with sockets are disjoint, even after the RTCP sockets are dropped, exactly unless both are at port 0, which only a pool starting there hands out |
| PortPool.HalfBoundAttemptRestores | src/media/rtp.rs:195-209 | in every run, an attempt that is refused its RTCP port frees its RTP port again, none of its steps touches another port, whatever others do in between, and it counts as one attempt |
| PortPool.FreePairCanBeLost | src/media/rtp.rs:195-209 | a pair that is free when it is drawn can be taken by others before it is bound, and the attempt then fails and counts; given back, it is as if nothing had happened |
| PortPool.AllocationNeverSticks | src/media/rtp.rs:150-243 | in every run an allocation that has not ended can take a step of its own |
| PortPool.AllocationsEnd | src/media/rtp.rs:225-243 | in every run an allocation takes at most four steps for each pair of the pool, and one, besides the retries of its compare-exchange, whatever others do |
| PortPool.ExhaustedSawWholePool | src/media/rtp.rs:225-243 | when an allocation gives up, every pair was drawn between its own first and last draw |
| PortPool.FailureIsJustified | src/media/rtp.rs:225-243 | every pair a failed allocation drew was held by somebody else at some time during the call; every pair nobody else held throughout was drawn by another call during it |
| PortPool.FailureCounted | src/media/rtp.rs:225-243 | while an allocation that fails is running, other calls draw at least as many times as there are pairs nobody else held throughout |
| PortAllocation.RtpPortRange.constructor | src/media/rtp.rs:119-148 | a constructed range satisfies its invariant, that draws stay in the pool, exactly when it is not misconfigured, and then the pool has exactly the pairs of the configured range |
| PortAllocation.RtpPortRange.NextPortPair | src/media/rtp.rs:150-171 | returns the pair under the cursor and moves cyclically to the next |
| PortAllocation.BindPair | src/media/rtp.rs:195-209 | binds both ports of a pair the system lets it have, otherwise changes nothing; port 0 is never refused and takes no port of the pool |
| PortAllocation.RtpPortRange.TryAllocate | src/media/rtp.rs:225-243 | alone, returns the first free pair in cyclic order from the cursor, bound, with the cursor behind it; if none is free, bound ports and cursor are as before |
| PortAllocation.SucceedsExactlyWhenFree | src/media/rtp.rs:225-243 | such an allocation succeeds exactly when a fully free pair exists |
| PortAllocation.SoloRun | src/media/rtp.rs:150-243 | in every run of the concurrent pool, an allocation during which no other call moves follows the same course as the loop run alone, stale loads included, and ends with the same result, cursor and ports |
| Pcma.SearchExponent | src/codec/pcma.rs:83-92 | the exponent loop ends with the thirteen-bit magnitude shifted right by the exponent in 16..31, at the right interval of the scale |
| Pcma.EncodeSampleBySearch | src/codec/pcma.rs:59-98 | the encoder as written computes the interval of the sample's magnitude, with sign, bits toggled |
| Pcma.DecodeMeaning | src/codec/pcma.rs:31-56 | the decoder's shifts and masks give the signed midpoint of the interval |
| Pcma.DecodeWire | src/codec/pcma.rs:31-56 | in terms of the bits on the wire, the even ones complemented: negative exactly from 128 up, and 16m + 8 for exponent 0, else (16m + 264) * 2^(e-1) |
| Pcma.EncodeWire | src/codec/pcma.rs:59-98 | in the same terms, the encoder's byte has the sign of the sample and names the interval that holds its magnitude, the most negative sample being clipped into the last |
| Pcma.EncodeInvertsDecode | src/codec/pcma.rs:31-98 | every byte survives decoding and encoding |
| Pcma.LevelError | src/codec/pcma.rs:31-98 | a magnitude is reproduced within max(8, a thirty-second of it), for every sample |
| Pcma.QuantisationMonotone | src/codec/pcma.rs:31-98 | encoding and decoding keeps the order of samples |
| Pcmu.LeadingZerosFindOctave | src/codec/pcmu.rs:74-80 | counting leading zeros finds the interval of the biased sample |
| Pcmu.EncodeSampleByLeadingZeros | src/codec/pcmu.rs:53-85 | the encoder as written computes the interval of the clipped, biased magnitude, with sign, inverted |
| Pcmu.DecodeMeaning | src/codec/pcmu.rs:31-50 | the decoder's shifts and masks give the signed midpoint less the bias |
| Pcmu.DecodeWire | src/codec/pcmu.rs:31-50 | in terms of the bits on the wire, all complemented: negative exactly below 127, and magnitude (8m + 132) * 2^e - 132 |
| Pcmu.EncodeWire | src/codec/pcmu.rs:53-85 | in the same terms, the encoder's byte has the sign of the sample and names the interval that holds its magnitude, clipped at 32635 and biased by 132 |
| Pcmu.EncodeInvertsDecode | src/codec/pcmu.rs:31-85 | every byte survives decoding and encoding, except that 0x7F becomes 0xFF |
| Pcmu.LevelError | src/codec/pcmu.rs:31-85 | 32 times the error is at most the magnitude plus 132, clipped samples included |
| Pcmu.QuantisationMonotone | src/codec/pcmu.rs:31-85 | encoding and decoding keeps the order of samples |
| G711.Codec.constructor | src/codec/pcma.rs:20-28 | the table filled in place holds the decoder's value for every byte |
| G711.Codec.DecodePayload | src/codec/pcma.rs:120-133 | samples 2i and 2i+1 are the decoded byte i, and there are no others |
| G711.Codec.EncodeFrame | src/codec/pcma.rs:135-146 | byte i encodes sample 2i+1, and an odd frame's last byte its last sample; there are half as many bytes as samples, rounded up |
| G711.EncodeInvertsDecode | src/codec/pcmu.rs:107-133 | for payloads of any length, encode(decode(p)) is p for A-law, and p with 0x7F replaced by 0xFF for mu-law |
| G711.ReconstructShape | src/codec/pcma.rs:120-146 | a frame of n samples comes back with 2*ceil(n/2), each pair repeating the quantised kept sample |
| G711.ReconstructError | src/codec/pcma.rs:59-146 | both copies of every transmitted sample (2i+1, and the last of an odd frame) are within the error of the law, for frames of any length |
| G711.ReconstructMonotone | src/codec/pcmu.rs:53-133 | frames ordered pointwise stay ordered pointwise |
| G711.FurtherHopsAreLossless | src/codec/pcmu.rs:31-133 | any number of encode/decode hops after the first changes nothing |
| L16.DecodeInvertsEncode | src/codec/l16.rs:32-47 | every frame survives unchanged |
| L16.BigEndian | src/codec/l16.rs:45-47 | byte 2i is the high byte and byte 2i+1 the low byte of the two's complement of sample i |
| L16.EncodeInvertsDecode | src/codec/l16.rs:32-47 | every payload survives but for a trailing odd byte |
| Wire.EncodeInvertsDecode | src/codec/mod.rs:152-169 | the three codecs' round trips under one interface |
| Wire.FramesOnWire | src/codec/mod.rs:152-169 | a frame of 20 ms keeps its 320 samples over the wire; its packet has one sample for each tick of its kind's timestamp increment, two bytes each for L16 and one for G.711, in the law its kind names |
| SendTask.RtpSendState.Next | src/media/rtp.rs:60-67 | returns the current header state; the sequence number grows by one and the timestamp by the increment, both wrapping |
| SendTask.ConsecutiveHeaders | src/media/rtp.rs:60-67 | in a numbered stream the first header is the start's, each next one has the sequence number plus one and the timestamp plus the increment, modulo 2^16 and 2^32, and nothing else changes |
| SendTask.SendLoop | src/media/session.rs:206-270 | for any turns and any codec output, the packets sent are the non-empty payloads in order, the k-th numbered s0+k mod 2^16 and t0+k*increment mod 2^32 with constant SSRC and payload type; one extra number is consumed exactly if the socket refused a packet |
| SendTask.SameTimestamp160 | src/codec/pcmu.rs:139-142 | at 160 ticks packets share a timestamp exactly when their indices agree modulo 2^27 |
| SendTask.SameTimestamp320 | src/codec/l16.rs:53-56 | at 320 ticks exactly when they agree modulo 2^26 |
| SendTask.SameTimestamp960 | src/codec/opus.rs:72-76 | at 960 ticks exactly when they agree modulo 2^26 |
| SendTask.TimestampDeterminesSequence | src/media/rtp.rs:60-67 | for all codecs, equal timestamps imply equal sequence numbers |
| ReceiveTask.ReceiveLoop | src/media/session.rs:135-203 | for any turns: runs up to the first turn that is cancelled, overdue, has a socket error or a closed channel; forwards the payloads parsed until then in order; times out exactly if that turn is not cancelled and a full timeout has passed since the start and every parsed packet, even with a packet waiting |
| MediaSession.DeadlineFollowsIntake | src/media/session.rs:142-202 | in every run the clock stands at the start plus the time elapsed, and the deadline one timeout after the last parsed packet, or the start |
| MediaSession.CancelledExactlyWhenDue | src/media/session.rs:147-156 | a session becomes cancelled exactly by its dialog or by a poll at which the timeout is due; such a poll takes no packet from the socket |
| MediaSession.CancellationHasCause | src/media/session.rs:147-156 | in every run the dialog's token is set exactly if the dialog was cancelled, and the session's exactly if the dialog was cancelled or a poll found the timeout due |
| MediaSession.NoIntakeAfterCancellation | src/media/session.rs:146-202 | after cancellation the receive task takes in at most the packet it already holds |
| MediaSession.NoIntakeAfterTimeout | src/media/session.rs:153-156 | after its own timeout it takes in none |
| MediaSession.ArrivalsInOrder | src/media/session.rs:142-202 | in every run the datagrams handled, then the one in hand, then the socket are exactly those that arrived, in order; the payloads received are those of the handled datagrams that parse |
| MediaSession.EchoStream | examples/echo_server.rs:80-108 | in every reachable state of receive task, echo handler and send task, the packets sent are a prefix of the payloads that arrived and have been handled, canonicalised with empty ones removed, numbered consecutively; at most one number is consumed without a packet |
| MediaSession.EchoComplete | src/media/session.rs:157-260 | with echo handler and send task waiting and both channels drained, everything handled has been echoed, and everything that arrived if nothing waits |
| MediaSession.PacketComesBack | examples/echo_server.rs:80-108 | from any state in which the tasks wait for a packet, one that arrives is taken through all three tasks and sent back, canonicalised, under the next number, and the tasks wait again, the deadline a full timeout away |
| MediaSession.OrderlyEnd | src/media/session.rs:133-270 | in every run without cancellation or failed send, only a socket error stops the receive task, the echo handler stops only after it, the send task only after the echo handler, and then everything handled has been echoed |
| MediaSession.EchoOutlivesTimeout | examples/echo_server.rs:80-108 | while the dialog is not cancelled the echo handler goes on until the receive task has stopped and every frame has been taken, or the send task is gone |
| MediaSession.StopsPropagate | src/media/session.rs:182-260 | in every run, once the send task has stopped nothing more is sent and the next frame put stops the echo handler; once that has stopped, the next parsed packet stops the receive task |
| MediaSession.TasksNeverStick | src/media/session.rs:133-270 | in every run each task can take a step whenever it has something to do or the task before it has stopped, and in any case once the dialog is cancelled; a waiting receive and any send may fail |
| MediaSession.SentTimestamps | src/media/session.rs:213-260 | among the packets a session sent, equal timestamps imply equal sequence numbers |
| TaskLoops.SenderRunsLoop | src/media/session.rs:206-270 | in every run of a session, the send task has sent the packets and used up the numbers that `SendLoop` does on the turns the run gave it |
| TaskLoops.ReceiverRunsLoop | src/media/session.rs:135-203 | in every run of a session, the receive task has forwarded, timed out and stopped as `ReceiveLoop` does on the turns the run gave it, time passing between a poll and the handling of its datagram included |
| Negotiation.FindRtpmap | src/media/sdp.rs:110-124 | the inner loop finds the name of the first rtpmap of the payload type, or none if that is an L16 of another rate |
| Negotiation.ResolveOffer | src/media/sdp.rs:102-134 | the loops as written collect the supported codecs in the order of the payload types |
| Negotiation.FromNameExactly | src/codec/mod.rs:76-108 | a name denotes a kind exactly when it is that kind's name in any case and the kind is compiled in |
| Negotiation.ResolveExactly | src/media/sdp.rs:109-128 | a dynamic payload type resolves to a kind exactly when its first rtpmap names it, it is compiled in, and L16 runs at 16 kHz |
| Negotiation.StaticTypes | src/media/sdp.rs:104-109 | payload types 0, 8 and 9 resolve by number, whatever the attributes |
| Negotiation.UnmappedType | src/media/sdp.rs:109-134 | a dynamic payload type without a usable rtpmap is named PT and its number, and resolves to nothing |
| Negotiation.SelectionCharacterised | src/media/sdp.rs:100-152 | the result is exactly the earliest-listed entry of the lowest rank offered; NoSupportedCodec exactly when nothing resolves |
| Negotiation.PreferenceOrder | src/codec/mod.rs:56-68 | kind by kind: L16 exactly if some entry resolves to it, Opus exactly if some does and none to L16, then G722, PCMU, and PCMA only if nothing else resolves; the entry is the first of its kind |
| Negotiation.MoreTypesNeverWorse | src/media/sdp.rs:146-152 | adding payload types never loses the call, and the kind stays or becomes one before it in the order L16, Opus, G722, PCMU, PCMA |
| Negotiation.OrderIsIrrelevant | src/media/sdp.rs:146-152 | the kind depends only on the set of payload types |
| Negotiation.AnswerIsFixedPoint | src/media/sdp.rs:173-210 | negotiating on the answer gives the same payload type and kind; the type was offered; the codec's increment is 20 ms of the advertised clock |
| Negotiation.AnswerContent | src/media/sdp.rs:173-210 | the answer has the negotiated payload type alone, with one rtpmap: L16/16000, opus/48000, G722/8000, PCMU/8000 or PCMA/8000, a name that denotes the kind and a rate of which the codec's increment is 20 ms |
| Negotiation.L16RateAgrees | src/media/sdp.rs:113-121 | a negotiated L16 was offered at the answered rate |
| Negotiation.OtherRatesIgnored | src/media/sdp.rs:103-134 | every compiled-in kind but L16 is accepted at every rate, on every payload type that stands for it by number or by the name of its rtpmap |
| Negotiation.AnsweredAtOfferedRateExactlyWhen | src/media/sdp.rs:113-210 | for a compiled-in kind, every offer negotiated to it is answered at the clock rate of its first rtpmap, if it has one, exactly when the kind is L16 |
| CallLifecycle.RunProjects | src/call_handler.rs:66-138 | every run of the server is, state by state, a run of the port pool |
| CallLifecycle.ExhaustionIsJustified | src/call_handler.rs:66-77 | a call rejected for an exhausted pool drew only pairs that others held while it tried; every pair nobody else held throughout went to another call meanwhile, so others drew at least as often as there were such pairs |
| CallLifecycle.LiveCallsNeverShare | src/call_handler.rs:66-138 | in every run, calls being set up or with a running media task use disjoint pairs, exactly unless both are at port 0 |
| CallLifecycle.PortsBoundExactlyWhileHeld | src/media/session.rs:96-131 | in every run a port is bound for a call exactly while its allocation attempt (what the attempt has bound so far), the rest of the setup (both ports) or one of the two media tasks (RTP alone) holds it |
| CallLifecycle.SocketsAreThere | src/call_handler.rs:80-138 | whenever a call reaches a socket operation, it has the sockets for it |
| CallLifecycle.CallsBalance | src/call_handler.rs:35-169 | in every run the gauge equals the calls between accept and return, each counter its calls, and every finished call is accounted for once: accepted, rejected for one reason, accept-failed or lost to an SDP-reject error |
| CallLifecycle.CountersCountEvents | src/call_handler.rs:53-169 | in every run the counter of a rejection reason is the number of failures of its own step (parse, codec match, allocation, connect, codec creation), the accepted counter the number of accepted calls, the gauge that less the returns, and the finished calls the number of exits |
| CallLifecycle.CallsTakeTheirCourse | src/call_handler.rs:35-169 | in every run the steps a call has taken are the code's, in its order and each once, up to where it stands, with the one exit it took if it was turned away |
| CallLifecycle.CallsNeverStick | src/call_handler.rs:35-169 | in every run a call that is not over can go on, with every outcome the code knows at its stage |
| CallLifecycle.OthersActFreely | src/call_handler.rs:66-77 | sockets of other programs come and go in the server exactly as in the pool |
| CallLifecycle.TalkingUntilDialogCancelled | src/call_handler.rs:152-168 | a talking call stays so, and cannot return, until its dialog is cancelled |
| CallLifecycle.ReturnNeedsDialog | src/call_handler.rs:152-168 | in every run a talking call can return exactly if its dialog was cancelled at some time before |
| CallMedia.RunProjects | src/call_handler.rs:35-169 | every run of the server with its sessions is, state by state, a run of `CallLifecycle` in which timeouts and task ends are those of the sessions |
| CallMedia.RunLinked | src/call_handler.rs:95-138 | in every run a call has a session exactly once it talks, the session is a run of `MediaSession`, and both tokens and both tasks are for the server what they are in the session |
| CallMedia.SessionsNeverBlocked | src/media/session.rs:96-131 | whatever step a session can take on its own it can take in the server |
| CallMedia.PortOpenExactlyWhileTasksRun | src/media/session.rs:96-131 | in every run the RTP port of a call is bound exactly until both its media tasks have stopped |
| CallMedia.TimeoutNeverEndsCall | src/call_handler.rs:95-168 | in every run a talking, uncancelled call has its media cancelled exactly if its receive task polled a full timeout after the last parsed packet, and in either case it can return exactly if its dialog was cancelled |
| CallMedia.EveryCallEchoes | examples/echo_server.rs:80-108 | in every run of the whole server, what each call has sent is a prefix of the audio that arrived for it and has been handled, canonicalised and numbered consecutively |
| CallPaths.CanTalk | src/call_handler.rs:35-138 | on every usable range whose first pair is free, with any media configuration, a run leads to a talking call with both tasks at work |
| CallPaths.TimeoutAloneLeavesCallActive | src/server.rs:39-42 | contrary to the documented timeout, from every reachable talking call whose tasks wait, the passing of time and the tasks' reactions to it alone lead to both tasks stopped, the port closed and the call still active and unable to return |
| CallPaths.NeverSharedExactlyWhen | src/media/rtp.rs:119-148 | live calls have disjoint pairs in every reachable state exactly when the pool does not start at port 0 |
| TimingDeviation.TimingDeviationMetric.Record | src/metrics.rs:256-265 | both histograms get one sample per gap, none for the first tick |
| TimingDeviation.GapsAddUp | src/metrics.rs:249-265 | n ticks give n-1 samples, the k-th being gap k less the expected interval; they sum to (last - first) - (n-1)*expected |

## Left out

- PortAllocation.RtpPortRange.NextPortPair: without interference the compare-exchange succeeds at once, so this method has no retry; the retry loop is in `PortPool`.
- Opus and G.722 encoding and decoding: foreign libraries; only their timestamp increments are modelled, and an empty encoder result is possible at any turn of `SendLoop`. `MediaSession` covers the codecs written here.
- RTP header bytes: a packet is a record, and whether a datagram parses is given.
- SDP text: offers and answers are structured; Opus channel counts and format parameters are not in them, and formats that are not numbers, other media and missing connection addresses are dropped before the model starts.
- Durations near the end of the clock's range: time is unbounded, so adding a maximal timeout to the current instant does not overflow.
- Floating-point rounding of timing deviations: durations are exact.
- Sockets of one call closed together: dropping an unused pair closes both ports in one step.
- Bind failures other than a taken port: running out of descriptors or missing permissions is not modelled. The port the system picks for port 0 is left to the outside sockets, which may take and free any port.
- Codec labels on the accepted counter and the port allocation metrics: they would repeat the counters modelled.
- Transport set-up, dialog routing, drain mode, interface discovery, metric registration and logging: calls into libraries and single flags.
