# Verified models of the VoIP server's call, media, registration and backup logic

This project models the parts of the server whose correctness depends on state kept over time: protocols between
goroutines that share a record, streaming machines that see audio and packets in arbitrary pieces, indexes that must
agree with each other, and the backup round trip. Each model is proved against a description that does not mention
how the code works: what holds in every reachable state, what a whole stream means, what a query must answer.

| module | what it is about |
|---|---|
| `HoldProtocol`, `HoldLiveness`, `ActiveCallRecord` | phone-initiated hold on a bridged call: `enter`, `leave`, bridge recovery and media updates as atomic sections under the call's lock, in every interleaving; what the goroutines bring about when left to run; the record they update |
| `ConferenceRoom`, `ConferenceRecord` | joining a conference: seats, the PIN gate, and the switch between hold music and the mixer; the room's own fields and the PIN loop |
| `TelephoneEvents`, `DualCollector` | telephone events in RTP (RFC 4733) and the decoder that reports digits, under packet loss; the collector that shares a stream of packets between it and the in-band detector |
| `InbandPress` | debouncing of in-band digit detections, and the independence of the result from how audio arrives |
| `PcmRelay`, `Pcm16`, `Resampler` | the transcoding relay (reader, writer, loop), 16-bit PCM, linear resampling |
| `MixerWindow`, `ToneCadence` | the conference mixer's windows, legs and mix; cadenced tones |
| `RegistrarBindings`, `RegistrarEffects`, `RegistrarRecord`, `SipText` | registrations (section 10.3 of RFC 3261) with contact rewriting, their lifetimes and queries; what each request does to single bindings |
| `SubscriptionStore` | presence subscriptions in two maps |
| `CallAdmission`, `CallManager` | the call counter taken by compare-and-swap, and the counts kept under the lock |
| `CallRegistry`, `ParkLot` | active calls by dialog and by extension; parked calls |
| `BackupArchive`, `BackupRestore`, `BackupRoundTrip`, `ArchivePaths` | export, unpacking, validation and restore as transformations of maps from paths to contents |
| `Lists`, `Wrappers` | list operations and the optional value |

Concurrent protocols are runs of atomic actions: a locked section, or one atomic operation outside the lock, is one
action, a run is any sequence of them, and an action that is not enabled does nothing. A class models the record the
source updates; where several goroutines share it, it carries the state of the run as a ghost, and its methods are
proved to stay in step with the run and so to keep what is proved of all runs.
Clocks, media outcomes, SDP directions, goroutine identities and map iteration orders are arbitrary parameters.

Where the code does less than its comments or its purpose suggest, the model follows the code and the exact condition
is proved:

- `leave()` installs its new bridge without looking at the call again (`internal/call/hold_control.go:1361-1364`), so
  hold can end up active with a bridge: exactly when some `leave()` is in its body as `enter()` passes its guard
  (`HoldProtocol.OverlapIsExact`), which does happen (`HoldProtocol.HoldAndBridgeOccurs`).
- `FindByExtension` can miss a live call's caller: exactly when the caller's latest call has gone
  (`CallRegistry.CallerIndexIsLatest`, `CallRegistry.EarlierCallCanBeMissed`).
- An extension's call limit can be exceeded by overlapping acquires: exactly when its count and the ends among the
  acquirers past their checks add up to more than the limit (`CallAdmission.OverlapExceedsExactly`,
  `CallAdmission.OverlapCanExceedLimit`). An acquire that runs alone exceeds it exactly on a call from the extension
  to itself with one place left (`CallAdmission.AloneExceedsOnlyOnSelfCall`).
- `PlayDuration` promises at least the repeats asked for; it delivers them exactly when every segment is whole
  milliseconds to within a sample (`ToneCadence.CoversRepeats`, `ToneCadence.HalfMillisecondsFallShort`).
- Restoring takes every archived name that merely starts with the extensions directory's name for an extension file,
  so an export may come back with an extra file, or in some map orders with wrong bytes in an extension file. With
  the directories apart the round trip holds exactly when no configuration or database strays to harm
  (`BackupRoundTrip.StraysExactly`); an extra file appears, or bytes go wrong, exactly when one strays there
  (`BackupRoundTrip.ExtraFileExactly`, `BackupRoundTrip.WrongBytesExactly`), as with a directory named `conf`
  (`BackupRoundTrip.ConfigStraysIntoConf`).
- A new collector takes a long event 0 at timestamp 0 without a marker for a packet of an event it already knows, and
  reports it at once (`TelephoneEvents.EventBegins`).
- Subscriptions are told apart by call-id and tag joined with a `|` (`internal/presence/subscription.go:38-40`), so one
  dialog can take another's place: exactly when their joined texts are the same, which needs a `|` in a call-id and in
  a tag (`SubscriptionStore.SameKeyExactly`, `SubscriptionStore.AnswerByDialogExactly`, `SubscriptionStore.ClashForgets`).
- The mix a conference leg hears can depend on the order of the legs: exactly when the others' voices lie on both sides
  of silence and one side could clip alone (`MixerWindow.OrderIsInvisibleExactly`, `MixerWindow.ClippingShowsOrder`).

## Model

| member | source | states |
|---|---|---|
| `HoldProtocol.HoldExcludesBridge` | internal/call/hold_control.go:1010-1364 | in every interleaving, hold together with an installed bridge handle needs a `leave()` that was in its body when this hold's `enter()` passed its guard and that installed its bridge; without that overlap hold and handle exclude each other |
| `HoldProtocol.OverlapIsExact` | internal/call/hold_control.go:1361-1364 | the overlap condition is exact: from an entry's guard a state with hold and handle is reachable by the same entry if and only if some `leave()` is in its body at that moment |
| `HoldProtocol.EntriesEndCleanly` | internal/call/hold_control.go:1010-1123 | at most one `enter()` is in flight; hold is inactive at its later checks, so its "already active" returns are unreachable; each entry that passed its guard is still undecided or has exactly one end; one that activated hold left the bridge alone, any other tried to start it and stored the handle if it started, and an aborted one never activates and goes on trying |
| `HoldProtocol.HoldAndBridgeOccurs` | internal/call/hold_control.go:1206-1364 | some run from call set-up does reach hold with an installed bridge handle |
| `HoldProtocol.OverlapOccurs` | internal/call/hold_control.go:1010-1235 | from call set-up a second hold can reach its guard while the `leave()` of the first is in its body |
| `HoldProtocol.OneLeaveBodyPerActivation` | internal/call/hold_control.go:1206-1212 | however many `leave()` calls run, their bodies number the activations minus the one still active |
| `HoldProtocol.OverlapNecessary` | internal/call/hold_control.go:1206-1364 | from any sound state, reaching hold with a handle within the current entry shows the overlap had happened |
| `HoldProtocol.OverlapSuffices` | internal/call/hold_control.go:1010-1364 | an entry past its guard with a `leave()` in its body has a run to hold with a handle |
| `HoldProtocol.InvRun` | internal/call/hold_control.go:576-1364 | all four families of invariants (entry, setup, exclusion, ledger) survive every run of locked sections |
| `HoldProtocol.SectionRules` | internal/call/hold_control.go:1010-1368 | every locked section, whatever its environment, obeys the control, flag, bridge and decision rules the invariants rest on |
| `HoldProtocol.ExclusionInvMove` | internal/call/hold_control.go:817-844 | a lawful section keeps the exclusion invariant, recovery of the bridge included |
| `HoldLiveness.EnsureRecovers` | internal/call/hold_control.go:598-639 | from a state with neither hold, entry nor handle, the goroutine an aborted entry starts has a run of its own steps that ends with the handle and changes nothing else |
| `HoldLiveness.RestartRecovers` | internal/call/hold_control.go:817-845 | so has the goroutine a media update starts, once the call has been bridged before |
| `HoldLiveness.GivesUp` | internal/call/hold_control.go:598-639 | recovery of a call never bridged, bridged already, held or past the wait, and a `leave()` whose legs or bridge do not come back, end without effect, whatever that goroutine does later |
| `HoldLiveness.EnsureWaits` | internal/call/hold_control.go:598-639 | while the legs are not ready the goroutine of an aborted entry looks again |
| `HoldLiveness.UpdateRestores` | internal/call/hold_control.go:803-845 | a media update on either leg of such a call has a run that brings the bridge back |
| `HoldLiveness.AbortedEntryRecovers` | internal/call/hold_control.go:1090-1149 | an entry whose decision finds it aborted ends, by its own steps and those of the goroutine it starts, with the handle and without hold or entry, whether or not its bridge started at once |
| `HoldLiveness.ReleaseRecognised` | internal/call/hold_control.go:557-574 | an update aborts the entry exactly when the holder, heard to hold before, signals sendrecv during an entry that has lasted; otherwise it leaves the call alone |
| `HoldLiveness.ReleaseAborts` | internal/call/hold_control.go:576-594 | a phone released during an entry has its entry aborted |
| `HoldLiveness.PendingHoldEnters` | internal/call/hold_control.go:848-876 | a hold signalled before the call is bridged is about to be entered once it is |
| `HoldLiveness.HoldBegins` | internal/call/hold_control.go:1010-1149 | a phone that holds a call without hold or entry gets it held: by the entry's own steps hold is active, the handle taken and no entry under way |
| `HoldLiveness.LeaveRestoresBridge` | internal/call/hold_control.go:1206-1364 | a `leave()` on a hold ends it, forgets the holder's signals and brings the bridge back |
| `HoldLiveness.ReassertDrivesLeave` | internal/call/hold_control.go:232-271 | on a hold an update that calls for another try drives `leave()` when the phone then signals sendrecv, and nothing otherwise |
| `HoldLiveness.InboundUpdateReleases` | internal/call/hold_control.go:702-712 | an inbound update that finds the phone released outside an entry clears its hold flags |
| `HoldLiveness.NoHoldSignal` | internal/call/hold_control.go:712-721 | without a hold signal an update starts nothing |
| `HoldLiveness.NoRetryWithoutHold` | internal/call/hold_control.go:232-250 | without a hold there is no other try at holding the phone |
| `HoldLiveness.OutboundReleasesNobody` | internal/call/hold_control.go:728-779 | an update of the outbound leg that may restart the bridge leaves the call record as it is |
| `HoldLiveness.EntryWaits` | internal/call/hold_control.go:1036-1090 | an entry whose media is not set up waits for it |
| `ActiveCallRecord.ActiveCall.RunSection` | internal/call/hold_control.go:598-1368 | whichever locked section a goroutine runs, the record stays in step with a run of the protocol, so hold without an overlap has no handle and hold has a handle exactly if a `leave()` installed one |
| `ActiveCallRecord.ActiveCall.SetBridgeStop` | internal/call/hold_server.go:22-30 | the initial handle never meets a hold or an entry |
| `ActiveCallRecord.ActiveCall.MarkBridgeReady` | internal/call/hold_control.go:863-876 | a hold that was waiting becomes one goroutine about to enter, and none waits any more |
| `ActiveCallRecord.ActiveCall.BeginEntry` | internal/call/hold_control.go:1010-1026 | an entry goes on exactly when no hold is active or entered; then it is the only one in flight and has taken the handle, and any other changes nothing |
| `ActiveCallRecord.ActiveCall.NoteHolder` | internal/call/hold_control.go:309-356 | while the holder's direction is noted no hold is active and the entry is still marked |
| `ActiveCallRecord.ActiveCall.DecideEntry` | internal/call/hold_control.go:1090-1149 | hold becomes active exactly when the entry was not aborted and dial tone or music plays; never "already active"; hold with a handle only after an overlap; without hold the handle is there if the bridge starts |
| `ActiveCallRecord.ActiveCall.ExitEntry` | internal/call/hold_control.go:1030-1036 | when an entry returns no entry is in flight |
| `ActiveCallRecord.ActiveCall.AbortHoldEntry` | internal/call/hold_control.go:576-594 | an entry in flight that has not decided is bound to abort; without one nothing changes |
| `ActiveCallRecord.ActiveCall.BeginLeave` | internal/call/hold_control.go:1206-1241 | a body exactly for an active hold, no hold and no handle then, and as many bodies as activations so far |
| `ActiveCallRecord.ActiveCall.InstallBridge` | internal/call/hold_control.go:1361-1364 | the handle is stored unseen, and a hold or undecided entry it meets is one it overlapped |
| `ActiveCallRecord.ActiveCall.RestoreBridge` | internal/call/hold_control.go:598-639 | of both recovery goroutines: the handle is there afterwards if and only if it was before, or there is neither hold nor entry and the section is one that installs and its bridge starts |
| `ActiveCallRecord.ActiveCall.ReleaseStuckHolder` | internal/call/hold_control.go:702-712 | nothing changes while some goroutine is in its entry; otherwise a holder heard in both directions is released |
| `ConferenceRoom.SeatsAreExact` | internal/conference/conference.go:74-151 | in every interleaving count plus reserved stays within the maximum, reserved counts the authenticating callers, count the admitted ones, and the session list holds those once each |
| `ConferenceRoom.AdmissionNeedsPin` | internal/conference/conference.go:112-131 | nobody is in a PIN room without a PIN entry that the room accepts |
| `ConferenceRoom.MohAndMixerExclude` | internal/conference/conference.go:160-238 | hold music implies an empty mixer in every state, and at every point of the media history a leg is added only after music was stopped and music is started only on an empty mixer |
| `ConferenceRoom.SettledMediaFitsRoom` | internal/conference/conference.go:180-238 | with no caller between its count change and its reconcile, the mixer holds exactly the legs, of two or more admitted callers, whose calls had not ended and that it accepts; music plays exactly to a lone admitted caller whose call had not ended, if there is music and it starts |
| `ConferenceRoom.RejectedCallerLeavesNoTrace` | internal/conference/conference.go:77-136 | after any interleaving in a room that was not full, rejecting a caller leaves the room equal to the one reached without it |
| `ConferenceRoom.ReconcileFits` | internal/conference/conference.go:190-238 | one reconciliation makes music and mixer fit the admitted callers, neither more nor less |
| `ConferenceRoom.PlaysExactly` | internal/conference/conference.go:180-238 | what one reconciliation plays, from the sessions, the ended calls and what starts: with two or more exactly the accepted legs of those not ended, to a lone one not ended the music, else nothing |
| `ConferenceRoom.CallerGetsIn` | internal/conference/conference.go:77-136 | a new caller who finds a seat, and makes the right entry where there is a PIN, ends up last in the room, and the media are those of the new list |
| `ConferenceRoom.CallerGetsOut` | internal/conference/conference.go:138-151 | an admitted caller who hangs up is out, nobody else is, and the media are those of the callers left |
| `ConferenceRoom.UpdateSettles` | internal/conference/conference.go:160-178 | a re-INVITE of an admitted caller settles the media afresh |
| `ConferenceRoom.FullRoomRefuses` | internal/conference/conference.go:81-88 | a caller who finds no seat is refused and the room is as it was |
| `ConferenceRoom.RejectedGivesSeatBack` | internal/conference/conference.go:93-99 | a rejected caller gives back the seat |
| `ConferenceRoom.ThreeAttempts` | internal/conference/conference.go:274-314 | a caller may make three wrong entries; later ones change nothing, and an accepted one before that lets the caller pass |
| `ConferenceRoom.SeatInvStep` | internal/conference/conference.go:74-151 | every action keeps the seat counts exact |
| `ConferenceRecord.RoomRecord.Reserve` | internal/conference/conference.go:81-88 | a caller gets a seat exactly when the admitted and the authenticating callers together are fewer than the maximum |
| `ConferenceRecord.RoomRecord.CancelReservation` | internal/conference/conference.go:93-99 | the seats held are those of the other authenticating callers, and the caller was never in the room |
| `ConferenceRecord.RoomRecord.Admit` | internal/conference/conference.go:123-129 | the caller, not in the room before, is last in it, no seat is gained or lost, and into a PIN room it had an accepted entry |
| `ConferenceRecord.RoomRecord.Leave` | internal/conference/conference.go:140-151 | the caller is out of the room and the count is still the number of sessions |
| `ConferenceRecord.RoomRecord.RemoveSession` | internal/conference/conference.go:143-148 | the loop removes the first session of the caller and keeps the order of the others |
| `ConferenceRecord.RoomRecord.AliveSessions` | internal/conference/conference.go:240-248 | exactly the sessions whose call has not ended, in order |
| `ConferenceRecord.RoomRecord.StopMedia` | internal/conference/conference.go:153-158 | music, if any, is stopped before the mixer is cleared |
| `ConferenceRecord.RoomRecord.Reconcile` | internal/conference/conference.go:180-238 | everything is stopped; then exactly the accepted legs of two or more callers are mixed, or a lone caller hears the music there is |
| `ConferenceRecord.RoomRecord.ReconcileFor` | internal/conference/conference.go:136-151 | after an admission or departure exactly the accepted legs of those not ended are mixed if there are two or more, and a lone one hears the music; with nobody else in between they are those admitted |
| `ConferenceRecord.RoomRecord.Refresh` | internal/conference/conference.go:160-178 | the same after a hold re-INVITE, in the same terms |
| `ConferenceRecord.CollectPin` | internal/conference/conference.go:274-314 | lets a caller in if and only if some round is a right entry reached in time and after fewer than three wrong ones |
| `TelephoneEvents.AtMostOneDigitPerEvent` | internal/call/dtmf_inband.go:185-226 | under any packet loss every event of an in-order stream is reported at most once, as its own digit |
| `TelephoneEvents.WholeEventReportedOnce` | internal/call/dtmf_inband.go:185-226 | an event received whole, its first packet marked or not, whatever surrounds it, is reported exactly once if and only if its code has a digit and some packet of it completes it, or its first packet is taken at once |
| `TelephoneEvents.EventBegins` | internal/call/dtmf_dual.go:77-86 | the first packet of an event starts it afresh without the marker too, except where a new collector meets a long event 0 at timestamp 0, which it reports at once |
| `TelephoneEvents.EndedEventReported` | internal/call/dtmf_inband.go:185-226 | anywhere in a stream, marked or not, a last non-end packet of positive duration followed by an end packet reports the event's digit and nothing else |
| `TelephoneEvents.HeldKeyReported` | internal/call/dtmf_inband.go:185-226 | a key held and let go, sent as the standard has it with the end packet three times, is reported as its digit wherever it comes among other events |
| `TelephoneEvents.DigitExactly` | third_party/diago/media/rtp_dtmf.go:12-52 | events 0 to 9 are the digits, 10 and 11 star and pound, 12 to 15 the letters, and no other code has a digit |
| `TelephoneEvents.EventFields` | third_party/diago/media/rtp_dtmf.go:103-114 | a payload built from event, end bit, volume and duration decodes to that event |
| `TelephoneEvents.FromAnyStateAtMostOne` | internal/call/dtmf_inband.go:185-226 | at most one report for an event from any state of the decoder |
| `TelephoneEvents.LossKeepsOrder` | internal/call/dtmf_dual.go:77-86 | a stream that lost packets is still in order, with the marker on first packets only |
| `TelephoneEvents.ReportedIsOwnDigit` | third_party/diago/media/rtp_dtmf.go:50-52 | every report made for an event is the digit of its code, and codes without a digit report nothing |
| `TelephoneEvents.Rfc2833Decoder.ProcessPayload` | internal/call/dtmf_inband.go:185-226 | the decoder object follows the decoding function, and each of its fields and the digit are given in terms of the payload's bytes, short payloads included |
| `TelephoneEvents.Rfc2833Decoder.Read` | internal/call/dtmf_dual.go:77-86 | the marker is set or derived from a change of timestamp; the object follows the receiving function, and the timestamp is not stored when the digit handler fails |
| `DualCollector.EventsAreUndisturbed` | internal/call/dtmf_dual.go:68-99 | however packets of all kinds alternate, the event decoder's state and digits are those of the event packets alone |
| `DualCollector.AudioIsUndisturbed` | internal/call/dtmf_dual.go:88-98 | and the in-band detector's are those of the audio packets alone |
| `DualCollector.MixedStreamKeepsPresses` | internal/call/dtmf_dual.go:68-99 | a new collector reports from the audio of any mixed stream the digits of its block decisions |
| `DualCollector.Collector.Read` | internal/call/dtmf_dual.go:68-99 | each packet goes to its decoder, and the digits handed over are the packet's, up to a failure of the handler, after which the decoder has taken the packet in but its timestamp is not remembered |
| `InbandPress.OneDigitPerPress` | internal/call/dtmf_inband.go:95-132 | a press (a maximal stretch of one digit without two blank blocks in a row) reports its digit once if it has at least two detected blocks, and nothing otherwise |
| `InbandPress.ReportsOnlyInPresses` | internal/call/dtmf_inband.go:95-132 | every report lies in a press of that digit with at least two detected blocks |
| `InbandPress.EveryDetectionIsInAPress` | internal/call/dtmf_inband.go:95-132 | presses cover every detected block |
| `InbandPress.FeedMeansDecisions` | internal/call/dtmf_inband.go:77-93 | the online detector equals the decisions of the consecutive blocks of 160 samples of the stream |
| `InbandPress.ReportDependsOnlyOnStream` | internal/call/dtmf_inband.go:77-93 | however the audio is cut at even offsets, the digits are those of the whole stream's block decisions |
| `InbandPress.ChunksAreOneStream` | internal/call/dtmf_inband.go:77-93 | feeding chunks is feeding their concatenation, from any state |
| `InbandPress.InbandDetector.FinishBlock` | internal/call/dtmf_inband.go:95-132 | the object finishes a block as the press machine does and starts an empty block |
| `InbandPress.InbandDetector.TakeSample` | internal/call/dtmf_inband.go:77-93 | a sample completes a block exactly when it is its last |
| `InbandPress.InbandDetector.FeedPCM` | internal/call/dtmf_inband.go:77-93 | the object reports and remembers what feeding the chunk's samples does |
| `Resampler.BetweenNeighbours` | internal/media/pcmcodec/g711.go:65-91 | every source index is in range and each output lies between its two neighbours, or is the last sample |
| `Resampler.OnTheLine` | internal/media/pcmcodec/g711.go:80-89 | each output is the point on the line between its neighbours, converted toward zero: less than one unit away and never farther from zero |
| `Resampler.OneOnLine` | internal/media/pcmcodec/g711.go:80-89 | and these conditions single out one sample |
| `Resampler.ResampleKeepsOrder` | internal/media/pcmcodec/g711.go:65-91 | nondecreasing input gives nondecreasing output |
| `Resampler.ResampleStaysWithin` | internal/media/pcmcodec/g711.go:65-91 | output never leaves the range of the input |
| `Resampler.UpThenDown` | internal/media/pcmcodec/g711.go:65-91 | raising the rate by a whole factor and lowering it again is the identity on every sequence |
| `Resampler.WidebandRoundTrip` | internal/media/pcmcodec/g722.go:33-41 | 8 kHz to 16 kHz to 8 kHz is the identity |
| `Resampler.ResampleLinear` | internal/media/pcmcodec/g711.go:65-91 | the loop computes the resampling function, guards included: as many samples as the rates give, each less than one unit from the line between its neighbours and on the side of zero, and the last sample from the last pair on |
| `Pcm16.SamplesOfBytes` | internal/media/pcmcodec/g711.go:49-63 | samples written as bytes are read back unchanged |
| `Pcm16.BytesOfSamples` | internal/media/pcmcodec/g711.go:49-63 | whole samples read from bytes are written back unchanged |
| `Pcm16.SamplesExactly` | internal/media/pcmcodec/g711.go:49-55 | each sample is its low byte and 256 times its signed high byte, the low byte first |
| `Pcm16.BytesToSamples` | internal/media/pcmcodec/g711.go:49-55 | the loop reads every whole sample, low byte first and the high byte signed, and drops an odd byte |
| `Pcm16.SamplesToBytes` | internal/media/pcmcodec/g711.go:57-63 | the loop writes every sample, low byte first and the high byte signed |
| `PcmRelay.FrameIsPositive` | internal/media/pcmcodec/handler.go:34-119 | every handler's hub frame holds at least one sample |
| `PcmRelay.HandlersExactly` | internal/media/pcmcodec/handler.go:34-87 | which codecs can be transcoded and how many samples each one's hub frame has |
| `PcmRelay.SamplesExactly` | internal/media/pcmcodec/handler.go:108-118 | a frame holds the samples of the whole milliseconds negotiated, or of 20 of them at 8 kHz |
| `PcmRelay.RelayIsFaithful` | internal/media/audiobridge/bridge.go:202-228 | after any number of rounds of even reads, what the writer was given and what is unread make up the decoded stream, the encoder got exactly its consecutive frames, and less than a frame waits |
| `PcmRelay.FinishedRelay` | internal/media/audiobridge/bridge.go:202-228 | a relay that stopped gave the encoder the frames of the whole decoded stream and nothing else |
| `PcmRelay.RelayFinishes` | internal/media/audiobridge/bridge.go:202-228 | a relay whose reads have room for a sample has stopped after one round more than there are samples, with the frames of the whole stream given |
| `PcmRelay.ChunkingIsInvisible` | internal/media/audiobridge/bridge.go:202-228 | two relays of the same decoded samples end alike, whatever their packets and read sizes |
| `PcmRelay.WriteConserves` | internal/media/pcmcodec/stream.go:70-91 | a write keeps every sample, in order, even when the encoder fails |
| `PcmRelay.ReadConserves` | internal/media/pcmcodec/stream.go:29-50 | a read hands out the front of what is unread, in whole samples |
| `PcmRelay.FramingIsUnique` | internal/media/pcmcodec/stream.go:70-91 | frames of one length and a shorter rest are determined by the stream they add up to |
| `PcmRelay.PCMReader.Read` | internal/media/pcmcodec/stream.go:29-50 | the reader object follows the read step for every buffer size |
| `PcmRelay.PCMWriter.Write` | internal/media/pcmcodec/stream.go:70-91 | the writer object follows the write step, odd lengths and encoder failures included |
| `PcmRelay.RunRelay` | internal/media/audiobridge/bridge.go:179-229 | the loop gives the encoder exactly the frames of the decoded stream, or the first of them up to the encoder's failure, and otherwise leaves the rest pending |
| `PcmRelay.FramesAfter` | internal/media/pcmcodec/stream.go:70-91 | frames already cut off a stream are the first of its frames |
| `MixerWindow.Leg.ReadLoop` | internal/media/audiobridge/conference.go:204-228 | for any read sizes the window is the last 160 samples of 160 zeros followed by everything read |
| `MixerWindow.Leg.Update` | internal/media/audiobridge/conference.go:219-227 | one update, the overlapping shift included, keeps the last frame of old window and new samples |
| `MixerWindow.Leg.ShiftLeft` | internal/media/audiobridge/conference.go:224 | the in-place copy onto itself moves the tail to the front unharmed |
| `MixerWindow.Leg.CopyTo` | internal/media/audiobridge/conference.go:225 | the samples fill the end and what is before them stays |
| `MixerWindow.WindowIgnoresReadSizes` | internal/media/audiobridge/conference.go:204-228 | two ways of cutting the same bytes at even offsets give the same window |
| `MixerWindow.ConferenceMixer.Add` | internal/media/audiobridge/conference.go:143-202 | a leg that cannot be transcoded is refused; a new leg starts silent, the others are left alone, and the mixing loop is started exactly by the second leg, so that it runs exactly while there are two |
| `MixerWindow.ConferenceMixer.RemoveAll` | internal/media/audiobridge/conference.go:113-134 | no leg is left and the mixing loop is stopped |
| `MixerWindow.Mix` | internal/media/audiobridge/conference.go:257-272 | each sample of the mix is the saturating sum, one leg after another, of everyone but the target |
| `MixerWindow.MixIsClippedSum` | internal/media/audiobridge/conference.go:257-272 | under the order condition a leg hears the sum of the others, clipped once, and nothing of itself |
| `MixerWindow.OrderIsInvisibleExactly` | internal/media/audiobridge/conference.go:249-272 | every order of the legs gives the same sample if and only if the others' voices are all on one side of silence or neither side could clip alone |
| `MixerWindow.TwoOrders` | internal/media/audiobridge/conference.go:249-272 | otherwise the legs pushing up first and those pushing down first give different samples |
| `MixerWindow.ClippingShowsOrder` | internal/media/audiobridge/conference.go:249-272 | an input that fails the condition: two voices up and one down, heard differently in two orders |
| `ToneCadence.FollowsTimetable` | internal/media/tones/generator.go:62-74 | after n samples segment and position are where n modulo the cycle falls, a segment lasting at least one sample |
| `ToneCadence.PlaceIsUnique` | internal/media/tones/generator.go:62-74 | no sample of a cycle falls in two segments |
| `ToneCadence.SilenceExactlyInOffSegments` | internal/media/tones/generator.go:32-60 | every sample has its place in the cycle and is silence in an off segment and the wave in an on segment |
| `ToneCadence.NoCadenceIsSteady` | internal/media/tones/generator.go:22-30 | with no cadence every sample is the wave |
| `ToneCadence.ReadSizesAreInvisible` | internal/media/tones/generator.go:32-60 | a sequence of reads gives the samples and the state of one read of their total |
| `ToneCadence.Generator.AdvanceCadence` | internal/media/tones/generator.go:62-74 | the object advances as the machine does |
| `ToneCadence.Generator.Read` | internal/media/tones/generator.go:32-60 | a buffer is filled with the next samples, and an odd last byte is counted but not written |
| `ToneCadence.CoversRepeats` | internal/media/tones/generator.go:76-92 | playing for the computed time covers the repeats asked for if and only if every segment is whole milliseconds to within a sample |
| `ToneCadence.HalfMillisecondsFallShort` | internal/media/tones/generator.go:76-92 | an input that fails it: segments of a millisecond and a half get two thirds of their time |
| `ToneCadence.PlayDuration` | internal/media/tones/generator.go:77-92 | the loop adds up the milliseconds of a cycle and multiplies by the repeats, with the fallbacks for none |
| `ToneCadence.MillisecondsExactly` | internal/media/tones/generator.go:84-87 | a segment counts its whole milliseconds, the fraction dropped toward zero |
| `RegistrarBindings.DestinationsStayDistinct` | internal/registrar/registrar.go:203-302 | with contact rewriting and well-formed sources, no run of requests leaves an extension with two bindings for one destination |
| `RegistrarBindings.RefreshKeepsDestinations` | internal/registrar/registrar.go:255-319 | a refresh changes no destination, adds and removes no binding and leaves every other extension's bindings as they were |
| `RegistrarBindings.LifetimesAreBounded` | internal/registrar/registrar.go:130-156 | for any requests, contacts and sources, with contacts rewritten or preserved, every binding's lifetime is within the configured bounds and ends within the maximum from now |
| `RegistrarBindings.HandleLife` | internal/registrar/registrar.go:88-319 | every request keeps all lifetimes within their bounds |
| `RegistrarBindings.Configured` | internal/registrar/registrar.go:40-47 | the bounds are positive, whatever is configured |
| `RegistrarEffects.ConfiguredExactly` | internal/registrar/registrar.go:40-47 | a minute and an hour unless configured, and with contacts rewritten the results on runs apply |
| `RegistrarBindings.RegisterReplaces` | internal/registrar/registrar.go:203-222 | an accepted REGISTER leaves exactly one binding for the packet source, last in the list, with the granted lifetime |
| `RegistrarBindings.UnregisterRemoves` | internal/registrar/registrar.go:224-247 | an un-REGISTER removes exactly the bindings it matches, and all that reach the packet source |
| `RegistrarBindings.QueriesAgree` | internal/registrar/registrar.go:321-352 | `IsRegistered`, `RegisteredExtensions`, the snapshot, `DialTarget` and `SenderAuthorized` agree on which bindings are live |
| `RegistrarBindings.CollectIsInvisible` | internal/registrar/registrar.go:370-397 | collecting expired bindings changes no query's answer at or after the time of the collection |
| `RegistrarEffects.RegisteredExactly` | internal/registrar/dial.go:10-23 | an extension is registered exactly when one of its bindings expires later than now, and the first such one is dialled at its host and port |
| `RegistrarEffects.TouchRenews` | internal/registrar/registrar.go:255-278 | an OPTIONS with a Contact: the first binding recognised expires its granted lifetime, or the maximum, from now and gets the packet source unless contacts are preserved; the others stay as they were |
| `RegistrarEffects.TouchSourceRenews` | internal/registrar/registrar.go:280-302 | an OPTIONS without a Contact: the same of the first binding at the packet source, contact unchanged |
| `RegistrarEffects.TouchAllRenews` | internal/registrar/registrar.go:304-319 | an OPTIONS with neither: the same of every binding |
| `RegistrarEffects.RefreshKeepsReachable` | internal/registrar/registrar.go:255-278 | until the lifetime granted to the binding refreshed has passed, the extension is registered |
| `RegistrarEffects.SourceKeepsReachable` | internal/registrar/registrar.go:280-302 | the same for a refresh by packet source |
| `RegistrarEffects.AnyKeepsReachable` | internal/registrar/registrar.go:304-319 | the same for a refresh of all bindings |
| `RegistrarEffects.RegisterMakesReachable` | internal/registrar/registrar.go:133-154 | an accepted REGISTER makes the extension registered for as long as it grants |
| `RegistrarEffects.RegisterKeepsOthers` | internal/registrar/registrar.go:203-222 | an accepted REGISTER keeps, in order, exactly the bindings that neither match the contact nor share its destination, puts the new one last, and leaves other extensions alone |
| `RegistrarEffects.GrantExactly` | internal/registrar/registrar.go:133-146 | the lifetime asked for is granted within the bounds, cut to the maximum above them and refused below |
| `RegistrarEffects.MatchesExactly` | internal/registrar/register_helpers.go:45-58 | a stored contact is recognised exactly when its host and port are the packet source's or those of the rewritten request, a missing port standing for 5060 if the users agree |
| `RegistrarEffects.SameKeyExactly` | internal/registrar/register_helpers.go:35-43 | keys are equal exactly when user and host agree up to letter case and the ports agree, 5060 where there is none |
| `RegistrarEffects.SameDestinationExactly` | internal/registrar/auth.go:30-43 | destinations match exactly when the hosts agree up to letter case and the ports are equal |
| `RegistrarEffects.BareHostIsPort5060` | internal/registrar/auth.go:34-43 | a destination without a port is the one at port 5060 |
| `RegistrarEffects.SourceWithoutPort` | internal/registrar/nat.go:32-45 | a source without a port, or with one that is zero or not a number, is at port 5060 |
| `RegistrarEffects.RewriteKeeps` | internal/registrar/nat.go:14-22 | the contact is kept when contacts are preserved or the source names no host |
| `RegistrarEffects.BlankDestination` | internal/registrar/auth.go:30-43 | a blank destination matches only blank ones |
| `RegistrarBindings.EqualKeysMatch` | internal/registrar/register_helpers.go:35-58 | contacts with equal keys reach the same destination, whatever their user parts contain |
| `RegistrarBindings.RewriteToSource` | internal/registrar/nat.go:14-30 | a contact rewritten for a well-formed source is dialled at exactly that source |
| `RegistrarBindings.SourceParses` | internal/registrar/nat.go:32-45 | parsing a well-formed `host:port` gives back the host and the port |
| `RegistrarBindings.MatchKeepsDestination` | internal/registrar/register_helpers.go:45-58 | a stored contact recognised in a request has the destination the request came from |
| `RegistrarBindings.HandleKeepsGood` | internal/registrar/registrar.go:88-319 | every request keeps bindings distinct, addressable and within their lifetimes |
| `RegistrarRecord.Registrar.AddBinding` | internal/registrar/registrar.go:203-222 | the extension's list is the old one without what the new binding replaces, then the new binding |
| `RegistrarRecord.Registrar.OtherBindings` | internal/registrar/registrar.go:205-219 | the loop keeps, in order, exactly the bindings the new one does not replace |
| `RegistrarRecord.Registrar.Store` | internal/registrar/registrar.go:145-154 | the accepted contact is stored with its lifetime counted from now |
| `RegistrarRecord.Registrar.RemoveBinding` | internal/registrar/registrar.go:224-247 | a wildcard removes the extension, another contact exactly the bindings it matches |
| `RegistrarRecord.Registrar.UnmatchedBindings` | internal/registrar/registrar.go:232-240 | the loop keeps, in order, exactly the bindings the contact does not match |
| `RegistrarRecord.Registrar.GrantExpiry` | internal/registrar/registrar.go:133-146 | too brief an interval is refused, a long one cut to the maximum and any other granted as asked |
| `RegistrarRecord.Registrar.Register` | internal/registrar/registrar.go:88-159 | the answer and the table for un-REGISTER, too brief an interval and acceptance |
| `RegistrarRecord.Registrar.TouchBinding` | internal/registrar/registrar.go:255-278 | the first binding recognised expires its granted lifetime, or the maximum, from now; every other binding of every extension stays as it was |
| `RegistrarRecord.Registrar.TouchFirst` | internal/registrar/registrar.go:255-278 | the loop stops at the first match, gives it that lifetime and, unless contacts are preserved, the packet source, and leaves all others |
| `RegistrarRecord.Registrar.TouchBindingBySource` | internal/registrar/registrar.go:280-302 | the first binding at the packet source, or every one when there is no source, expires its granted lifetime, or the maximum, from now, and nothing else changes |
| `RegistrarRecord.Registrar.TouchFromSource` | internal/registrar/registrar.go:280-302 | the loop stops at the first binding at the source and renews only that, contact unchanged |
| `RegistrarRecord.Registrar.TouchEach` | internal/registrar/registrar.go:304-319 | every binding expires its granted lifetime, or the maximum, from now and keeps its contact |
| `RegistrarRecord.Registrar.PruneExpired` | internal/registrar/registrar.go:370-397 | the table keeps exactly the live bindings and the extensions that have any |
| `RegistrarRecord.Registrar.LiveBindings` | internal/registrar/registrar.go:376-384 | the loop keeps exactly the bindings that expire later than now, in order |
| `RegistrarRecord.Registrar.Lookup` | internal/registrar/dial.go:10-23 | the first live binding is the one dialled; there is none exactly when every binding has expired |
| `SubscriptionStore.AnswerIsCurrent` | internal/presence/subscription.go:81-109 | after any operations the answer for an extension is its unexpired subscriptions whose key nothing replaced or removed, in upsert order, pruned or not |
| `SubscriptionStore.AnswerByDialogExactly` | internal/presence/subscription.go:38-93 | the answer is the latest subscription of each dialog if and only if no due one has lost its key to another dialog with the same joined text |
| `SubscriptionStore.AnswerByDialog` | internal/presence/subscription.go:38-93 | so it is whenever no call-id, or else no tag, holds a `|` |
| `SubscriptionStore.ClashForgets` | internal/presence/subscription.go:38-51 | an input that fails it: a phone is forgotten when another dialog with the same joined text subscribes |
| `SubscriptionStore.SameKeyExactly` | internal/presence/subscription.go:38-40 | two dialogs share a key exactly when they are the same or one text between two bars belongs to the call-id of one and the tag of the other |
| `SubscriptionStore.PlainKeys` | internal/presence/subscription.go:38-40 | where neither call-id, or else neither tag, holds a `|`, keys are equal exactly for the same dialog |
| `SubscriptionStore.PruneIsInvisible` | internal/presence/subscription.go:95-109 | pruning changes no answer at or after the prune time |
| `SubscriptionStore.ListsMatchIndex` | internal/presence/subscription.go:42-79 | each per-watched list holds exactly the indexed subscriptions for its extension, once each, and is not empty |
| `SubscriptionStore.Store.Upsert` | internal/presence/subscription.go:42-51 | the two maps stay in step and the subscription, last in the order, replaces exactly those with the same joined call-id and tag, which are those of its own dialog where no call-id, or else no tag, holds a `|` |
| `SubscriptionStore.Store.RemoveLocked` | internal/presence/subscription.go:66-79 | the subscription leaves its per-watched list, the list itself when it is empty, and nothing else |
| `SubscriptionStore.Store.RemoveItem` | internal/presence/subscription.go:70-75 | the loop drops exactly the item, order kept |
| `SubscriptionStore.Store.Remove` | internal/presence/subscription.go:53-64 | exactly the subscription with the same joined call-id and tag is removed and returned, or nothing; where no call-id, or else no tag, holds a `|`, that is the dialog's own |
| `SubscriptionStore.Store.ForWatched` | internal/presence/subscription.go:81-93 | exactly the unexpired subscriptions of the extension, in upsert order |
| `SubscriptionStore.Store.PruneExpired` | internal/presence/subscription.go:95-109 | exactly the expired subscriptions are dropped and counted, in whatever order the index is visited |
| `CallAdmission.CountersAreExact` | internal/call/manager.go:44-110 | under every interleaving with distinct live ids, active stays within the limit and equals live calls plus acquirers between swap and insert plus a release between its delete and its decrement, and each extension's count equals the ends of the calls that name it, ends without an extension never taken back |
| `CallAdmission.LimitsHold` | internal/call/manager.go:44-89 | with acquires that do not overlap and no self-calls, no extension exceeds its limit, plus one with call waiting |
| `CallAdmission.AloneExceedsOnlyOnSelfCall` | internal/call/manager.go:44-89 | an uninterrupted acquire is admitted exactly when both checks and the limit allow it, and exceeds an extension's limit exactly when it calls itself with one place left |
| `CallAdmission.OverlapExceedsExactly` | internal/call/manager.go:53-66 | from any state with room in the system limit, the acquirers past their checks can take an extension over its limit if and only if its count and the ends among them that name it add up to more |
| `CallAdmission.NeverAboveDue` | internal/call/manager.go:53-66 | whatever those acquirers do, no count passes that sum |
| `CallAdmission.AllGetIn` | internal/call/manager.go:53-66 | run one after another they all get in and the count is that sum |
| `CallAdmission.OverlapCanExceedLimit` | internal/call/manager.go:44-61 | a run from the start in which two overlapping acquires exceed a limit of one |
| `CallAdmission.GoKeepsInv` | internal/call/manager.go:53-65 | each atomic step of an acquirer, a failed swap included, keeps the counters exact |
| `CallAdmission.ReleaseKeepsInv` | internal/call/manager.go:91-110 | both halves of a release, of a known call or an unknown one, keep the counters exact |
| `CallAdmission.ReleaseReleases` | internal/call/manager.go:91-110 | a release takes a known call off the list and the counter and each of its ends off its extension's count |
| `CallAdmission.NoIdleCounts` | internal/call/manager.go:97-107 | in every run no extension is kept with a count of nothing |
| `CallAdmission.LockedOut` | internal/call/manager.go:91-110 | while a release holds the lock no acquirer passes a check or lists its call and no other release begins |
| `CallAdmission.UnderLimitExactly` | internal/call/manager.go:68-89 | who passes the limit check, from the counts and the configuration, the default of five included |
| `CallManager.Manager.CheckExtensionLimit` | internal/call/manager.go:68-89 | an extension passes exactly when it is unknown or has fewer calls than its limit, five unless configured, plus one with call waiting |
| `CallManager.Manager.Check` | internal/call/manager.go:45-50 | a check changes nothing and decides whether the acquirer goes on |
| `CallManager.Manager.CompareAndSwap` | internal/call/manager.go:57 | it takes one place, only if nobody changed the counter since it was read, and never more than the limit |
| `CallManager.Manager.Insert` | internal/call/manager.go:59-62 | the call is listed under an id that was free, and with it all counts are exact |
| `CallManager.Manager.TryAcquire` | internal/call/manager.go:44-66 | running alone, it admits exactly when both checks and the limit allow, lists the call, and leaves all counts exact |
| `CallManager.Manager.TakePlace` | internal/call/manager.go:53-65 | the loop, alone, takes a place exactly if there is one |
| `CallManager.Manager.Release` | internal/call/manager.go:91-110 | a known call is off the list and uncounted, an unknown one changes nothing, and all counts are exact |
| `CallManager.Manager.Unlist` | internal/call/manager.go:93-94 | the first half takes the call off the list while it is still counted |
| `CallManager.Manager.CountOff` | internal/call/manager.go:95-108 | the second half makes the counts exact again |
| `CallRegistry.CallerIndexIsLatest` | internal/call/registry.go:68-91 | with fresh dialog ids the caller index holds an extension's latest call exactly as long as that call is registered |
| `CallRegistry.FindIsSound` | internal/call/registry.go:176-188 | the answer is a registered call naming the extension; a registered call to the extension is never missed; none is found exactly when the latest call by it is gone and no call is to it |
| `CallRegistry.EarlierCallCanBeMissed` | internal/call/registry.go:80-91 | a caller with two calls is lost when the later one ends first |
| `CallRegistry.RegisterKeepsInv` | internal/call/registry.go:68-78 | registering keeps the two indexes consistent if and only if it takes over no dialog ID whose call the caller index still shows |
| `CallRegistry.UnregisterKeepsInv` | internal/call/registry.go:80-91 | unregistering keeps them consistent and removes exactly the call with the ID |
| `CallRegistry.Registry.Register` | internal/call/registry.go:68-78 | a call with an incoming leg is found by its dialog and is its caller's; with fresh dialog ids the caller index then shows exactly the latest live calls |
| `CallRegistry.Registry.Unregister` | internal/call/registry.go:80-91 | no call is left under the dialog ID and no other goes; with fresh dialog ids the caller index then shows exactly the latest live calls |
| `CallRegistry.Registry.FindByExtension` | internal/call/registry.go:176-188 | the caller index first, then any registered call to the extension |
| `ParkLot.EveryCallIsInOnePlace` | internal/call/park.go:29-53 | every parked call is exactly once in the lot, handed to one Retrieve, or released on displacement |
| `ParkLot.SlotHoldsLatest` | internal/call/park.go:29-53 | a slot holds a call exactly when the latest event on it was a Park, and then that Park's call |
| `ParkLot.ParkingLot.Park` | internal/call/park.go:29-42 | the call that was in the slot is released, the new one waits there, and every parked call is in one place |
| `ParkLot.ParkingLot.Retrieve` | internal/call/park.go:44-53 | the call in the slot, if any, is handed over for the first and only time, and every parked call is in one place |
| `BackupRoundTrip.BackupRoundTrip` | internal/backup/export.go:24-158 | an export that is packed survives unpacking and passes the check; restoring it brings back the configuration, the snapshot of the database or else the database file, and every extension file byte for byte and no other top-level `.toml`, in all map iteration orders, if and only if these paths are settled, and with the directories apart if and only if nothing strays to harm |
| `BackupRoundTrip.StraysExactly` | internal/backup/restore.go:65-78 | with the directories apart an export comes back in every order if and only if a configuration or database whose name starts with the extensions directory's meets an extension file with the same contents there or lands below the top level where there is none |
| `BackupRoundTrip.ReproducedExactly` | internal/backup/restore.go:37-123 | any accepted archive brings an installation back in every order if and only if each of its paths has the one right outcome |
| `BackupRoundTrip.ExportHoldsExactly` | internal/backup/export.go:69-107 | an export holds the configuration, the snapshot of the database or else the database file, and exactly the `.toml`, `.wav` and `.xml` files beneath the directories included, each under the name that stands for its path |
| `BackupRestore.CertainExactly` | internal/backup/restore.go:37-123 | a path is certain to hold a content after a restore if and only if that is its only outcome, read off the archive's names |
| `BackupRestore.OutcomeIsListed` | internal/backup/restore.go:37-123 | in every order a path holds one of its outcomes |
| `BackupRestore.OutcomeOccurs` | internal/backup/restore.go:37-123 | each outcome of a path comes about in some orders |
| `BackupRoundTrip.DatabaseAmongMusic` | internal/backup/restore.go:55-98 | a database kept among the music on hold, on disk and in the archive alike, comes back although it is written twice |
| `BackupRoundTrip.ExtensionOutcomes` | internal/backup/restore.go:62-78 | everything a path of the extensions directory can hold: the exported file or what strays there; without either nothing at the top level and what was there below |
| `BackupRoundTrip.ExtensionsReturn` | internal/backup/restore.go:62-78 | where nothing strays: the exported file, or nothing for another top-level `.toml`, or what was there |
| `BackupRoundTrip.MohReturns` | internal/backup/restore.go:80-99 | the same for music on hold, when no other archived name starts with its directory's |
| `BackupRoundTrip.PhonebookReturns` | internal/backup/restore.go:101-120 | the same for phone books |
| `BackupRestore.RestStays` | internal/backup/restore.go:37-123 | no other path of the target is touched, a directory the archive does not include is left alone, and so is everything if the check fails |
| `BackupRoundTrip.ExtraFileExactly` | internal/backup/restore.go:65-78 | a top-level extension file the source does not have appears if and only if something strays there |
| `BackupRoundTrip.WrongBytesExactly` | internal/backup/restore.go:65-78 | some order restores wrong bytes over an exported extension file if and only if something with other contents strays onto it |
| `BackupRoundTrip.ConfigStraysIntoConf` | internal/backup/restore.go:66-78 | with an extensions directory archived as `conf`, `config.toml` strays to `ig.toml` |
| `BackupRestore.Disk.Restore` | internal/backup/restore.go:37-123 | the target disk after a restore, and that a failed check leaves it alone |
| `BackupRestore.Disk.CleanDir` | internal/backup/restore.go:125-142 | exactly the top-level files with the suffix are removed |
| `BackupRestore.Disk.WriteDir` | internal/backup/restore.go:65-78 | each archived file that belongs to the directory is written, in the order the map gives |
| `BackupRestore.Disk.RestoreDir` | internal/backup/restore.go:80-99 | an included directory is cleaned and written, another left alone |
| `BackupRoundTrip.UsualLayoutQualifies` | internal/backup/layout.go:27-67 | with the usual names and directories, wherever the server is installed, the directories are apart and nothing strays |
| `BackupArchive.PackRoundTrip` | internal/backup/export.go:124-204 | unpacking what was packed gives the files back if and only if the archive can be read to its end, no name holds `..` and both sizes are within the limit |
| `BackupArchive.UnpackedExactly` | internal/backup/export.go:175-196 | which streams are taken and which data each name then has |
| `BackupArchive.UnpackVerdict` | internal/backup/export.go:161-204 | the first entry that goes wrong decides the error, then a stream cut short, then the size of the archive; the limit is 500 MiB unless given |
| `BackupArchive.VerdictExactly` | internal/backup/restore.go:9-34 | which archives with a readable manifest are accepted and which fault is reported of the others, the first listed file that is missing or altered deciding |
| `BackupArchive.NoManifest` | internal/backup/restore.go:9-18 | an archive without a manifest is invalid, and one whose manifest cannot be read malformed |
| `BackupArchive.ExportValidates` | internal/backup/restore.go:9-34 | a fresh archive passes the check if and only if its names are not empty and it has a configuration and a database |
| `BackupArchive.AcceptedIsUnaltered` | internal/backup/restore.go:19-27 | an archive with an export's manifest that passes the check holds every exported file unaltered, as far as the hash separates |
| `BackupArchive.TreeInArchive` | internal/backup/export.go:39-67 | what a directory contributes to the archive, by name and whatever the order of the walk: the files beneath it with the suffix, under the archive's prefix |
| `BackupArchive.Unpack` | internal/backup/export.go:161-204 | the loop's files or first error: a name with `..`, too large a total, a stream that breaks off, too large an archive |
| `BackupArchive.ValidateArchive` | internal/backup/restore.go:9-34 | the first fault in order: no manifest, an unreadable or foreign one, a missing or altered file, no configuration or database |
| `BackupArchive.NewManifest` | internal/backup/manifest.go:32-45 | every file is listed exactly once with its hash and size, beside the given version and time stamp |
| `BackupArchive.AddDir` | internal/backup/export.go:39-67 | the walk adds exactly the files beneath the directory with the suffix, whatever its order |
| `BackupArchive.AddFile` | internal/backup/export.go:27-37 | a missing file is passed over and another is added under its archive name |
| `BackupArchive.Gather` | internal/backup/export.go:69-107 | configuration, extensions, database or its snapshot, and the optional directories, later names winning; a given snapshot is what is held under the database's name, and without one the file on disk |
| `BackupArchive.Export` | internal/backup/export.go:24-122 | the archive holds what is gathered from the disk, the snapshot or else the database file under the database's name, and a manifest that describes it |

## Left out

- SDP direction classification in the hold protocol (`remoteHoldMode`, `holderSendrecvIsUnhold`, `shouldLeaveOnPhoneUnhold`, `shouldReassertHolderHold`): which reaction an update drives is an arbitrary choice of the environment, so the results hold for every classification.
- Transfer, park during hold and `*77` (`cancelHold`, `HoldRemoteWithMOH`, `StealHeldLeg`, `CompleteTransfer`): they reset hold flags from outside the protocol.
- The hold-media watchdog, restarts of the held party's music, and the re-INVITE retries and settle delays: only whether media and bridges start is kept.
- `holderReasserting`, which lets one reassert goroutine run at a time: in the model any number may run, and one that finds no sendrecv stands for one that returns at once.
- How often the two wait loops of hold poll the legs: one section asks once and the environment repeats it.
- Goroutine identities, calls and subscriptions are numbers or values in the models rather than references, so sharing of one record by two owners is not captured.
- ConferenceRecord.RoomRecord.Reconcile: whether hold music or a leg's media starts is an environment choice; the players themselves are not modelled.
- Lists filtered in place (`list[:0]`) in the registrar and the subscription store are sequence values, so an alias of the old slice is not captured.
- DualCollector.Collector.Read: a collector without a digit handler, which would not feed audio to the detector, is not modelled.
- PIN hashing and prompt playback: an entry is accepted by an arbitrary predicate, and timeouts are rounds of the prompt.
- Goertzel filters and thresholds of the in-band detector: the decision of a block is an arbitrary function of its samples.
- The codec libraries (G.711, G.722, G.726, G.729): packets carry decoded samples and frames leave as samples.
- Floating point in the resampler and in the tone segment lengths: exact integer arithmetic, truncated where the code truncates.
- Resampler.ResampleLinear: the code interpolates in floating point and converts the result, and the model truncates the exact value, so rounding errors of the last place are not captured.
- ToneCadence.Generator.Read: the sine waveform is an arbitrary function of time, and the sample counter does not wrap at 64 bits.
- PcmRelay.RunRelay: cancellation of the context, which drops a read in flight, is not modelled.
- MixerWindow.ConferenceMixer.Add: one flag stands for the codec, reader and writer that the leg may lack.
- MixerWindow.Mix: the timer that triggers a mix, and writing the mix to the leg, are not modelled.
- Hosts in registrations: a well-formed source has a host without whitespace, `:`, `@`, `[` or `]`, so bracketed IPv6 sources are not covered by the distinctness result; `Lower` folds ASCII letters only.
- Transport and URI parameters of contacts, SIP responses, digest authentication, change notifications: not modelled; sipgo's `Uri.HostPort` is taken to be the host, a colon and the port, and sipgo is not part of this model.
- RegistrarRecord.Registrar.PruneExpired: the number of removed bindings is not returned and nobody is notified.
- RegistrarRecord.Registrar.Register: what comes before (authentication, a missing contact) and the response are not modelled.
- RegistrarRecord.Registrar.Lookup: the destination is returned, without the URI's parameters and the transport.
- RegistrarBindings.LifetimesAreBounded: requested expiries are arbitrary integers, so the overflow of a 64-bit duration is not modelled.
- The OPTIONS keepalive loop: its answers enter as refresh requests in any order.
- CallManager.Manager.TryAcquire: stated for one acquirer running alone; interleavings are the subject of `CallAdmission`.
- ParkLot.ParkingLot.Park: the hold callback and hanging up of released legs are not modelled.
- The byte formats of tar, gzip, JSON and SHA-256: an archive is a list of named entries, a manifest is written and read by an arbitrary codec that reads back what it wrote, and the hash is any function.
- BackupArchive.Packed: the code packs names in sorted order; the results hold for every order.
- BackupArchive.AddFile: read errors other than a missing file are not modelled.
- BackupArchive.Gather: read errors other than a missing file are not modelled, nor that the code ignores them for music on hold and phone books.
- BackupArchive.Export: read errors other than a missing file are not modelled.
- BackupRestore.Disk.Restore: failures of the file system in the middle of a restore are not modelled; paths are clean and use `/`, so joining is concatenation, and an archive name of `.` is not covered.
- Hunt groups, paging, trunks, messaging, the SQLite store, configuration defaults, the web interface, the router and codec tables: plumbing, I/O or single-branch lookups that would add only easy members.
