# wibox-media: verified protocol cores

A Dafny model of the parts of the door-intercom daemon and its updater that are protocols or state
machines, with proofs of what they keep. `dafny verify dfyconfig.toml` checks everything.

Each module models one component. Where the C code updates state in place the model does too: a
class or a loop with the branches of the C function, proved equal to a specification (a function on
values, or a transition `Step`). What the component is for is then proved about the specification,
over all inputs, all runs or all interleavings. System calls, clocks, sockets, `malloc` and PJSIP
are parameters that may fail at any point and, where the system allows it, return less than asked.

| file | module | what it covers |
|---|---|---|
| `h264_annexb.dfy` | H264AnnexB | splitting an Annex B stream, FU-A packetizing, scanning (ITU-T H.264 Annex B; RFC 6184) |
| `ota_protocol.dfy` | OtaProtocol | updaters, daemons, guard file and watchdog device in every interleaving |
| `flash_writer.dfy` | FlashWriter | the bytes of the flash under failing and short system calls |
| `hardware_watchdog.dfy` | HardwareWatchdog | accepted configurations, feeding, staleness |
| `rtsp_demux.dfy` | RtspDemux | RTSP requests and interleaved RTP from one TCP stream (RFC 2326; RFC 3550) |
| `backchannel.dfy` | Backchannel | the drop-oldest ring and the paced playout of talk-back audio |
| `client_slots.dfy` | ClientSlots | who owns which client slot and descriptor |
| `sip_calling.dfy` | SipSession | the SIP call session (RFC 3261) |
| `sip_sdp.dfy` | SipSdp | building and parsing the SDP body (RFC 4566) |
| `line_keeper.dfy` | IntercomLine | keeping the bus line open for stream viewers |
| `mqtt_framing.dfy` | MqttFraming | MQTT packets (MQTT 3.1.1) |
| `config_file.dfy` | ConfigFile | the configuration writer and its two readers |
| `call_session.dfy` | CallSessions | call ids and call events |
| `bytes.dfy` | Bytes | bytes as numbers |
| `wrappers.dfy` | Wrappers, Characters | optional values and character classes |

Findings: where the code does not do what one would expect, the condition under which it does is
proved exactly.

- A stream is demultiplexed independently of how `recv` cuts it if and only if no complete
  interleaved frame holds CR LF CR LF before its last byte (`RtspDemux.IndependentOfCutsExactly`).
- A late 180 or 183 takes an answered call back to RINGING. Hanging up then sends a CANCEL and no
  BYE; a BYE is sent if and only if ringing was not the last thing reported
  (`SipSession.AnsweredCallsEndWithBye`). A timeout check or another call's INVITE then cancels the
  answered call as well (`SipSession.AnsweredThenRinging`).
- A Call-ID longer than 127 characters is stored truncated, and its own ACK is not recognised
  (`SipSession.LongCallIdsNeverConnect`). An incoming CANCEL is not matched with the call at all
  (`SipSession.CancelEndsWhateverIsIncoming`).
- Responses are told apart by Call-ID alone, and calls placed within one second have the same one:
  a late refusal of the first then ends the second (`SipSession.LateRefusalEndsTheNextCall`).
- The playout pacing is never early counted from the clock reading before the first frame
  (`Backchannel.PlayoutIsNeverEarly`), but counted from when that frame is taken only if its
  deadline is late enough or a long stall follows (`Backchannel.CountedFromTheTakingExactly`).
- On a 32-bit target the erase length wraps around when image and erase size add up to more than
  2^32; then nothing is erased, and success does not mean the image
  (`FlashWriter.SuccessMeansTheImageExactly`).
- The comment above the line keeper says that a line opened by others is never torn down from there.
  That holds if and only if others never open it between a drop of the keeper's own line and the
  keeper's next look (`IntercomLine.OthersAreSafeExactly`).
- After starting the RTSP server again, every call reaches its connection and nothing leaks if and
  only if no worker outlived the bounded wait of the stop before (`ClientSlots.RestartNeedsAllWorkersGone`).
- The MQTT reader takes three length bytes, so it stays in sync if and only if all bodies are
  shorter than 128^3 bytes, although the writer produces four (`MqttFraming.FramingStaysInSync`).
- A value written to the configuration comes back from the daemon, and from the updater, under two
  different conditions (`ConfigFile.DaemonReadsBackExactly`, `ConfigFile.UpdaterReadsBackExactly`).
  Quotes around a value belong to it for the updater only (`ConfigFile.QuotedIsTaken`).
- Call ids repeat exactly every 2^32 - 1 calls (`CallSessions.CallsShareAnIdExactly`).

## Model

| member | source | states |
|---|---|---|
| H264AnnexB.FindCodeIs | src/sip_media/h264_annexb.c:6-25 | the search finds exactly the first 3- or 4-byte start code, or the end |
| H264AnnexB.TrimmedEndIs | src/sip_media/h264_annexb.c:196-198 | trimming ends exactly behind the last nonzero byte |
| H264AnnexB.FindStartCode | src/sip_media/h264_annexb.c:6-25 | the cursor loop returns position and length of the first start code |
| H264AnnexB.TrimZeros | src/sip_media/h264_annexb.c:196-198 | the loop drops exactly the trailing zero bytes |
| H264AnnexB.SplitInvertsPrint | src/sip_media/h264_annexb.c:169-220 | splitting recovers the NAL units of every Annex B text, with any start codes and zero padding |
| H264AnnexB.BareUnit | src/sip_media/h264_annexb.c:187-190 | data without a start code is one NAL unit as it stands |
| H264AnnexB.FragmentedNal | src/sip_media/h264_annexb.c:127-167 | a unit over the limit becomes two or more FU-A payloads, all but the last of the full size, S only on the first, E and marker only on the last |
| H264AnnexB.OneMarkerAtTheEnd | src/sip_media/h264_annexb.c:191-219 | of the payloads of a frame exactly the last is marked, none is empty or too long |
| H264AnnexB.FramesAreWellMarked | src/sip_media/h264_annexb.c:169-220 | the same for any buffer that can be sent and holds a NAL unit |
| H264AnnexB.PacketizedStreamReassembles | src/sip_media/h264_annexb.c:127-220 | a receiver of RFC 6184 rebuilds exactly the units of the stream, for every limit of at least 3 |
| H264AnnexB.PacketizeNal | src/sip_media/h264_annexb.c:127-167 | all payloads of the plan go out, or a prefix up to the first failure and nothing after it |
| H264AnnexB.Packetize | src/sip_media/h264_annexb.c:169-220 | the same for a frame; on success the result is the number of NAL units |
| H264AnnexB.NoteAllMeaning | src/sip_media/h264_annexb.c:56-84 | what count, first, last and the SPS, PPS, IDR and slice flags say about the list of units |
| H264AnnexB.CachesHoldTheLast | src/sip_media/h264_annexb.c:37-84 | the SPS cache ends with the last unit of type 7 whose copy found memory, the PPS cache with the last of type 8, each unchanged when there is none |
| H264AnnexB.Scan.Run | src/sip_media/h264_annexb.c:86-125 | the scan summarises exactly the units the packetizer sends, with its count, and caches the last parameter sets among them |
| OtaProtocol.StepKeepsInv | src/firmware_update.c:691-1076 | every step of every process keeps: critical sections own the guard, and past the stop no daemon can arm |
| OtaProtocol.FlashingIsSafe | src/firmware_update.c:890-1000 | in every interleaving, when a block can be erased or written the watchdog is not armed, no live daemon can arm it, and no other updater is in its critical section |
| OtaProtocol.OneUpdaterPastBegin | src/firmware_update.c:890-904 | at most one updater is past ota_guard_begin |
| OtaProtocol.TouchedFlashStaysLocked | src/firmware_update.c:1064-1074 | after the first erase or write, until reboot, nobody arms, takes the guard or removes it, whoever dies |
| OtaProtocol.GuardRemovedOnlyUntouched | src/firmware_update.c:737-742 | the guard is removed only by its owner and only while the flash is untouched |
| OtaProtocol.StoppingStep | src/firmware_update.c:801-844 | whatever process moves, the visits that can still begin go down with each one; disarming follows only a finished visit that found no daemon, giving up only the last poll behind SIGKILL or an unreadable /proc |
| OtaProtocol.StoppingIsBounded | src/firmware_update.c:801-844 | in every interleaving /proc is read at most 145 times between taking the guard and disarming or giving up |
| OtaProtocol.StubbornDaemon | src/firmware_update.c:801-844 | with a daemon that never goes away visit 2 sends SIGTERM, visit 124 sends SIGKILL, and visit 145 is the last |
| OtaProtocol.GuardTellsThePhase | src/firmware_update.c:897-1043 | in every run the guard's state is as far as its owner has come, and PREPARE means an untouched flash |
| OtaProtocol.CompleteMeansVerified | src/firmware_update.c:1031-1043 | in every run COMPLETE is published only by an owner that has read the image back and found it right |
| OtaProtocol.UntouchedGuardsAreGivenBack | src/firmware_update.c:1064-1074 | in every run without deaths and failing unlinks a guard over an untouched flash has an owner still at work |
| OtaProtocol.RemovedGuardLetsOthersIn | src/firmware_update.c:737-742 | after a removal the next daemon may arm the watchdog and the next updater take the guard |
| OtaProtocol.ARunThatFlashes | src/firmware_update.c:1056-1076 | the protocol is live: a run past an armed and dead daemon reaches the first erase |
| FlashWriter.EraseLengthIsRoundedUp | src/firmware_update.c:940-947 | in the 32-bit arithmetic of the target whole blocks of the device cover the image if and only if the sum does not wrap around; when it does nothing is erased |
| FlashWriter.NothingIsErased | src/firmware_update.c:947 | a valid geometry for which the sum wraps around |
| FlashWriter.Updater.Erase | src/firmware_update.c:968-980 | the erase loop leaves a prefix of whole blocks erased and the rest untouched, also when it fails |
| FlashWriter.Updater.WriteAll | src/firmware_update.c:988-1000 | the partial-write loop programs exactly a prefix of the buffer |
| FlashWriter.Updater.Copy | src/firmware_update.c:988-1006 | over short reads and writes a prefix of the image is in the erased cells |
| FlashWriter.Updater.FlashFile | src/firmware_update.c:906-1054 | success means the flash prefix has the expected bytes; untouched means no erase or write call; when no call fails and the sum does not wrap around the right image succeeds |
| FlashWriter.Updater.BeginGuard | src/firmware_update.c:890-904 | the guard is taken only when it was free, and given back on failure |
| FlashWriter.Updater.GuardedFlashFile | src/firmware_update.c:1056-1076 | a guard removed or never taken means that no block was erased or written; a run that stops before the first erase gives its guard back if and only if it was linked and can be removed; success leaves the guard and the image |
| FlashWriter.WritesLandInErasedBlocks | src/firmware_update.c:968-1000 | the flash is a prefix of the image, erased cells, and what was there before |
| FlashWriter.SuccessMeansTheImage | src/firmware_update.c:1031-1038 | where the sum does not wrap around, success is impossible for a file whose bytes are not the expected ones, and bytes beyond the erased blocks are unchanged |
| FlashWriter.SuccessMeansTheImageExactly | src/firmware_update.c:940-1038 | for every valid geometry success always means the expected file if and only if the sum does not wrap around |
| HardwareWatchdog.FeedingIsDueExactly | src/sip_media/hardware_watchdog.c:114-133 | the device is fed if and only if the last beat is younger than half the timeout, the interval is over and the keepalive works |
| HardwareWatchdog.AcceptedConfigurationIsSafe | src/sip_media/hardware_watchdog.c:202-207 | every timeout the driver may settle on above two feed intervals keeps alive a system whose beats are younger than half the timeout, with a feed interval between wake-ups and a second of start-up |
| HardwareWatchdog.StartedWatchdogIsSafe | src/sip_media/hardware_watchdog.c:225-232 | the same for every running state the start leaves behind |
| HardwareWatchdog.FactorTwoIsExact | src/sip_media/hardware_watchdog.c:202-207 | all healthy runs stay below the timeout if and only if it covers two feed intervals |
| HardwareWatchdog.HungLoopIsReset | src/sip_media/hardware_watchdog.c:89-144 | after a last beat at h the hardware has waited a whole timeout by any wake-up at or after h + 1.5 timeouts, so it fires |
| HardwareWatchdog.FeedingEndsAfterTheBeat | src/sip_media/hardware_watchdog.c:119-133 | nothing is fed from h + timeout/2 on |
| HardwareWatchdog.Watchdog.Start | src/sip_media/hardware_watchdog.c:146-253 | runs only with timeout 5 to 3600, interval 1 to 3600, twice the interval below the timeout, no guard, and a driver that does all that is asked |
| HardwareWatchdog.Watchdog.Tick | src/sip_media/hardware_watchdog.c:94-141 | one turn of the thread feeds exactly when due, in numbers, and makes the modelled step |
| HardwareWatchdog.Watchdog.Heartbeat | src/sip_media/hardware_watchdog.c:255-261 | the heartbeat is the modelled beat while running, nothing otherwise |
| HardwareWatchdog.Watchdog.Stop | src/sip_media/hardware_watchdog.c:263-288 | stopping closes the device and disarms it when asked |
| RtspDemux.HeaderEndGrows | src/sip_media/rtsp_stream.c:778-792 | a header end found stays found when the buffer grows, and a late one is not in a shorter buffer |
| RtspDemux.CutsDoNotMatter | src/sip_media/rtsp_stream.c:807-942 | on an unambiguous stream the items are those of the stream, however recv cuts it |
| RtspDemux.IndependentOfCutsExactly | src/sip_media/rtsp_stream.c:898-907 | all cuts give the same items if and only if no frame holds a blank line before its last byte |
| RtspDemux.AnAmbiguousStream | src/sip_media/rtsp_stream.c:898 | such a stream exists |
| RtspDemux.ReadInvertsPrint | src/sip_media/rtsp_stream.c:807-942 | for every list of stray line ends, frames of up to 4092 bytes and requests of up to 2047, printed and cut in any way, exactly these frames and requests are taken, and nothing is left over |
| RtspDemux.TrafficIsHeard | src/sip_media/rtsp_stream.c:828-893 | of printed traffic exactly the payloads of the RTP packets on the backchannel are pushed, in order, and nothing when there is none |
| RtspDemux.RequestOfTraffic | src/sip_media/rtsp_stream.c:807-942 | what the reader returns on printed traffic is its next request, or the end when there is none, with the audio before it |
| RtspDemux.LongRequestsAreRefused | src/sip_media/rtsp_stream.c:898-903 | a request of 2048 bytes or more ends the connection |
| RtspDemux.EndlessRequestsAreRefused | src/sip_media/rtsp_stream.c:910-912 | so do 4096 bytes without a header end |
| RtspDemux.AudioIsThePayload | src/sip_media/rtsp_stream.c:831-856 | for every well-formed RTP packet the audio taken is exactly its payload |
| RtspDemux.MalformedIsSilent | src/sip_media/rtsp_stream.c:831-861 | a packet that is too short for its header, extension or padding gives no audio |
| RtspDemux.Receiver.Consume | src/sip_media/rtsp_stream.c:794-805 | the memmove leaves the rest of the stream at the front of the buffer |
| RtspDemux.Receiver.FindHeaderEnd | src/sip_media/rtsp_stream.c:778-792 | the loop finds the first CR LF CR LF of the buffer |
| RtspDemux.Receiver.ExtractAudio | src/sip_media/rtsp_stream.c:833-861 | the branches for CSRC list, extension and padding take the audio of the specification |
| RtspDemux.Receiver.Examine | src/sip_media/rtsp_stream.c:818-911 | one round decides as specified and moves the buffer accordingly |
| RtspDemux.Receiver.ReadRequest | src/sip_media/rtsp_stream.c:807-942 | returns the next request of the run and pushes exactly the audio of the frames before it, in order |
| Backchannel.RunConserves | src/sip_media/rtsp_stream.c:593-659 | over every run pushed = played + dropped + queued, and the queue is the end of what was pushed |
| Backchannel.FramesAreContiguous | src/sip_media/rtsp_stream.c:654-659 | every frame is a contiguous piece of the input, at most 16000 bytes old |
| Backchannel.WithoutOverrunsNothingIsLost | src/sip_media/rtsp_stream.c:599-605 | with no overrun what was played is a prefix of what was pushed |
| Backchannel.QuietUntilPrebuffered | src/sip_media/rtsp_stream.c:634-643 | after an underrun nothing plays until 1600 bytes are queued |
| Backchannel.PlaysExactlyWhen | src/sip_media/rtsp_stream.c:634-643 | in every run the thread at rest begins to play if and only if 1600 bytes are queued, and goes on if and only if a frame is |
| Backchannel.UnderrunsEndPlayback | src/sip_media/rtsp_stream.c:637-641 | in every run each beginning of playback goes on or has ended in one counted underrun |
| Backchannel.PlayoutIsNeverEarly | src/sip_media/rtsp_stream.c:648-694 | a frame is taken no earlier than the bytes before it need to play, over re-buffering and resynchronisation |
| Backchannel.SteadyPlayoutKeepsTime | src/sip_media/rtsp_stream.c:648-694 | while nothing runs out and no frame is 200 ms late the next deadline is exactly 125 us per byte later |
| Backchannel.LateFramesRestartTheClock | src/sip_media/rtsp_stream.c:677-694 | a frame more than 200 ms late restarts the clock, and no other does |
| Backchannel.CountedFromTheTakingExactly | src/sip_media/rtsp_stream.c:648-694 | counted from the taking of a first frame no later one is early if and only if the deadline is not before that frame's end, or the thread stalls long enough for the clock to be restarted late enough |
| Backchannel.NotCountedFromTheTaking | src/sip_media/rtsp_stream.c:648-659 | a run in which it is early exists |
| Backchannel.BurstsAreBounded | src/sip_media/rtsp_stream.c:677-694 | between two frames no more is played than fits the time between them and 200 ms |
| Backchannel.FramesInAWindow | src/sip_media/rtsp_stream.c:677-694 | a window of w us holds at most 2 + (w + 200000) / (125 * size) frames |
| Backchannel.Backchannel.Push | src/sip_media/rtsp_stream.c:593-612 | the byte loop over the ring keeps the last 16000 bytes of old content and data and counts the rest |
| Backchannel.Backchannel.Poll | src/sip_media/rtsp_stream.c:634-643 | the wait condition, the underrun count and the restart of the clock |
| Backchannel.Backchannel.PlayFrame | src/sip_media/rtsp_stream.c:648-694 | takes the oldest bytes and moves the deadline as specified |
| ClientSlots.StepKeepsInv | src/sip_media/rtsp_stream.c:944-1141 | every step of every thread keeps slots, workers, sockets and closes consistent |
| ClientSlots.NoCallOnARecycledDescriptor | src/sip_media/rtsp_stream.c:134-147 | every send, recv, shutdown and close reaches the connection its caller means |
| ClientSlots.NoConnectionIsClosedTwice | src/sip_media/rtsp_stream.c:999-1009 | no connection is closed twice |
| ClientSlots.NothingLeaks | src/sip_media/rtsp_stream.c:1118-1137 | once listener and workers are done every accepted connection has been closed |
| ClientSlots.OneWorkerPerSlot | src/sip_media/rtsp_stream.c:1030-1056 | a slot is never given out while its worker lives |
| ClientSlots.ServedOrRefused | src/sip_media/rtsp_stream.c:1030-1141 | an accepted client gets the first free slot and a worker of its own; without a slot or a thread it is closed |
| ClientSlots.ShutDownClientsAreSkipped | src/sip_media/rtsp_stream.c:134-147 | a client shut down or not reached gets no more broadcasts, and its worker keeps the descriptor |
| ClientSlots.LeavingGivesBack | src/sip_media/rtsp_stream.c:999-1009 | a worker that leaves closes its own connection and frees its slot |
| ClientSlots.LeftWorkerMisdirects | src/sip_media/rtsp_stream.c:1232-1252 | a worker left on any slot can be made to answer a client it was never given |
| ClientSlots.RestartNeedsAllWorkersGone | src/sip_media/rtsp_stream.c:1308-1352 | after a restart every run reaches the right connections and leaks none if and only if no worker outlived the stop |
| ClientSlots.AllocateClient | src/sip_media/rtsp_stream.c:1030-1056 | the loop takes the first free slot and changes no other |
| SipSession.SessionStaysConsistent | src/sip_media/sip_calling.c:151-236 | after every step of every run the state, direction, Call-ID, retained INVITE, references and callback chain fit together |
| SipSession.CallsArePlaced | src/sip_media/sip_calling.c:224-236 | from a free session a call goes out numbered and kept with one reference; a busy one is left alone, and every failure leaves it empty |
| SipSession.RingingIsShown | src/sip_media/sip_calling.c:952-956 | 180 and 183 take a waiting call to RINGING, and no other response below 300 but 200 does anything |
| SipSession.AnswerStartsAudio | src/sip_media/sip_calling.c:946-978 | the 200 of a waiting call is acknowledged and starts audio with the media of its SDP; a repeated one is only acknowledged |
| SipSession.RefusalEndsTheCall | src/sip_media/sip_calling.c:980-984 | a response of 300 or more leaves the session empty and IDLE |
| SipSession.OtherResponsesAreIgnored | src/sip_media/sip_calling.c:931-941 | a response to no call of this side, or with another Call-ID, changes nothing |
| SipSession.InvitesAreTaken | src/sip_media/sip_calling.c:439-539 | a free session answers an INVITE, with its Call-ID and the media of its SDP, or is left empty when that fails |
| SipSession.RepeatedInviteIsAnswered | src/sip_media/sip_calling.c:377-410 | the INVITE of the call at hand is only answered once more |
| SipSession.AckStartsAudio | src/sip_media/sip_calling.c:541-561 | the ACK of an incoming call, and no other, starts audio with the media of its INVITE |
| SipSession.ByeEndsTheCall | src/sip_media/sip_calling.c:563-583 | the BYE of the call is answered with 200 and leaves any session empty and IDLE, with one report; another BYE gets 481 |
| SipSession.CancelEndsTheCall | src/sip_media/sip_calling.c:585-597 | a CANCEL is answered and leaves an INCOMING session empty |
| SipSession.UnansweredCallsTimeOut | src/sip_media/sip_calling.c:911-926 | a waiting call that has reached its time is cancelled and IDLE, and nothing else ends by time |
| SipSession.HangingUpEndsTheCall | src/sip_media/sip_calling.c:811-831 | hanging up sends three BYEs in an established call of either direction, a CANCEL in a waiting one, and leaves the session empty |
| SipSession.NoInviteIsForgotten | src/sip_media/sip_calling.c:599-709 | when the session is idle every INVITE sent has been cancelled, acknowledged, refused or ended by the peer |
| SipSession.OneCancelPerSentInvite | src/sip_media/sip_calling.c:344-368 | a CANCEL is for an INVITE sent before it, and no INVITE is cancelled twice |
| SipSession.ForeignInviteIsRefused | src/sip_media/sip_calling.c:430-437 | another call's INVITE leaves an incoming or established session as it is |
| SipSession.IncomingCallWins | src/sip_media/sip_calling.c:411-429 | during an unanswered outgoing call it is cancelled, reported as ended, and the incoming one taken as by a free session |
| SipSession.CancelEndsWhateverIsIncoming | src/sip_media/sip_calling.c:585-597 | a CANCEL ends exactly an INCOMING session, whichever call it belongs to |
| SipSession.ForeignTrafficIsIgnored | src/sip_media/sip_calling.c:370-583 | no sequence of INVITEs, ACKs, BYEs and responses of other calls changes an incoming or established session |
| SipSession.LongCallIdsNeverConnect | src/sip_media/sip_calling.c:238-252 | the ACK of an accepted INVITE establishes the call if and only if the Call-ID has at most 127 characters |
| SipSession.LongCallIdsAreStrangers | src/sip_media/sip_calling.c:541-583 | with a longer one no sequence of its ACKs and BYEs changes the session |
| SipSession.LateRefusalEndsTheNextCall | src/sip_media/sip_calling.c:612-619 | the refusal of a cancelled call ends the next call if and only if their Call-IDs are equal |
| SipSession.AnsweredThenRinging | src/sip_media/sip_calling.c:911-987 | through any events that do not end the call itself an answered call stays up, RINGING exactly when ringing was reported last, unless a timeout or a foreign INVITE comes then; in that case its INVITE is cancelled |
| SipSession.AnsweredCallsEndWithBye | src/sip_media/sip_calling.c:811-831 | after any such events hanging up sends a BYE if and only if ringing was not reported last, and a CANCEL otherwise |
| SipSession.SipCalling.SetCallState | src/sip_media/sip_calling.c:151-187 | the state change with its callbacks, FAILED falling through to IDLE |
| SipSession.SipCalling.PlaceCall | src/sip_media/sip_calling.c:224-236 | makes the call step, also when creating, describing or sending the INVITE fails |
| SipSession.SipCalling.HandleInvite | src/sip_media/sip_calling.c:370-539 | makes the INVITE step |
| SipSession.SipCalling.HandleAck | src/sip_media/sip_calling.c:541-561 | makes the ACK step |
| SipSession.SipCalling.HandleBye | src/sip_media/sip_calling.c:563-583 | makes the BYE step |
| SipSession.SipCalling.HandleCancel | src/sip_media/sip_calling.c:585-597 | makes the CANCEL step |
| SipSession.SipCalling.HandleResponse | src/sip_media/sip_calling.c:928-987 | makes the response step and tells whether the response was ours |
| SipSession.SipCalling.SendBye | src/sip_media/sip_calling.c:711-809 | three tries, none without a Call-ID |
| SipSession.SipCalling.TerminateCall | src/sip_media/sip_calling.c:811-831 | makes the terminate step |
| SipSession.SipCalling.SetCallTimeout | src/sip_media/sip_calling.c:106-111 | the timeout is kept within 10 and 120 seconds and the session is not touched |
| SipSession.SipCalling.CheckCallTimeout | src/sip_media/sip_calling.c:911-926 | makes the timeout step |
| SipSdp.ParseInvertsBuild | src/sip_media/sip_sdp.c:35-116 | parsing what was built gives back audio port, DTMF payload 101, video port and, with video, its payload type, else 0 |
| SipSdp.ParseReadsOffers | src/sip_media/sip_sdp.c:74-116 | for every description with an audio section and perhaps a video section, whoever wrote it: which ports count, the first telephone-event and H264 payloads of their own sections, and the defaults |
| SipSdp.NothingOffered | src/sip_media/sip_sdp.c:74-116 | text without media sections gives 8000, 101, 0 and 0 |
| SipSdp.BuildFits | src/sip_media/sip_calling.c:995-1001 | the text fits its caller's buffer for every dotted address |
| SipSdp.DecimalScans | src/sip_media/sip_sdp.c:92-93 | scanning a printed number gives the number and stops behind it |
| SipSdp.FindBehind | src/sip_media/sip_sdp.c:89 | a media line is not found in text without "m=" |
| SipSdp.AudioDtmf | src/sip_media/sip_sdp.c:7-33 | the walk over the audio section ends at the telephone-event map |
| SipSdp.VideoPayload | src/sip_media/sip_sdp.c:7-33 | the walk over the video section ends at the H264 map |
| SipSdp.ParsePayloadType | src/sip_media/sip_sdp.c:7-33 | the line-walking loop computes the specified payload type |
| SipSdp.ParseSdp | src/sip_media/sip_sdp.c:74-116 | the results stored are those of the specification, defaults included |
| IntercomLine.AttemptsAreApart | src/sip_media/sip_media.c:1556-1663 | in one viewing session attempts are at least 5 s apart and keep to the back-off table |
| IntercomLine.BackoffTimes | src/sip_media/sip_media.c:1556-1564 | the five waits of the table by number, and when the count of refusals grows and restarts |
| IntercomLine.BackoffIsBounded | src/sip_media/sip_media.c:1556-1564 | in every run no attempt waits longer than five minutes from the last call |
| IntercomLine.OpensExactlyWhenDue | src/sip_media/sip_media.c:1613-1663 | in every run an attempt is made if and only if there are viewers, no SIP call, a line that is down and not held, no cap and no wait; what goes out makes the line the keeper's own from then on |
| IntercomLine.GivesUpWhenDue | src/sip_media/sip_media.c:1576-1650 | in every run what each call does, from the history: stops for the last viewer and the cap, notes a drop, or nothing |
| IntercomLine.NothingOpensAfterTheCap | src/sip_media/sip_media.c:1597-1620 | after the cap nothing is opened before the viewers leave |
| IntercomLine.EveryStopHasItsStart | src/sip_media/sip_media.c:1576-1611 | every STOP_CALL has a START_CALL of its own before it |
| IntercomLine.TheCapHolds | src/sip_media/sip_media.c:1597-1611 | after a call with viewers a line still owned has been held less than the cap |
| IntercomLine.TearsDownWhenMistaken | src/sip_media/sip_media.c:1576-1582 | a foreign line can be torn down exactly when the keeper takes it for its own |
| IntercomLine.OthersAreSafeExactly | src/sip_media/sip_media.c:1540-1555 | it never does if and only if nobody opens the line between a drop and the next call |
| IntercomLine.LineKeeper.SyncLine | src/sip_media/sip_media.c:1566-1666 | the C function makes exactly the specified step |
| IntercomLine.LineKeeper.EnsureOpen | src/sip_media/sip_media.c:1477-1512 | opens the line unless somebody was faster or the command fails |
| IntercomLine.LineKeeper.Close | src/sip_media/sip_media.c:1514-1538 | sends STOP_CALL and clears the call state whatever comes of it |
| MqttFraming.EncodeIsMinimal | src/sip_media/mqtt.c:168-180 | the length encoding stands for the length and no other is shorter |
| MqttFraming.ReadPrinted | src/sip_media/mqtt.c:268-308 | a packet anywhere in a stream is read back and the reader stands behind it, if its body is under 128^3 bytes; else the read fails |
| MqttFraming.FramingStaysInSync | src/sip_media/mqtt.c:268-308 | any sequence of packets, read with any buffer sizes, stays in sync if and only if all bodies are under 128^3 bytes |
| MqttFraming.PublishedIsDelivered | src/sip_media/mqtt.c:2037-2057 | a publish arrives as that topic and message if and only if topic, message and body fit the receiver; a longer message arrives cut to 511 bytes |
| MqttFraming.EncodeRemaining | src/sip_media/mqtt.c:168-180 | the do-while loop writes the encoding, or fails when it does not fit |
| MqttFraming.PacketBuffer.AppendBytes | src/sip_media/mqtt.c:189-195 | appends, or fails without a trace |
| MqttFraming.PacketBuffer.AppendStr | src/sip_media/mqtt.c:182-202 | appends a length-prefixed string of at most 65535 bytes |
| MqttFraming.Connection.WriteAll | src/sip_media/mqtt.c:138-151 | sends all, or a prefix and reports it |
| MqttFraming.Connection.ReadAll | src/sip_media/mqtt.c:153-166 | takes exactly the bytes asked for over any short reads |
| MqttFraming.Connection.ReadPacket | src/sip_media/mqtt.c:268-308 | the loops of the reader do what the specification says |
| MqttFraming.Connection.SendPacket | src/sip_media/mqtt.c:204-226 | a packet goes out whole, or a prefix of it before an error |
| MqttFraming.PublishBody | src/sip_media/mqtt.c:394-417 | the buffer is as large as topic and payload need, and holds them |
| MqttFraming.Connection.Publish | src/sip_media/mqtt.c:394-423 | sends the publish packet of topic and payload, unless the topic, the packet or a send fails |
| MqttFraming.HandlePublish | src/sip_media/mqtt.c:2037-2057 | takes topic and message from a body as specified |
| ConfigFile.WrittenIsTaken | src/sip_media/config.c:427-438 | both readers take key and value from the line that is written |
| ConfigFile.QuotedIsTaken | src/sip_media/config.c:127-139 | a value in single or double quotes is read without them by the daemon and with them by the updater, blanks around it or not |
| ConfigFile.CommentsAreSkipped | src/sip_media/config.c:114-118 | a comment assigns nothing to either reader |
| ConfigFile.ReplacedIsTaken | src/sip_media/config.c:423-430 | every line that is replaced is an assignment of the key to both readers |
| ConfigFile.DaemonReadsBackExactly | src/sip_media/config.c:297-342 | in any file the daemon reads back every value set if and only if the last line it takes is a replaced one, or none is replaced and only blanks without CR are behind the last newline |
| ConfigFile.UpdaterReadsBackExactly | src/firmware_update.c:197-220 | in any file the updater does if and only if the first line it takes is a replaced one, or none is, it takes none, and only blanks are behind the last newline |
| ConfigFile.ReadersCanDisagree | src/sip_media/config.c:426-430 | a later line with blanks around its equals sign hides the new value from the daemon but not from the updater |
| ConfigFile.OtherKeysAreUntouched | src/sip_media/config.c:406-448 | every other key reads as before in both, unless the new line is glued onto an assignment of that key |
| ConfigFile.GluedToTheLastLine | src/sip_media/config.c:436-438 | for every key, value and unterminated last line with something visible that does not assign the key, the value set is lost to both readers |
| ConfigFile.GluedValueChanges | src/sip_media/config.c:436-438 | and the key assigned in that line takes the glued text into its value |
| ConfigFile.SetValue | src/sip_media/config.c:406-448 | the loop over lines writes exactly the specified text |
| ConfigFile.ReadCfgValue | src/firmware_update.c:197-220 | the updater's loop returns the first assignment |
| ConfigFile.Load | src/sip_media/config.c:297-342 | the daemon's loop returns the last assignment |
| CallSessions.TextIsInjective | src/sip_media/call_session.c:85-86 | ids with different numbers differ in print |
| CallSessions.HexReadsBack | src/sip_media/call_session.c:85-86 | a number printed with leading zeros reads back as itself |
| CallSessions.CallsShareAnIdExactly | src/sip_media/call_session.c:81-84 | two calls share a number if and only if a multiple of 2^32 - 1 calls lies between them |
| CallSessions.IdsNameCalls | src/sip_media/call_session.c:81-86 | among the first 2^32 - 1 calls events with one id are events of one call |
| CallSessions.EventsOfACall | src/sip_media/call_session.c:99-137 | in one call events are numbered one by one with one start time, none but the last is terminal, and no other call comes between |
| CallSessions.CallsBeginAtOne | src/sip_media/call_session.c:64-97 | a call begins with event 1, behind the terminal event of another |
| CallSessions.CallSession.StartCall | src/sip_media/call_session.c:64-97 | starts a call unless one is active and keeps the log in order |
| CallSessions.CallSession.Record | src/sip_media/call_session.c:99-137 | records an event of the active call and keeps the log in order |

## Left out

- GADI/ADI headers, audio bridge, audio hardware and video worker: wrappers over a closed driver library.
- TLS, HTTP download, DNS, option parsing and the md5sum subprocess of the updater; the digest is taken as injective.
- MQTT discovery, topic dispatch, Prometheus text, logging: string plumbing.
- Base64 for snapshots, the UART table, the intercom checksum, runtime configuration clamps: one loop or table each.
- PJSIP inside: messages are method, Call-ID, status and SDP result; tags, contacts and URIs of a dialog are not modelled.
- Re-entrant calls from the SIP state callbacks: the callbacks only read the session, and are log entries here.
- OtaProtocol.FlashingIsSafe: takes a daemon to be recognisable in /proc from its start to its end; a process caught between fork and exec is not modelled. It also takes updater and daemons to name the same watchdog device; each reads it from the configuration with its own reader, and these can disagree (`ConfigFile.ReadersCanDisagree`).
- OtaProtocol.StoppingIsBounded: bounds the number of visits to /proc, not the time each takes.
- HardwareWatchdog.AcceptedConfigurationIsSafe: the thread wakes every 100 ms in the code; wake-ups may be a whole feed interval apart here, but not more.
- RtspDemux.Receiver.ReadRequest: the end of the stream stands for a closed socket, an error and the handshake timeouts; EINTR retries and the periodic log line are left out.
- Backchannel.Backchannel.PlayFrame: sending the frame to the audio hardware, and re-probing it after a failure, are left out; time passes between clock readings only.
- ClientSlots.StepKeepsInv: playing and track flags are left out, so more sends are possible here than in the code; other descriptors of the process are not modelled.
- SipSession.SipCalling.PlaceCall: the outgoing Call-ID is a parameter; calls placed within one second have the same one in the code.
- IntercomLine.LineKeeper.EnsureOpen: the reopen guard, which sleeps inside the call, is taken as 0, its default.
- MqttFraming.EncodeRemaining: payload lengths of 2^31 and more, which the cast to int makes negative, are left out; the callers' buffers do not reach them.
- ConfigFile.SetValue: lines of 511 characters and more, which fgets takes in pieces, are left out, and so are failing file operations.
- ConfigFile.ReadCfgValue: lines of 255 characters and more are left out for the same reason.
- ConfigFile.Load: one key at a time, as text; conversion to numbers is left out.
- CallSessions.CallSession.Record: event type, source, route, media state and reason texts are left out.
- SipSdp.ParseSdp: numbers beyond the range of int, for which sscanf has no defined result, are taken as they are; null pointers are left out.
- The scheduled daily reboot: its memory does not survive the reboot, so it keeps no promise to prove.
