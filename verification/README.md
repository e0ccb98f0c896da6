# VAANI edge: a verified model

VAANI listens for a keyword on the device and, once it hears it, streams the audio around it
to a LAN server for recognition. This project models the audio path and the firmware's
concurrency and proves what they promise:

- **Audio session.** Recording, pre-roll ring, chunking client, binary codec, server
  connection, reassembly buffer, recogniser input and reply, each stage as the code has it,
  and their composition: what the recogniser is given is exactly a suffix of the padded
  recording, and the client reads its outcome.
- **Server connection.** Every run of the receive loop, over every mix of frames, failing
  sends, timeouts and disconnects: what the open session holds, what a rejected frame changes,
  which replies are sent, and in which order the stamps lie.
- **Trigger.** The counter machine against a counter-free meaning, its rate, and the firmware's
  machine against the Python one.
- **Firmware.** The circular ring buffer against an abstract bounded queue, and the hand-off
  between KwsTask and StreamingTask under every interleaving.
- **Numeric parts, over the reals.** The INT8 quantiser and the two MFCC front ends.

| file | models |
|---|---|
| Words, Pcm, Circular | words and byte order; 16-bit samples; circular storage |
| Protocol, ProtocolCodec | server/protocol.py and the firmware's codec |
| AudioBuffers, Sessions | server/audio_buffer.py, server/session.py |
| Server, ServerLoop | server/main.py: a round of the loop as a value, and the code on session objects |
| ProtocolClient | desktop/protocol_client.py |
| WavSource, DesktopRing, DesktopClient | desktop/wav_audio_source.py, desktop/desktop_kws_client.py |
| EndToEnd | client, server and the desktop pipeline together |
| Trigger, FirmwareTrigger | the trigger in Python and in the firmware |
| FirmwareRing, HandOff | ring_buffer.cpp and the two tasks of app_main.cpp |
| FrontEnd, Quantizer | the feature front ends and the quantiser |

Objects the code updates in place are classes whose methods are proved equal to a function of
the old state; the theorems are about that function and its runs. Where recursion over a run
is needed, the last event is peeled off.

How the code was read where it is not runnable or disagrees with its documentation:

- `server/main.py` carries Markdown fences (lines 1 and 433) and a pasted fragment (322-326);
  `_finalize_session` is read as lines 284-320 followed by 328-371.
- The Python `TriggerStateMachine` is the one in `desktop/desktop_kws_client.py`; the import
  from `server.session` in `ml/training/threshold_sweep.py` names a class that is not there.
- `app_main.cpp` calls `StartStreaming` and `ReadStreaming`, which `RingBuffer` does not
  declare; the task model lets the number of samples they return be anything.
- `configs/network.yaml` names the magic `VANI`; both codecs use `EVA1`, and so does the model.
- `docs/state_machine.md` draws every path back to LISTENING. The code does not keep that:
  `HandOff.EveryDetectionCanStrand` is a schedule after which the state stays STREAMING for
  good, and `HandOff.StrandedExactly` says exactly when this happens.
- `encode_message` admits sample rate 0, which `decode_header` refuses
  (`Protocol.DecodeEncode`).
- `ForceState` stores the state and then the count without a lock, and KwsTask has the higher
  priority. A count it starts between the two stores of `ForceState(kListening)` is lost:
  `HandOff.FirmwareDetections` holds as long as that does not happen,
  `HandOff.LateResetDiverges` is what it costs, and `HandOff.PromptNeverLate` says that it
  takes more windows than the cooldown has (75 as shipped) within that one call.
- The firmware's filterbank divides zero by zero when an adjusted filter centre falls on the
  last bin, where Python has weight 1 (`FrontEnd.FiltersAgree`), and then every coefficient is
  NaN (`FrontEnd.MfccAgree`). The shipped constants (40 filters, 300 to 8000 Hz, a 256-point
  FFT) are not affected: their bin points end in 108, 114, 121, 128, so no centre is the last
  bin, 128 (`FrontEnd.ShippedPointsFit`). The same constants with a 16-point FFT are
  (`FrontEnd.CoarseFeaturesAreNaN`).
- The firmware scales MFCC coefficient 0 like the others, Python orthonormally: the firmware's
  is sqrt(2) times Python's (`FrontEnd.MfccAgree`).

Inputs that the code takes from outside are parameters: clock readings, the success of each
send, what the recogniser returns, the probability of a window, whether a mutex is taken in
time, what a transport call returns, and the scheduler's choices. The frame size, pre-roll,
ring and window lengths are arbitrary positive numbers rather than the constants of the code.

## Model

| member | source | states |
|---|---|---|
| Words.BigEndianAt | server/protocol.py:12-13 | each byte of a network-order word is the shift and mask of the value |
| Protocol.DecodeEncode | server/protocol.py:56-194 | a message that encodes decodes to what was encoded if its rate is positive, and is refused for its rate if it is 0 |
| Protocol.EncodeDecode | server/protocol.py:117-194 | every accepted byte string is the encoding of what it decodes to |
| Protocol.PrefixFree | server/protocol.py:185-194 | no accepted message is a proper prefix of another |
| Protocol.EncodeInjective | server/protocol.py:56-114 | two messages with the same encoding are the same message, those with rate 0 included |
| Protocol.HeaderWrittenOut | server/protocol.py:9-21 | the header byte by byte: magic EVA1, version 1 and each field in network order at its offset |
| Protocol.CodesWrittenOut | server/protocol.py:24-33 | message type and sample format codes |
| Protocol.EncodeErrors | server/protocol.py:56-100 | which arguments are refused with which error; nothing else is |
| Protocol.DecodeErrors | server/protocol.py:117-194 | which byte strings are refused with which error; the rest is accepted with the fields at their offsets |
| ProtocolCodec.WriteU32BE | firmware/esp32s3/components/lan_transport/src/protocol_codec.cpp:8-13 | writes the four network-order bytes at the cursor, and nothing behind them |
| ProtocolCodec.ReadU32BE | firmware/esp32s3/components/lan_transport/src/protocol_codec.cpp:15-18 | reads the value the four bytes stand for |
| ProtocolCodec.WriteU64BE | firmware/esp32s3/components/lan_transport/src/protocol_codec.cpp:20-24 | the shifting loop writes the eight network-order bytes |
| ProtocolCodec.ReadU64BE | firmware/esp32s3/components/lan_transport/src/protocol_codec.cpp:26-32 | the accumulating loop reads the value back and never wraps |
| ProtocolCodec.EncodeHeader | firmware/esp32s3/components/lan_transport/src/protocol_codec.cpp:36-58 | the firmware's 44 bytes are Python's header of the same fields, the rest of the buffer is untouched |
| ProtocolCodec.DecodeHeader | firmware/esp32s3/components/lan_transport/src/protocol_codec.cpp:60-88 | accepts exactly on length, magic and version; every header Python accepts is accepted with the same fields |
| ProtocolCodec.PythonAcceptsMore | server/protocol.py:117-182 | the exact further conditions under which Python accepts a header the firmware accepts |
| ProtocolCodec.ConverseFails | firmware/esp32s3/components/lan_transport/src/protocol_codec.cpp:60-88 | a header the firmware accepts and Python refuses |
| ProtocolCodec.FirmwareHeaderDecodes | firmware/esp32s3/components/lan_transport/src/protocol_codec.cpp:36-58 | what the firmware sends decodes on the server to the same message, exactly when rate and channels are positive and the payload fits |
| Pcm.FromToBytes | server/storage/wav_writer.py:20-25 | the samples a client serialises are the samples the recogniser gets, divided by 32768 |
| Pcm.BytesWrittenOut | server/storage/wav_writer.py:20-25 | two's complement, low byte first, and the fraction of 32768 a sample becomes |
| Pcm.ToFloatMeaning | server/storage/wav_writer.py:20-25 | the conversion loses a stray last byte and nothing else, and stays within [-1, 1) |
| AudioBuffers.NewAudioBuffer | server/audio_buffer.py:20-28 | a limit that is not positive is refused, otherwise the buffer is empty |
| AudioBuffers.AudioBuffer.Append | server/audio_buffer.py:37-67 | the whole new state and the error, as a function of the old state |
| AudioBuffers.AudioBuffer.SortedKeys | server/audio_buffer.py:69-73 | lists exactly the stored sequence numbers, in increasing order |
| AudioBuffers.AudioBuffer.Reconstruct | server/audio_buffer.py:69-73 | joins the stored payloads in increasing sequence order |
| AudioBuffers.AudioBuffer.Clear | server/audio_buffer.py:75-78 | back to the empty buffer, limit kept |
| AudioBuffers.AppendKeepsInv | server/audio_buffer.py:37-67 | every append keeps the limit and the accounting; a refused one changes nothing, a duplicate only its counter |
| AudioBuffers.LossAccounting | server/audio_buffer.py:44-67 | after any run, the dropped estimate less the late arrivals is the number of missing sequence numbers, and the byte and chunk counts are exact |
| AudioBuffers.FirstWins | server/audio_buffer.py:37-61 | over every run, refused arrivals included, each sequence number keeps the payload of its first accepted arrival, and nothing else is stored |
| AudioBuffers.ReassemblyIndependent | server/audio_buffer.py:37-73 | any order and repetition of the entries of a map is accepted throughout if and only if the map fits the limit, and rebuilds that map |
| Sessions.NewSession | server/session.py:36-49 | the four refusals, in order, or a fresh empty session |
| Sessions.ServerSession.AddChunk | server/session.py:55-69 | closed and empty are refused, the buffer's error passes through, otherwise chunk and stamps are recorded |
| Sessions.ServerSession.MarkAsrStart | server/session.py:74-76 | stamps once |
| Sessions.ServerSession.MarkAsrEnd | server/session.py:78-80 | stamps once |
| Sessions.ServerSession.Close | server/session.py:82-87 | closes and stamps once |
| Sessions.AddChunkKeepsTaking | server/session.py:55-69 | under a monotonic clock the stamps stay ordered and identity, format and limit are kept |
| Sessions.FinalisedIsOrdered | server/session.py:74-126 | finalising orders all stamps, and the latency report adds up |
| Sessions.ReportWrittenOut | server/session.py:89-126 | the four delays of the latency report, in milliseconds |
| Server.JudgeMeaning | server/main.py:94-242 | a binary frame is refused exactly when it is not an allowed request in this state, said without the order of the checks |
| Server.RejectedUnchanged | server/main.py:87-242 | a rejected frame leaves the session as it was and costs one ERROR, or ends the connection if that cannot be sent |
| Server.RefusalReason | server/main.py:87-242 | the ERROR a refused frame costs names the one reason that applies, said without the order of the checks |
| Server.FinalisingRound | server/main.py:80-85 | a timeout, an END (232-236) and a chunk that cannot be buffered (190-208, after an ERROR about it) finalise the open session: recognised between this round's ASR stamps, closed, then answered with the transcript or the ERROR; what a failing send or too long a text leaves |
| Server.EndingRound | server/main.py:244-256 | a lost connection closes the open session without recognising or answering; an idle timeout only ends the loop |
| Server.AcceptingRound | server/main.py:117-208 | an accepted START opens an empty session, an accepted chunk is stored and stamped, and neither is answered |
| Server.SessionSafety | server/main.py:71-256 | in every reachable state at most one session is open, 16 kHz mono, within its limit; every session begun is closed exactly once, in order, or is the open one |
| Server.BufferHolds | server/main.py:143-236 | the open session's buffer is exactly the run of the matching chunks since its START, first payload per sequence number, and its stamps are when the first and the last of them were received |
| Server.AnswersMatchSessions | server/main.py:279-371 | in every run the answers are, in order, those of the ended sessions, each on its own audio, by the recogniser and clock of the round that ended it; only the last can be missing, and only with the connection lost or a text too long |
| Server.CrashedExactly | server/main.py:279-371 | the handler crashes if and only if the text of some answer of the run does not fit a message |
| Server.ReplyConservation | server/main.py:80-256 | with sends succeeding, however the run ends: one answer per finalised session, and replies = rejections + buffer failures + finalisations, less exactly the one answer that did not fit if the handler crashed |
| Server.TimestampsOrdered | server/session.py:55-87 | under a monotonic clock all stamps of all sessions of a run are ordered |
| ServerLoop.AudioStreamServer.FinalizeSession | server/main.py:279-371 | rebuild, recognise between the two stamps, close, then answer; at once on a closed session |
| ServerLoop.AudioStreamServer.HandleStart | server/main.py:117-162 | the START branch computes the specified round |
| ServerLoop.AudioStreamServer.HandleChunk | server/main.py:164-208 | the AUDIO_CHUNK branch computes the specified round |
| ServerLoop.AudioStreamServer.HandleEnd | server/main.py:210-236 | the END branch computes the specified round |
| ServerLoop.AudioStreamServer.HandleRound | server/main.py:74-256 | one round of the loop computes the specified round |
| ServerLoop.AudioStreamServer.HandleConnection | server/main.py:65-256 | the loop computes the specified run; finished session objects are left as they ended |
| ProtocolClient.StreamUtterance | desktop/protocol_client.py:59-119 | sends START, the numbered chunks and END, stopping at the first message that cannot be encoded; exactly when none fails |
| ProtocolClient.ChunkFits | desktop/protocol_client.py:79-95 | every chunk is non-empty and at most a chunk long |
| ProtocolClient.ChunkWrittenOut | desktop/protocol_client.py:79-107 | the chunk size, and chunk k as the slice of the bytes it is |
| ProtocolClient.InterpretWrittenOut | desktop/protocol_client.py:126-140 | what the client makes of a reply frame |
| ProtocolClient.MessageDecodes | desktop/protocol_client.py:68-119 | what each message of a session decodes to: type, id, number, stamp, format and payload |
| WavSource.WavAudioSource.Read | desktop/wav_audio_source.py:39-52 | reads are the successive frames of the padded recording, and stop when it is used up |
| DesktopRing.RingBuffer.Push | desktop/desktop_kws_client.py:85-105 | the ring stands for the newest samples pushed, up to its capacity |
| DesktopRing.RingBuffer.GetLast | desktop/desktop_kws_client.py:107-124 | the newest samples asked for, in order |
| DesktopRing.NewRingBuffer | desktop/desktop_kws_client.py:73-83 | a capacity that is not positive is refused |
| DesktopClient.Listen | desktop/desktop_kws_client.py:196-257 | stops at the first frame that triggers, with the ring and the source exactly there, or reads everything |
| DesktopClient.SourceRemaining | desktop/desktop_kws_client.py:289-309 | terminates with all the audio still to be read |
| DesktopClient.RunSimulation | desktop/desktop_kws_client.py:127-274 | the utterance is the suffix of the padded recording that begins min(pre-roll, capacity, samples so far) before the first frame that ends three hot ones; none if no frame does |
| DesktopClient.TriggersMeaning | desktop/desktop_kws_client.py:180-257 | the frame that triggers is the first whose last three scores are at or above the threshold |
| DesktopClient.TriggersWrittenOut | desktop/desktop_kws_client.py:196-257 | with neither counters nor scores: the trigger is the first frame ending three in a row that complete a window and are forced, or whose window the model gives at least 0.8 |
| DesktopClient.ForcedTrigger | desktop/desktop_kws_client.py:215-222 | a forced trigger fires on the third frame that completes a window and is not before the requested one, whatever the audio |
| EndToEnd.ChunksAreUtterance | desktop/protocol_client.py:84-110 | the chunks joined in sequence order are the utterance |
| EndToEnd.ClientServerComposition | server/main.py:164-236 | in any order of delivery and with any repetition, the session ends with the utterance's bytes and one answer |
| EndToEnd.AnswerReachesClient | desktop/protocol_client.py:121-140 | the client reads the recogniser's outcome from the answer |
| EndToEnd.StreamedIsServed | desktop/protocol_client.py:59-140 | a session streamed in order gives the recogniser the utterance's samples and the client its outcome |
| EndToEnd.Pipeline | desktop/desktop_kws_client.py:127-286 | simulate, stream, serve and read the reply: the recogniser is given the suffix of the padded recording, on objects throughout |
| Trigger.TriggerStateMachine.constructor | desktop/desktop_kws_client.py:31-47 | the clamped configuration, counters at zero |
| Trigger.TriggerStateMachine.Update | desktop/desktop_kws_client.py:49-65 | the counters and the verdict as a function of the old counters |
| Trigger.TriggerStateMachine.Reset | desktop/desktop_kws_client.py:67-69 | counters at zero |
| Trigger.MachineMeetsSpec | desktop/desktop_kws_client.py:49-65 | a window fires if and only if the last N are at or above the threshold and none of the N + C - 1 before it fired |
| Trigger.SpecUnique | desktop/desktop_kws_client.py:49-65 | that meaning determines the triggers of a trace |
| Trigger.TriggerSpacing | desktop/desktop_kws_client.py:49-65 | two triggers are at least N + C windows apart |
| Trigger.TriggerRate | desktop/desktop_kws_client.py:49-65 | n windows hold k triggers only if k (N + C) <= n + C |
| Trigger.SimulateTriggerSequence | ml/training/threshold_sweep.py:27-46 | returns, in increasing order, exactly the windows that fire |
| FirmwareTrigger.TriggerStateMachine.Update | firmware/esp32s3/components/trigger_state_machine/src/trigger_state_machine.cpp:9-37 | the machine after a window, as a function of the old one |
| FirmwareTrigger.TriggerStateMachine.ForceState | firmware/esp32s3/components/trigger_state_machine/src/trigger_state_machine.cpp:39-47 | the forced state; kListening restarts the count and keeps the cooldown |
| FirmwareTrigger.FirmwareSimulatesPython | firmware/esp32s3/components/trigger_state_machine/src/trigger_state_machine.cpp:9-47 | if no state is forced in the middle of a count, the detections are Python's on the windows heard while listening |
| FirmwareTrigger.DetectionsMeetSpec | firmware/esp32s3/components/trigger_state_machine/src/trigger_state_machine.cpp:9-47 | so they have the trigger's meaning |
| FirmwareTrigger.ForceMidCountDiverges | firmware/esp32s3/components/trigger_state_machine/src/trigger_state_machine.cpp:39-47 | the guard is needed: after kListening is forced mid-count there are windows on which the firmware's detections are not Python's |
| HandOff.HandOffSafety | firmware/esp32s3/main/app_main.cpp:208-358 | under every interleaving at most one request is outstanding, none while listening, and the queue-full branch is never taken |
| HandOff.StreamsWholeSessions | firmware/esp32s3/main/app_main.cpp:383-584 | in every schedule StreamingTask's own steps from receiving a request to clearing the count are connect, START, pre-roll, at most 8000 / 30 frames up to the first failed chunk, END, result and the two forces, all with the request's id and consecutive numbers; a failed connect, START or non-empty pre-roll cuts this to the forces, and only then is kErrorRecovery forced |
| HandOff.EverySessionHappens | firmware/esp32s3/main/app_main.cpp:383-584 | and every such sequence can happen, whatever the calls return |
| HandOff.OnlyInSessions | firmware/esp32s3/main/app_main.cpp:383-393 | every other step of StreamingTask belongs to a session |
| HandOff.RequestsInOrder | firmware/esp32s3/main/app_main.cpp:335-393 | requests are served in the order they were sent, none lost |
| HandOff.KwsKeepsOrder | firmware/esp32s3/main/app_main.cpp:208-365 | exactly which step of KwsTask can follow which: poll, score or give up, send and force after a detection |
| HandOff.KwsStartsPolling | firmware/esp32s3/main/app_main.cpp:208-215 | KwsTask's first step is a poll |
| HandOff.SendOnAnyQueue | firmware/esp32s3/main/app_main.cpp:335-357 | xQueueSend on a queue of two, full or not, and the force that follows |
| HandOff.StrandedExactly | firmware/esp32s3/main/app_main.cpp:340-357 | a schedule ends stranded if and only if it forced kStreaming while the state was kListening |
| HandOff.StrandedForever | firmware/esp32s3/main/app_main.cpp:208-215 | a stranded system stays stranded whatever the tasks do |
| HandOff.AtomicNeverStranded | firmware/esp32s3/main/app_main.cpp:340-357 | with send and force as one step the state is never stranded and outside kListening a request is in progress |
| HandOff.EveryDetectionCanStrand | firmware/esp32s3/main/app_main.cpp:394-416 | without that, every detection has a schedule that strands it |
| HandOff.DetectionReachable | firmware/esp32s3/main/app_main.cpp:296-302 | N windows at the threshold do bring KwsTask to its send |
| HandOff.ProgressPossible | firmware/esp32s3/main/app_main.cpp:383-584 | outside kListening, unless stranded, some step besides polling can be taken |
| HandOff.ProgressStep | firmware/esp32s3/main/app_main.cpp:494-584 | and every such step lowers the rank or reaches kListening |
| HandOff.ReturnsToListening | firmware/esp32s3/main/app_main.cpp:383-584 | every schedule with more steps other than KwsTask's polls than the rank, at most 277, passes through kListening |
| HandOff.AtomicReturns | firmware/esp32s3/main/app_main.cpp:340-357 | with send and force as one step, every continuation of every run with more than 277 steps other than polls passes through kListening |
| HandOff.FirmwareDetections | firmware/esp32s3/main/app_main.cpp:296-358 | under every interleaving in which no count is cleared late, the firmware's detections are Python's on the windows it hears and have the trigger's meaning |
| HandOff.PromptNeverLate | firmware/esp32s3/components/trigger_state_machine/src/trigger_state_machine.cpp:39-47 | a count is cleared late only if KwsTask scores more windows than the cooldown between the two stores of ForceState |
| HandOff.LateResetDiverges | firmware/esp32s3/components/trigger_state_machine/src/trigger_state_machine.cpp:39-47 | every schedule with a count running at that point has a continuation on which the firmware does not detect as Python does |
| HandOff.LateResetReachable | firmware/esp32s3/main/app_main.cpp:394-416 | every tuning with N >= 2 has a schedule that gets there |
| HandOff.DetectsAsPythonExactly | firmware/esp32s3/components/trigger_state_machine/src/trigger_state_machine.cpp:9-47 | the firmware detects as Python does under every interleaving if and only if N = 1 |
| FirmwareRing.RingBuffer.Push | firmware/esp32s3/components/ring_buffer/src/ring_buffer.cpp:19-83 | refused exactly for null, empty, no capacity or a mutex timeout; otherwise appends and drops exactly the oldest overflow |
| FirmwareRing.RingBuffer.GetLast | firmware/esp32s3/components/ring_buffer/src/ring_buffer.cpp:85-139 | copies out the newest unread samples and consumes nothing |
| FirmwareRing.RingBuffer.Read | firmware/esp32s3/components/ring_buffer/src/ring_buffer.cpp:141-198 | copies out the oldest unread samples and removes exactly them |
| FirmwareRing.RunAccounting | firmware/esp32s3/components/ring_buffer/src/ring_buffer.cpp:19-198 | over every run accepted = read + overwritten + unread, and the reads are an in-order subsequence of what was pushed, all of it when nothing was overwritten |
| FrontEnd.FiltersAgree | firmware/esp32s3/components/feature_extractor/src/feature_extractor.cpp:73-101 | a filter is the same in both languages if and only if its adjusted centre is not the last bin |
| FrontEnd.BuildPythonFilterbank | ml/features/mel_spectrogram.py:36-62 | the loops fill the bank with the filters' weights |
| FrontEnd.FeatureExtractor.BuildMelFilterbank | firmware/esp32s3/components/feature_extractor/src/feature_extractor.cpp:71-101 | the firmware's loops fill its bank, the 0 / 0 cell included |
| FrontEnd.FeatureExtractor.WindowFrame | firmware/esp32s3/components/feature_extractor/src/feature_extractor.cpp:110-129 | the loop with its carried sample is pre-emphasis restarted in the frame, windowed |
| FrontEnd.FeatureExtractor.ComputeFrame | firmware/esp32s3/components/feature_extractor/src/feature_extractor.cpp:104-165 | DFT, energy, floor and logarithm of one frame |
| FrontEnd.FeatureExtractor.ComputeDct | firmware/esp32s3/components/feature_extractor/src/feature_extractor.cpp:167-190 | the first coefficients of a row's DCT |
| FrontEnd.FeatureExtractor.Compute | firmware/esp32s3/components/feature_extractor/src/feature_extractor.cpp:192-228 | refused exactly for a null pointer or too few samples, leaving the output alone; otherwise fills it frame after frame and nothing behind |
| FrontEnd.FeatureAt | firmware/esp32s3/components/feature_extractor/src/feature_extractor.cpp:214-225 | coefficient k of frame t stands at t times the number of coefficients, plus k, and is that of the frame starting at sample t times the hop |
| FrontEnd.FeaturesLocal | firmware/esp32s3/components/feature_extractor/src/feature_extractor.cpp:214-219 | it depends on that frame's samples only |
| FrontEnd.FirmwareCell | firmware/esp32s3/components/feature_extractor/src/feature_extractor.cpp:112-129 | each cell of the windowed frame, as a formula over the samples |
| FrontEnd.PythonCell | ml/features/mel_spectrogram.py:65-130 | the same for Python, for signals of any length, zero past the end |
| FrontEnd.PowerWrittenOut | ml/features/mel_spectrogram.py:132-142 | the power of a bin as the squared modulus of its Fourier sum |
| FrontEnd.TriangleWrittenOut | ml/features/mel_spectrogram.py:41-60 | a filter is a triangle from its left edge over its centre to its right edge |
| FrontEnd.LogMelWrittenOut | ml/features/mel_spectrogram.py:138-151 | a log-mel value as the logarithm of a floored weighted sum |
| FrontEnd.MfccWrittenOut | ml/features/audio_features.py:22-29 | a coefficient as the orthonormal DCT of type 2 |
| FrontEnd.WindowedFramesAgree | ml/features/mel_spectrogram.py:65-130 | emphasis over the whole signal and restarted per frame give identical windowed frames |
| FrontEnd.LogMelAgree | ml/features/mel_spectrogram.py:108-151 | a log-mel value of the firmware is Python's if and only if that filter's adjusted centre is not the last bin |
| FrontEnd.LastBinCentreIsNaN | firmware/esp32s3/components/feature_extractor/src/feature_extractor.cpp:86-100 | a filter centred on the last bin makes the firmware's value NaN |
| FrontEnd.ScalesAgree | firmware/esp32s3/components/feature_extractor/src/feature_extractor.cpp:172-173 | the firmware's DCT scale is the orthonormal one, and sqrt(2) times it for coefficient 0 |
| FrontEnd.MfccAgree | ml/features/audio_features.py:14-41 | every MFCC coefficient k >= 1 is the same on both sides and coefficient 0 differs by sqrt(2), unless some filter is centred on the last bin, which makes all of the firmware's NaN |
| FrontEnd.ShippedPointsFit | ml/features/feature_spec.py:10-20 | with the shipped constants no filter is centred on the last bin |
| FrontEnd.CoarseFeaturesAreNaN | firmware/esp32s3/components/feature_extractor/src/feature_extractor.cpp:86-100 | with a 16-point FFT one is, and every coefficient is NaN |
| Quantizer.QuantizeMonotone | ml/quantization/evaluate_quantized.py:46-64 | quantising is monotone |
| Quantizer.QuantizeIsNearest | ml/quantization/evaluate_quantized.py:46-74 | no int8 value stands for a real nearer to the input |
| Quantizer.QuantizeError | ml/quantization/evaluate_quantized.py:46-74 | within half a step inside the representable range, saturated outside |
| Quantizer.DequantizeQuantize | ml/quantization/evaluate_quantized.py:46-74 | every int8 value survives dequantising and quantising |
| Quantizer.ArgmaxOfDequantized | ml/quantization/evaluate_quantized.py:141-149 | the predicted class is that of the raw scores, first of equals included |
| Quantizer.QuantizeInputMeaning | ml/quantization/evaluate_quantized.py:46-64 | refused exactly for a scale that is not positive; otherwise every cell becomes, in its place, the nearest int8 value, the even one of two, and no other tensor is like that |
| Quantizer.EvaluateTflite | ml/quantization/evaluate_quantized.py:121-149 | every prediction is the first largest score of the interpreter on such a tensor of its sample, for any output scale, and the first largest raw score for a positive one |

## Left out

- Sockets, WebSocket framing, Wi-Fi and FreeRTOS internals: a send succeeds or fails, a mutex is taken or times out, and one call on shared state is one step, save for the two stores of StreamingTask's ForceState(kListening). In particular Update is one step.
- Connection retries and failing sends on the client's side; decoding the reply's text as UTF-8.
- The `_sessions` registry: ids are chosen by clients and may collide, and a failing final send leaves an entry behind.
- Debug WAV files, metrics reports and logging.
- The wording of ERROR texts about single messages: the reasons are an enumeration, and such a text is taken to fit a message.
- The recogniser, the neural network and training: an outcome or a probability is arbitrary. A NaN probability is not represented.
- Reading WAV files and mixing channels down: a recording is a mono sequence of 16-bit samples.
- Float32 rounding: reals stand for floats, except that 0 / 0 is a NaN that spreads. The FFT and scipy's DCT are their defining sums, and the mel scale is not computed: clipped bin points are given, those of the shipped constants included.
- Feature normalisation and padding of feature rows (`normalize_features`, `fixed_length_features`).
- FrontEnd.LogMelAgree: leaves out signals shorter than required, which the firmware refuses and Python pads.
- FrontEnd.MfccAgree: leaves out the same short signals.
- FirmwareRing.RingBuffer.Push: the storage array is assumed not to be the caller's input, as memcpy demands.
- ProtocolCodec.DecodeHeader: does not say what a refused header leaves in the struct.
- EndToEnd.Pipeline: the network delivers in order, without loss or timeout; other orders and repetitions are in EndToEnd.ClientServerComposition.
- The contents of the firmware's frames: StartStreaming and ReadStreaming are not part of this model.
- MetricsTask, AudioCaptureTask and configuration loading.
