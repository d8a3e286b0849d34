# Jeogi-at: verified model of its byte streams and event protocols

Jeogi-at is a station monitoring system: a Qt client, a C++ server, a Raspberry Pi device node and
an STM32 board exchange framed byte streams and event messages. This project models that traffic in
Dafny and proves what the protocols promise over all inputs, all ways of chunking a stream and all
interleavings of steps. `dafny verify dfyconfig.toml` checks all of it.

| file | models |
|---|---|
| `Wrappers.dfy`, `Bytes.dfy`, `Sequences.dfy`, `Search.dfy`, `Framing.dfy` | common types, first-occurrence search, and the general theorem on incremental framing |
| `CameraPacket.dfy` | the 16-byte packet header and `make_packet` |
| `Reassembly.dfy`, `PacketStream.dfy` | `NetworkClient::readData`, on arbitrary bytes and on packet streams |
| `Resynchronisation.dfy` | `readData` behind garbage, and behind what a lost connection left buffered |
| `Transport.dfy` | producers, bounded send queue, writer thread, connection and client as one step system |
| `CommandLines.dfy` | newline-terminated commands from the client |
| `MetadataParser.dfy` | ONVIF XML elements cut out of metadata packets |
| `UartFrame.dfy` | the frames of the UART link |
| `AudioStream.dfy` | microphone framing and the audio receiver |
| `Recording.dfy`, `RecordingManager.dfy` | the recording life cycle: states and theorems, and the class |
| `MotorMode.dfy` | automatic and manual motor control over server, channel and device |
| `Crc8.dfy` | the SHT20 checksum |
| `FrameCopy.dfy` | the YUV plane copies |
| `SubwayOverride.dfy` | the display override on a train's arrival |
| `Congestion.dfy` | people per zone, and updates of the configured zones |

## How the model is built

Code that changes state step by step is imperative Dafny: a method with its loop, or a class with
the source's fields. Each method is proved equal to a function of the old state, and the theorems
are about runs of those functions. Library searches (`indexOf`, `find`) are first-occurrence
search. What the environment decides is a parameter or an arbitrary choice: the size of a partial
read or write, a failing write, whether ffmpeg starts, whether a segment is overdue, the time.
Connections, files and links record their failures, so that a method may give up only after one.

Locked sections, event handlers and single reads or writes are atomic steps; runs interleave them
freely. In `Recording`, calls deferred through the Qt event queue are an explicit FIFO of pending
tasks that runs interleave with user calls.

Where the code does not meet what one would expect of it, the exact condition is proved, with a
concrete run in which it fails:

- `readData` accepts packets of up to 11,000,016 bytes, but its overflow guards fire at 10 MiB.
  Reassembly is exact if and only if no read leaves more than 10 MiB behind the first packet it
  completes, a condition on packet and read lengths alone (`PacketStream.ChunkedStreamExactIff`);
  packets within the limits can be lost (`PacketStream.LargestPacketCanBeLost`). Reads no larger
  than 10 MiB less the largest packet are always safe.
- Garbage in front of a stream makes chunking observable: the branch that finds no cookie also
  drops the first bytes of a cookie cut in two. `Resynchronisation.GarbageThenStreamIff` says for
  which chunkings; `Resynchronisation.GarbageCutLoses` is a run that fails.
- The client keeps its buffer when a connection is lost, so an unfinished packet takes bytes of the
  next connection for its own. `Resynchronisation.ReconnectedIff` says when the new packets still
  get through; behind a whole header of a packet up to 10 MiB they never do.
- The XML parser equals one pass over the text, at every point of a run, if and only if its
  leftover never passes 512 KiB; `MetadataParser.LongElementIsLost` is an element that is lost.
- A manual stop does not hold if an automatic start was queued at that moment
  (`Recording.ManualStopHoldsIff`, and a run from the start in `Recording.ManualStopCanFail`).
- A camera can be calibrating without recording: exactly if a segment roll queued by an earlier
  session runs during calibration, until the next start that finds ffmpeg
  (`Recording.CalibratingNotRecordingIff`; a run from the start in `Recording.StaleRollHappens`).
- Commands lost for want of a broker connection can leave server and device in different modes, or
  the motor not doing what was asked. `MotorMode.LossesHealIff` says exactly when not, and
  `MotorMode.ModeCommandRepairs` that one mode command that gets through repairs everything.
- A changed length byte of a UART frame goes unnoticed exactly if a checksum and an ETX stand where
  the new length puts them (`UartFrame.LengthCorruptionPassesIff`), and a frame with a changed STX
  is skipped (`UartFrame.StxCorruptionSkipsFrame`); a changed command, data, checksum or ETX byte
  is always noticed.
- Two branches are dead: the re-check of the magic word in `readData`
  (client/src/backend/networkclient.cpp:253-256) and the first-frame thumbnail after calibration
  (client/src/backend/recordingmanager.cpp:251-252). The model has `assert false` there.

## Model

| member | source | states |
|---|---|---|
| Framing.FeedIsDrain | server/src/parser.cpp:102-128 | If a visible frame is never changed by input arriving behind it, cutting frames from chunks as they arrive gives the same frames and leftover as one pass over the whole input, for every chunking. |
| CameraPacket.MakePacket | server/src/client_handler.cpp:13-30 | Three copies into one buffer yield the encoding of the packet: big-endian header with sizes truncated to 32 bits, JSON, image; type JSON exactly for camera 0. |
| CameraPacket.DecodeEncode | protocol/camera_packet.hpp:9-19 | Reading the header and payloads of an encoded packet gives the packet back, whatever bytes follow it. |
| CameraPacket.WireExample | protocol/camera_packet.hpp:9-19 | A packet byte by byte: cookie, camera and sizes as big-endian words, then JSON, then image. |
| CameraPacket.EncodeDecode | client/src/backend/networkclient.cpp:242-275 | Bytes that start with the magic word and hold all their header announces are exactly the encoding of the packet read from them. |
| Reassembly.NetworkClient.ReadData | client/src/backend/networkclient.cpp:212-310 | The loop terminates on any input and updates buffer and notifications as one pass over old buffer and new data says; buffer, history and received bytes stay accounted for; listeners have been told of exactly the dispatched packets, in order, with the image as image and the JSON as JSON. |
| Reassembly.NetworkClient.ProcessFront | client/src/backend/networkclient.cpp:220-300 | One turn of the loop; the magic re-check cannot fail, and the 32-bit total size has not wrapped where it is used. |
| Reassembly.ReadAccounts | client/src/backend/networkclient.cpp:212-310 | For arbitrary bytes, skipped stretches, dispatched packets with their headers, and the kept buffer spell out the input in order; dispatched packets are within the limits. |
| Reassembly.OverflowDrops | client/src/backend/networkclient.cpp:295-309 | What each overflow guard throws away: all that lies behind a packet, or all up to the next cookie. |
| Reassembly.DropPassesNoCookie | client/src/backend/networkclient.cpp:224-264 | Resynchronisation passes over no cookie except the one in front of a header with abnormal sizes. |
| PacketStream.AnyInputIsAccountedFor | client/src/backend/networkclient.cpp:212-310 | The same over whole runs with arbitrary reads: dispatched packets are disjoint, increasing slices of the received bytes; the buffer is their suffix, below 11,000,016 bytes, and too short to search or at a cookie. |
| PacketStream.ReadExactIff | client/src/backend/networkclient.cpp:266-309 | One read of a piece of packet stream dispatches the complete packets and keeps the tail exactly if what lies behind its first packet is at most 10 MiB. |
| PacketStream.ChunkedStreamExactIff | client/src/backend/networkclient.cpp:212-310 | For every stream of acceptable packets and every chunking, payloads with cookie bytes included: exactly the complete packets are dispatched and exactly the unfinished tail is buffered if and only if, by packet and read lengths alone, no read leaves more than 10 MiB behind. |
| PacketStream.ReadConnection | client/src/backend/networkclient.cpp:212-310 | A fresh client on all chunks of a connection: exact on the same condition, and on a whole stream listeners are then told of every packet sent, in order: JSON for camera 0, otherwise camera, image and JSON of that packet. |
| PacketStream.NeverOverflowsIff | client/src/backend/networkclient.cpp:295-309 | On a packet stream that condition on lengths is what the two overflow guards look at, from any point of the stream on. |
| PacketStream.StreamRun | client/src/backend/networkclient.cpp:212-310 | From any history and any point of a stream, a client goes on exactly, or, if a read leaves too much behind, loses bytes. |
| PacketStream.ExactIsUnique | client/src/backend/networkclient.cpp:266-293 | Being exact determines dispatched packets and buffer completely. |
| PacketStream.SmallReadsFit | client/src/backend/networkclient.cpp:295-309 | Reads no larger than 10 MiB less the largest packet always meet the condition. |
| PacketStream.LargePacketIsLost | client/src/backend/networkclient.cpp:303-309 | An acceptable packet above 10 MiB, read in two parts the first of which is above 10 MiB, is not delivered intact. |
| PacketStream.LargestPacketCanBeLost | client/src/backend/networkclient.cpp:258-268 | A concrete packet within both size limits for which this happens. |
| Resynchronisation.GarbageThenStreamIff | client/src/backend/networkclient.cpp:222-236 | Garbage and a whole stream in any chunks: all packets are delivered if and only if no read that drops garbage ends inside the first cookie and no later read leaves more than 10 MiB behind; a condition on lengths alone. |
| Resynchronisation.GarbageCutIff | client/src/backend/networkclient.cpp:222-236 | In two reads of at most 10 MiB in all: if and only if the cut does not go through the first cookie, or lies in the first three bytes. |
| Resynchronisation.GarbageCutLoses | client/src/backend/networkclient.cpp:226-229 | One garbage byte and a packet, cut after four bytes, lose the packet. |
| Resynchronisation.ReconnectedIff | client/src/backend/networkclient.cpp:86-120 | The buffer outlives a lost connection: exactly when all packets of the next connection get through behind a part of an unfinished packet, for every length of that part and every chunking. |
| Resynchronisation.WholeHeaderNeverPasses | client/src/backend/networkclient.cpp:238-268 | Behind a leftover with a whole header of a packet up to 10 MiB that condition never holds. |
| Transport.Session.EnqueueCameraPacket | server/src/client_handler.cpp:32-42 | The prepared packet of these arguments goes to the end of the queue exactly if fewer than 6 packets wait; nothing else changes. |
| Transport.Session.EnqueueJsonPacket | server/src/client_handler.cpp:44-52 | The prepared packet of camera 0 with this JSON goes to the end of the queue exactly if fewer than 10 packets wait; nothing else changes. |
| Transport.Session.WriterTurn | server/src/client_handler.cpp:81-110 | Each action of the writer thread is an enabled step of the system: pop, write, finish, error, exit; it only waits while connected with nothing queued or a full socket. |
| Transport.Session.WriteSome | server/src/client_handler.cpp:92-105 | A write puts the next bytes of the packet on the wire, as many as the connection takes; the thread ends and the connected flag drops exactly on an error of the connection. |
| Transport.Session.LoseConnection | server/src/client_handler.cpp:68-77 | A failed read only clears the connected flag. |
| Transport.StepKeeps | server/src/client_handler.cpp:32-110 | Every step of producers, writer and reader keeps the order, wire and queue invariant. |
| Transport.AcceptedAreAdmitted | server/src/client_handler.cpp:32-52 | Over any run the accepted packets are, in order, those of exactly the enqueue steps at which fewer than 6 (camera) or 10 (JSON) packets waited, both read off the steps. |
| Transport.LostStaysLost | server/src/client_handler.cpp:84-93 | Once the connection is lost nothing more goes on the wire. |
| Transport.ServerEveryRun | server/src/client_handler.cpp:13-110 | In every interleaving of producers, partial writes and connection loss, for any packets and whatever the client does: accepted = written ++ aborted ++ in flight ++ queued, nothing is aborted while connected, the wire is whole packets and part of the next; the queue holds at most 10 packets and a camera packet has at most 5 ahead of it. |
| Transport.EndToEnd | server/src/client_handler.cpp:13-110 | In every interleaving of those with client reads: accepted are the packets enqueued while there was room, order and wire hold, and, for packets within the limits, the client has exactly the accepted packets that arrived, in order, if and only if no read left more than 10 MiB behind. |
| Transport.SmallReadsEndToEnd | client/src/backend/networkclient.cpp:295-309 | With reads no larger than 10 MiB less the largest accepted packet the client is always exact. |
| CommandLines.TakeText | server/src/client_handler.cpp:60-67 | Text up to the first NUL is appended; the buffer keeps what follows the last newline, and the non-empty lines other than a lone carriage return are handed out in order. |
| CommandLines.ReaderThread | server/src/client_handler.cpp:54-79 | For any series of reads, retries and a failure, the handled commands are the newline-terminated lines of the whole text, in order; the leftover has no newline; the flag drops exactly on a failure. |
| CommandLines.LinesSplit | server/src/client_handler.cpp:62-67 | The lines found, each with its newline, and the leftover spell out the text, and none of them contains a newline. |
| CommandLines.SplitIsUnique | server/src/client_handler.cpp:62-67 | There is only one such split. |
| CommandLines.NulFreeTextIff | server/src/client_handler.cpp:57-61 | The text handled is the text received exactly if no NUL was received. |
| CommandLines.TextOfReads | server/src/client_handler.cpp:57-61 | A read counts up to its first NUL, a retry counts nothing, and nothing counts after a failure. |
| CommandLines.CommandsAreLines | server/src/client_handler.cpp:66 | Every line is handled as often as it comes, except empty lines and lone carriage returns, which never are. |
| CommandLines.OneMoreLine | server/src/client_handler.cpp:66 | A further line adds itself at the end of the handled ones, or nothing. |
| MetadataParser.Parser.ProcessPacket | server/src/parser.cpp:102-106 | The buffer is the incremental scan of all packets; results handed out and waiting are those of all streams of the run, in order, none twice; an empty packet changes nothing. |
| MetadataParser.Parser.ProcessBuffer | server/src/parser.cpp:108-128 | All complete elements are cut out and parsed with this packet's pts; a leftover above 512 KiB is dropped. |
| MetadataParser.Parser.CutElements | server/src/parser.cpp:113-125 | The search loop takes exactly the elements of the split of the buffer, with this pts, and leaves its leftover. |
| MetadataParser.Parser.CutElement | server/src/parser.cpp:114-125 | One turn of the loop. |
| MetadataParser.Parser.ProcessCompletedStreams | server/src/parser.cpp:130-150 | Results grow by the parsed streams that hold objects, in order; the list is emptied. |
| MetadataParser.ResultOfStream | server/src/parser.cpp:130-150 | A stream yields one result with its pts and objects exactly if it parses and holds objects; results keep their order. |
| MetadataParser.Parser.GetCompletedResults | server/src/parser.cpp:152-156 | The waiting results are handed out once. |
| MetadataParser.ScannedAreElements | server/src/parser.cpp:113-121 | The text is stretches without an open tag, each followed by an element that starts with the open tag and ends with the first close tag in it, and a leftover in which no close tag stands at or behind an open tag. |
| MetadataParser.SplitIsScanned | server/src/parser.cpp:113-121 | Any such split of a text has the elements and the leftover found. |
| MetadataParser.SplitIsUnique | server/src/parser.cpp:113-121 | There is only one such split. |
| MetadataParser.RunSplitsText | server/src/parser.cpp:102-128 | Streams and leftover of a whole run are those of the split of all its text, as long as the leftover never passes 512 KiB. |
| MetadataParser.IncrementalIsBatchIff | server/src/parser.cpp:102-163 | Elements and leftover equal those of one pass over the whole text, at every point of a run, if and only if the leftover never passes 512 KiB. |
| MetadataParser.PtsOfCompletingPacket | server/src/parser.cpp:113-125 | Then each element carries the pts of the packet that completed it, and earlier elements never change. |
| MetadataParser.PtsOfElement | server/src/parser.cpp:113-125 | Each element carries the pts of the packet before which one pass over the text does not find it and after which it does. |
| MetadataParser.LongElementIsLost | server/src/parser.cpp:158-163 | An element too long for the buffer, in two packets: one pass finds it, the parser does not. |
| UartFrame.CalcCrc | drivers/src/communication.cpp:53-58 | The loop computes command xor length xor all data bytes xor ETX. |
| UartFrame.ReadPacket | drivers/src/communication.cpp:145-188 | Byte-by-byte reading yields the frame and consumes the bytes the parse of the incoming stream says, also when the stream ends early. |
| UartFrame.PushFrame | drivers/src/communication.cpp:295-302 | The byte-by-byte builder yields the canonical encoding for every payload of 0 to 255 bytes. |
| UartFrame.FrameLayout | drivers/src/communication.cpp:295-302 | The fields of a frame; all its bytes behind the STX cancel each other out under XOR. |
| UartFrame.FrameExample | drivers/src/communication.cpp:295-302 | A frame byte by byte. |
| UartFrame.PlayWav | drivers/src/communication.cpp:291-307 | The frame written, or nothing for a name above 255 bytes. |
| UartFrame.DisplayControl | drivers/src/communication.cpp:392-408 | The frame written, or nothing for an empty action or one above 255 bytes. |
| UartFrame.BulkCongestion | drivers/src/communication.cpp:365-390 | One byte per level for 1 to 8 levels, each truncated; otherwise nothing. |
| UartFrame.LowByteKeeps | drivers/src/communication.cpp:365-390 | A level that fits a byte is sent as it is. |
| UartFrame.ReadsEncodedFrame | drivers/src/communication.cpp:145-188 | Garbage without an STX followed by an encoded frame is read as that frame, and the read stops right behind it. |
| UartFrame.ReadsEveryFrame | drivers/src/communication.cpp:145-188 | A stream of frames with such garbage between them is read back one frame per call, for any number of frames. |
| UartFrame.AcceptsOnlyEncodings | drivers/src/communication.cpp:145-188 | An accepted read returned a canonical encoding, and only bytes free of STX were skipped before it. |
| UartFrame.OneByteCorruptionIsRejected | drivers/src/communication.cpp:165-179 | Changing any one command, data, checksum or ETX byte of a frame makes its read fail, for every payload. |
| UartFrame.LengthCorruptionPassesIff | drivers/src/communication.cpp:158-179 | For any frame, new length byte and following bytes: the read returns a frame if and only if an ETX and a matching checksum stand where the new length puts them, and then which frame and where it stops. |
| UartFrame.ShorterLengthPassesIff | drivers/src/communication.cpp:158-179 | For a length that ends inside the payload this is a condition on the payload and its checksum alone. |
| UartFrame.LengthCorruptionCanPass | drivers/src/communication.cpp:158-179 | A frame that is still accepted, as a shorter one, with its length byte changed. |
| UartFrame.StxCorruptionSkipsFrame | drivers/src/communication.cpp:150-154 | A frame with its STX changed is skipped up to the first STX inside it, or whole, and the read goes on from there. |
| AudioStream.MicStreamer.OnAudioReadyRead | client/src/backend/util/micstreamer/micstreamer.cpp:127-167 | The residue is the captured bytes behind the frames attempted, below 1920 unless a write failed; the loop stops at the first failed write; the wire holds exactly the frames whose write succeeded. |
| AudioStream.MicStreamer.SendFrame | client/src/backend/util/micstreamer/micstreamer.cpp:143-163 | One frame leaves the buffer and uses one number, whether or not its write succeeds. |
| AudioStream.SentOneMore | client/src/backend/util/micstreamer/micstreamer.cpp:143-163 | A write adds its frame to the wire, or nothing if it fails, whatever was written before. |
| AudioStream.WireExample | client/src/backend/util/micstreamer/micstreamer.cpp:146-156 | A header byte by byte: sync word, size and number, little-endian. |
| AudioStream.Connection.RecvExact | drivers/src/main.cpp:58-78 | However the receives are split: unless one fails, the next bytes, all of them, or 0 exactly if the stream is too short; -1 exactly if a receive fails. |
| AudioStream.HandleAudioStreamClient | drivers/src/main.cpp:183-244 | However the receives are split, unless a receive, the file or the SPI transfer fails, all frames at the front of the stream are forwarded and the file holds their payloads; after a failure what was forwarded is a prefix of them. |
| AudioStream.FirstFrameIff | drivers/src/main.cpp:202-216 | In bytes: when a frame is found at the front, its number and payload, and that reading goes on behind it. |
| AudioStream.CutConnection | drivers/src/main.cpp:187-223 | A stream of frames cut after any number of bytes yields exactly the frames that arrived whole. |
| AudioStream.AudioEndToEnd | client/src/backend/util/micstreamer/micstreamer.cpp:141-164 | For any capture, any write failures and a connection cut anywhere, the receiver finds exactly the successfully written frames that arrived whole, in order, each the captured frame its number names. |
| AudioStream.CleanAudioEndToEnd | client/src/backend/util/micstreamer/micstreamer.cpp:141-164 | Without failures the payloads are the longest multiple-of-1920 prefix of the capture, numbered 0, 1, 2, ... modulo 2^32. |
| Recording.EveryRunOfACamera | client/src/backend/recordingmanager.cpp:66-299 | In every run: a held process implies recording and not calibrating; frames counted plus buffered are the frames received while recording; the buffer holds at most 64 frames and none outside calibration; a pending auto-start is queued exactly once; no frame after calibration is number 1. |
| Recording.EveryRunOfAProcess | client/src/backend/recordingmanager.cpp:66-193 | In every run: no process is lost or overwritten; its input is closed at most once with the session's frame count; it got the delivered session frames in arrival order, all of them if it kept running. |
| Recording.RecordedFrameWrites | client/src/backend/recordingmanager.cpp:289-291 | A frame of a running session is written to the process held, and to no other, exactly if ffmpeg is running. |
| Recording.LaunchWrites | client/src/backend/recordingmanager.cpp:265-279 | The launching frame starts a process that gets exactly those of the 65 buffered frames at which ffmpeg is running. |
| Recording.LaunchedSessionWrites | client/src/backend/recordingmanager.cpp:225-291 | In every run that goes on from calibration through the launch: written are the flushed and the later frames at which ffmpeg was running, in order. |
| Recording.RunningProcessGetsAll | client/src/backend/recordingmanager.cpp:225-291 | If ffmpeg is running at every write, that is every frame of the session. |
| Recording.SelectedAppend | client/src/backend/recordingmanager.cpp:274-276 | Selecting the frames written goes frame by frame. |
| Recording.OneRollPerSession | client/src/backend/recordingmanager.cpp:254-261 | However many frames come overdue, a session queues one segment roll, and none if no frame does. |
| Recording.RunKeeps | client/src/backend/recordingmanager.cpp:109-430 | The invariant behind both holds after any run of frames, user calls, deferred tasks and shutdowns. |
| Recording.ClosedIffSessionEnds | client/src/backend/recordingmanager.cpp:140-193 | A step closes the input of an open process if and only if it is the stop, the segment roll, or the shutdown of its camera. |
| Recording.ManualStopHoldsIff | client/src/backend/recordingmanager.cpp:211-222 | After a manual stop a camera stays off in every run without an explicit start if and only if no automatic start was queued when it was stopped. |
| Recording.ManualStopCanFail | client/src/backend/recordingmanager.cpp:211-222 | A run from the start after which a manual stop does not hold. |
| Recording.SessionBeginsIff | client/src/backend/recordingmanager.cpp:109-138 | A camera that is not recording starts a session, calibrating anew, exactly by a start by hand or from the queue that finds ffmpeg. |
| Recording.StartRevokesManualStop | client/src/backend/recordingmanager.cpp:109-120 | A start by hand takes back a manual stop even if it finds no ffmpeg. |
| Recording.CalibrationCompletes | client/src/backend/recordingmanager.cpp:224-287 | In every run that does not end the session, whatever else happens in it: the frames of the camera collect until the 65th completes the calibration; a process is held from then on exactly if ffmpeg was found and started at that frame, and its session is the buffered frames and all that followed. |
| Recording.WillingCameraRestarts | client/src/backend/recordingmanager.cpp:211-222 | A camera not stopped by hand records again, whatever happens before its next frame, once the automatic start queued for that frame runs and finds ffmpeg, or earlier. |
| Recording.RolledCameraRestarts | client/src/backend/recordingmanager.cpp:340-379 | So does a camera after a segment roll, which leaves it off. |
| Recording.StuckStepIff | client/src/backend/recordingmanager.cpp:340-379 | A step leaves a camera calibrating without recording exactly if it runs a roll while the camera calibrates, or it was so before and the step is no start that finds ffmpeg. |
| Recording.CalibratingNotRecordingIff | client/src/backend/recordingmanager.cpp:254-261 | After any run a camera is calibrating without recording exactly if such a stale roll was run and no start that found ffmpeg since. |
| Recording.StaleRollHappens | client/src/backend/recordingmanager.cpp:254-261 | Such a run from the initial state. |
| Recording.ShutdownStops | client/src/backend/recordingmanager.cpp:381-430 | After shutdown cameras 1 to 4 neither record nor hold a process, and those that recorded do not calibrate; it counts as no manual stop; any other camera is as before. |
| RecordingManagers.RecordingManager.StartRecording | client/src/backend/recordingmanager.cpp:109-138 | The method takes exactly the start step of the state machine and keeps its invariant. |
| RecordingManagers.RecordingManager.StopRecording | client/src/backend/recordingmanager.cpp:140-193 | The same for a manual stop, in and out of calibration. |
| RecordingManagers.RecordingManager.OnFrameReceived | client/src/backend/recordingmanager.cpp:199-299 | The same for a frame: idle, buffered, launching or recorded; and what the process gets: the frame exactly if ffmpeg is running, or at the launch the buffered frames at which it is. |
| RecordingManagers.RecordingManager.CalibrationFrame | client/src/backend/recordingmanager.cpp:225-286 | Buffering, and the launch with the flush of all 65 frames. |
| RecordingManagers.RecordingManager.SessionFrame | client/src/backend/recordingmanager.cpp:248-298 | Counting, writing and queueing a roll; the thumbnail branch cannot be reached. |
| RecordingManagers.RecordingManager.WriteFrames | client/src/backend/recordingmanager.cpp:274-278 | The loop writes each frame at which ffmpeg is running and offers all of them. |
| RecordingManagers.RecordingManager.RunQueuedTask | client/src/backend/recordingmanager.cpp:215-219 | The oldest deferred call runs as the task step says, a start or a roll. |
| RecordingManagers.RecordingManager.ShutdownAll | client/src/backend/recordingmanager.cpp:381-430 | The loop over cameras 1 to 4 takes exactly the shutdown step. |
| MotorMode.Server.HandleDeviceCommand | server/src/command_handler.cpp:16-60 | Mode flag, motor, audio and display topics after any device command; outside mode commands nothing is forwarded in automatic mode. |
| MotorMode.Device.HandleMqttCommand | drivers/src/motor.cpp:110-133 | Mode flag, motor writes and refusals after any message. |
| MotorMode.Device.AutoMotorControl | drivers/src/motor.cpp:59-72 | A reading sets the motor to 100, 60 or 0 by its thresholds in automatic mode and does nothing in manual mode. |
| MotorMode.MessageTakesEffect | server/src/command_handler.cpp:22-48 | A device that gets a command's message does what the command asks, whatever mode the server was in, and refuses exactly a motor command that finds it in automatic mode. |
| MotorMode.UnknownMessageIgnored | drivers/src/motor.cpp:110-133 | A message of another kind or action changes nothing. |
| MotorMode.ReadingSetsSpeed | drivers/src/motor.cpp:59-72 | In every run a reading sets the speed by its thresholds exactly in automatic mode, and changes no mode. |
| MotorMode.EveryRun | drivers/src/motor.cpp:59-133 | In every interleaving of commands, deliveries and readings, with commands lost at any time: the server is in the mode last commanded; after the messages under way the device does what the commands sent ask for, and has refused exactly the motor commands sent after a lost switch to manual; in manual mode its last motor write is never sensor-driven. |
| MotorMode.LossesHealIff | server/src/motor.cpp:51-82 | After any losses both sides are in one mode exactly if the last mode command handled while connected names the mode last commanded; the device does what was asked exactly if the commands sent ask for the same as all commands; nothing is refused exactly if no motor command is sent to a device last sent to automatic mode. |
| MotorMode.ModeCommandRepairs | server/src/motor.cpp:68-82 | After any losses, from the first mode command that gets through on, and as long as nothing is lost, the device does what all commands ask for, in the server's mode; with nothing ever lost, no forwarded motor command is refused. |
| MotorMode.LostStartShows | server/src/motor.cpp:51-55 | A lost motor command: one mode, but the motor does not run as asked. |
| MotorMode.LostSwitchShows | server/src/motor.cpp:68-72 | A lost switch to manual: the next motor command is refused. |
| Crc8.Sht20Crc8 | drivers/src/sht20_driver.c:19-32 | The nested loops compute the CRC of the message. |
| Crc8.ReadSht20Data | drivers/src/sht20_driver.c:50-55 | A reading is converted, status bits masked, exactly if its checksum is right. |
| Crc8.CrcIsLinear | drivers/src/sht20_driver.c:19-32 | The CRC of the XOR of two messages of one length is the XOR of their CRCs. |
| Crc8.ZeroMeansCodeword | drivers/src/sht20_driver.c:19-32 | A message extended by one byte has CRC 0 if and only if that byte is its CRC. |
| Crc8.KnownChecksums | drivers/src/sht20_driver.c:19-32 | The checksums of known messages: the generator is x^8 + x^5 + x^4 + 1. |
| Crc8.OneByteChangeShows | drivers/src/sht20_driver.c:19-32 | Messages of any length that differ in exactly one byte have different CRCs. |
| Crc8.CorruptedReadingIsRejected | drivers/src/sht20_driver.c:47-52 | A valid reading with any one of its three bytes changed is rejected. |
| FrameCopy.CopyPlane | server/src/pi_node.cpp:134-149 | A row loop puts the plane without padding at its place and writes nothing else. |
| FrameCopy.PackFrame | server/src/pi_node.cpp:119-149 | The buffer is exactly the Y, U and V rows one after the other, for all sizes and line sizes of at least the row width. |
| FrameCopy.PackedAt | server/src/pi_node.cpp:134-149 | Sample (i, j) of a plane is at position i * width + j of its packed form. |
| FrameCopy.PackedPosition | server/src/pi_node.cpp:134-149 | Every position of the packed form is that of a sample within the picture. |
| FrameCopy.PositionIsUnique | server/src/pi_node.cpp:134-149 | No two samples share a position. |
| FrameCopy.FlatFrame | server/src/hanwha_node.cpp:61-69 | Three flat copies yield the leading bytes of each plane. |
| FrameCopy.UnpaddedFramesAgree | server/src/hanwha_node.cpp:61-69 | With unpadded lines row loops and flat copies give the same buffer. |
| SubwayOverride.ParseBestUpTrain | drivers/src/display.cpp:94-133 | A train is found exactly if an eligible row exists, and it is the first among those with the least time. |
| SubwayOverride.RunOverrideLoop | drivers/src/display.cpp:161-220 | For any series of polls the loop sends the commands of the trace, and they alternate. |
| SubwayOverride.CommandsAlternate | drivers/src/display.cpp:168-206 | Commands are destination, event screen, base screen, over and over, starting with a destination; the loop is active exactly while the event screen shows, and then not armed. |
| SubwayOverride.PollSends | drivers/src/display.cpp:168-197 | All that a poll sends: the base screen, then the destination of its train and the event screen. |
| SubwayOverride.FirstEventIff | drivers/src/display.cpp:187-197 | The first event comes at the first poll that sees the train arrived. |
| SubwayOverride.NextEventIff | drivers/src/display.cpp:187-205 | The next one comes at the first poll that sees it arrived after one that saw it approaching with the hold time over. |
| SubwayOverride.BaseScreenComesOnTime | drivers/src/display.cpp:170-176 | After an event the base screen comes exactly at the first poll that starts when the hold time is over. |
| SubwayOverride.RearmedBetweenEvents | drivers/src/display.cpp:187-203 | Between two events there is a successful poll with positive arrival time while no event shows. |
| SubwayOverride.EventsAreRationed | drivers/src/display.cpp:187-203 | There is at most one event more than there are rearming polls. |
| Congestion.CountRound | server/src/congestion_analyzer.cpp:61-99 | The nested loops count, for each zone id 1 to 8, exactly the matching pairs of object and zone entry. |
| Congestion.CountIsExact | server/src/congestion_analyzer.cpp:72-99 | The running count equals the size of the set of matching (camera, object, zone entry) triples. |
| Congestion.PairsIff | server/src/congestion_analyzer.cpp:31-39 | What is counted, in coordinates: objects of the entry's camera whose centre is within its borders, borders included. |
| Congestion.CongestionAnalyzer.Round | server/src/congestion_analyzer.cpp:61-108 | After a round counts are those numbers, and levels are 0, 1 and 2 for counts of 0, 1 and more. |
| Congestion.DefaultZonesCoverOnceOrTwice | server/includes/config_manager.hpp:39-63 | With the default zones an object of a configured camera centred in the unit square is counted once, or twice exactly if its centre lies between two zones. |
| Congestion.Configuration.UpdateRoi | server/src/command_handler.cpp:62-103 | An invalid update is refused and changes nothing; a valid one edits the first entry of that camera and zone in the file, or adds one, and the analyzer then has the zones of the file; counts and levels stay. |
| Congestion.EditZones | server/src/command_handler.cpp:78-96 | The loop and the pushed entry yield the edited list. |
| Congestion.CongestionAnalyzer.LoadConfig | server/src/congestion_analyzer.cpp:10-29 | The zones become those of the file, none if it has no list. |
| Congestion.LastUpdateWins | server/src/command_handler.cpp:78-96 | An update keeps all other zones, adds an entry only if its zone had none, and is forgotten when the same zone is updated again. |

## Left out

- Sockets, TLS, MQTT, SQL, FFmpeg, OpenCV and Qt signals: ordered channels, abstract results or arbitrary choices; listeners do not call back into the object that notifies them.
- JSON and XML parsing: commands, arrival rows and parsed objects are taken as values; `extractObj` and its coordinate clamping are not modelled.
- Floating point: ROI, object and sensor values are reals; the measured frame rate only goes to the ffmpeg command line.
- Time: deadlines of the UART reads are the end of the incoming bytes; hold times and segment lengths are inputs.
- Data races inside handlers, such as a mode change between the two mode checks of the sensor loop.
- Packets above 2 GiB, whose size the writer thread would convert to a negative int, and pictures whose area exceeds an int.
- RecordingManagers.RecordingManager.OnFrameReceived: the source keeps one map per attribute and camera; the model keeps one map of records. Session directories, timestamps, thumbnails and the files of `meta.json` are left out except for the frame count recorded at each close.
- MotorMode.EveryRun: what is published is delivered exactly once and in order; commands are lost only by not being published.
- Resynchronisation.ReconnectedIff: left out are leftovers that hold a second cookie, where the client searches them: eight to fifteen bytes with the magic word as camera id, and parts of packets above 10 MiB.
- SubwayOverride.RunOverrideLoop: screens outside 0 to 9, which the UART layer would not send, and the mapping from line names to destination codes.
- Sensor value requests, the WAV list splitter, start and stop of the microphone stream, statistics queries, system monitoring, recording lists, setup dialogs and the STM32 firmware.
