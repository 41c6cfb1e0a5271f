# urg_node: the UAM driver's protocol, clocks and life cycle, verified in Dafny

urg_node drives Hokuyo laser scanners. This project models the part of it that talks to
the UAM safety lidar and the part that stamps its scans, and proves what that code keeps
over all inputs and all runs. `dafny verify dfyconfig.toml` checks everything.

| file | models |
|---|---|
| `Polynomial.dfy`, `Crc.dfy` | the frame checksum, against polynomial division over GF(2) |
| `HexField.dfy`, `Protocol.dfy`, `Decoding.dfy` | hexadecimal fields, the layout of the thirteen replies, decoding them in place |
| `Worker.dfy` | validating and decoding one reply, from the structure and from the buffer |
| `PacketWorker.dfy` | the shared buffer, the YR worker and the dispatch to the workers |
| `Framing.dfy` | the TCP client: cutting a stream that arrives in chunks into frames |
| `Commands.dfy`, `Replies.dfy` | printing requests and, for the device, replies |
| `ReplyMatching.dfy` | one command and one reply slot between two threads and the device |
| `ReplyMeaning.dfy` | what the tables amount to, in plain text and plain offsets: codes, sizes, handlers, and every byte of an accepted reply |
| `Lifecycle.dfy` | connecting, configuring, retrying and resetting the lidar |
| `HardwareClock.dfy`, `Latency.dfy` | stamps from a wrapping counter, and calibrating the delay of scans |
| `ScanParameters.dfy`, `ScanAssembly.dfy` | angles and steps, and publishing a scan |
| `ScanChain.dfy` | the whole way of a scan, from the socket to the scan topic |

Bytes are numbers below 256 and a frame is a sequence of them. An object the code updates
is a class whose methods are proved against a function of its state; a loop of the code is
a loop. What arrives from outside (bytes of the socket, readings of a clock, whether a
connection or a service call succeeds) is a parameter. Ghost traces record what callbacks
and publishers were given.

## What holds only under a condition

Where the code does less than its documentation or its design suggests, the model follows
the code, and the exact condition is proved.

- A YR reply shorter than its structure shows its callback bytes of earlier frames
  (`PacketWorker.ShortYrLeaks`); every other frame is isolated from the buffer's past
  (`PacketWorker.FrameIsolation` is an equivalence). The YR worker checks neither size nor
  checksum nor status, so nothing is claimed about damaged YR replies.
- The buffer decoders of AR00 and AR01 do not look at ranges and intensities, so the buffer
  path accepts more than the structure path: by exactly the frames whose readings are not
  all numbers (`Worker.DecodersAgree`; `Replies.BufferAcceptsMore` prints one).
- A YR request states its true length exactly when its values fit the digits they have
  (`Commands.YrCommandLength`).
- Stopping an AR07 subscription sends AR06, whose reply is a scan and never reaches the
  reply slot (`ReplyMatching.StopOfAr07NeverReturns`, `ReplyMatching.StuckRun`). A wait can
  end if and only if a reply that fills the slot is due since the flag was cleared
  (`ReplyMatching.WaitCanEnd`). So a node that loses its configuration in the AR07 mode
  never gets it back, and in any other mode it can at its next retry
  (`Lifecycle.Recovery`, `Lifecycle.StaleAr07NeverRecovers`, `Lifecycle.LostMultiEcho`).
- The late reply to a command can be returned for the next command, after the wait for it has
  timed out (`ReplyMatching.LateReplyMistaken`) or its send has, which is not cancelled and can
  still go out (`ReplyMatching.LateSendMistaken`). When a command is begun, it is certain to get its own
  reply, or none, if and only if no reply to an earlier command that fills the slot is
  outstanding (`ReplyMatching.OwnReplyCertain`). Otherwise it depends on whether its own reply
  is received before the waiting thread runs (`ReplyMatching.ReturnedReply`,
  `ReplyMatching.LateReplyHarmless`).
- `angle2step` is documented to give the closest step. It rounds away from zero;
  `ScanParameters.ClosestStep` says for which angles the step it gives, within the limits, is
  the closest.
- A stamp is later than the one before if and only if the average is not ahead of the new
  offset by a tenth of the counter's increment or more (`HardwareClock.StampLater`); an
  increment rules that out if and only if it is at least 2 ms
  (`HardwareClock.TwoMilliseconds`).
- A reply longer than the profile of the reference safety area (a multi-echo reply has 2161
  readings, a profile 1081) is compared with memory beyond the profile if and only if it has
  a finite reading there (`ScanAssembly.MultiEchoOverreads`); the model marks this as `overread`
  and says nothing more.
- A scan that cannot be got while the latency is measured leaves the measurement started, and
  the next calibration fails (`Latency.URGCWrapper.ComputeLatency`).
- The comment on `calculateCrc` says the bytes of the result are swapped. They are not, and
  the model does not swap them.

Hypotheses: a received size field is at least 11 (below that the length of the second read
underflows, which the model marks as `overrun` and says nothing more about); a command of which
only a part is sent is not answered; a read that
was aborted ends before the next connection is used; callbacks of the ROS thread run one at
a time; floating-point numbers are exact reals and conversions to `int` do not overflow.
A source class with several concerns appears once for each: `UamROS` in `Lifecycle.dfy` and
`ScanAssembly.dfy`, `URGCWrapper` in `HardwareClock.dfy` and `Latency.dfy`.

## Model

| member | source | states |
|---|---|---|
| Polynomial.RemainderUnique | urg_node/include/uam/workers/uam_worker_base.h:55-71 | division by x^16 + x^12 + x^5 + 1 (section 2 of ITU-T V.41) has one remainder, so the reference is well defined |
| Polynomial.ShortMessageHasRemainder | urg_node/include/uam/workers/uam_worker_base.h:55-71 | no non-zero message of at most 16 bits is divisible by the generator |
| Crc.CalculateCrc | urg_node/include/uam/workers/uam_worker_base.h:66-71 | the byte loop over a 256-entry table returns the register of the bit-wise definition |
| Crc.ByteStepIsEightShifts | urg_node/include/uam/workers/uam_worker_base.h:66-71 | one reflected table update is eight single-bit steps, for every register and byte |
| Crc.ChecksumIsRemainder | urg_node/include/uam/workers/uam_worker_base.h:55-71 | a register is the checksum of a buffer if and only if it is the remainder of its bit-reversed bytes by the generator |
| Crc.ChecksumLinear | urg_node/include/uam/workers/uam_worker_base.h:66-71 | the checksum of the exclusive-or of equally long buffers is the exclusive-or of their checksums |
| Crc.ShiftBijective | urg_node/include/uam/workers/uam_worker_base.h:66-71 | the step without input is a bijection of the 16-bit states |
| Crc.BurstDetected | urg_node/include/uam/workers/uam_worker_base.h:66-71 | buffers of one length that differ only within 16 consecutive bits have different checksums |
| Crc.KnownAnswers | urg_node/include/uam/workers/uam_worker_base.h:66-71 | the checksum of the byte 0x80 is 0x8408 and that of 0x01 is 0x1189: the bits are taken least significant first, from an initial value of 0 |
| HexField.FieldParses | urg_node/include/uam/visitor.h:54-79 | from_chars on a field of n digits held in n bytes fails exactly when the first byte is no digit, and takes the longest prefix of digits |
| HexField.HexRoundTrip | urg_node/include/uam/workers/uam_worker_base.h:359-365 | a number printed by toHexString and decoded as a field is the number, and has the asked width exactly when it fits |
| HexField.HostRoundTrip | urg_node/include/uam/visitor.h:74-79 | a number written over its field is read back by the host |
| HexField.FieldDigits | urg_node/include/uam/visitor.h:54-79 | one more digit multiplies the number of a field by 16 and adds itself, and whatever follows a byte that is no digit is ignored |
| HexField.OnlyDigits | urg_node/include/uam/visitor.h:54-79 | the digits are 0 to 9, A to F and a to f, and nothing else |
| Decoding.DecodeField | urg_node/include/uam/visitor.h:122-138 | decoding one field overwrites exactly its bytes with its adjusted number, or fails and changes nothing |
| Decoding.DecodeFields | urg_node/include/uam/workers/uam_worker_base.h:500-509 | decoding fields in place stops at the first without a number, as the specification of a run of decodings does |
| Decoding.DecodeRunMeaning | urg_node/include/uam/workers/uam_worker_base.h:564-617 | decoding separated fields in place equals reading each from the undecoded bytes: it succeeds if and only if all are numbers, and then stores all of them, area + 1 and non-zero error code + 0x40 included |
| Decoding.DecodeRunFrame | urg_node/include/uam/visitor.h:122-138 | bytes outside the decoded fields keep their value |
| Decoding.ReplyLayout | urg_node/include/uam/protocol_types/uam_protocol_types.h:230-345 | the decoded fields of every reply lie inside it and do not overlap |
| Worker.Process | urg_node/include/uam/workers/uam_worker_base.h:221-276 | the structure path does what its specification says, decoding a copy in place; ReplyMeaning.ScanAccepted, StatusMeaning and PlainMeaning say in plain offsets when that succeeds, and ScanMeaning what it then holds |
| Worker.AcceptedReplies | urg_node/include/uam/workers/uam_worker_base.h:221-276 | a reply is accepted if and only if its size field is its length, its status 0, its checksum field the checksum of the covered bytes and all data fields are numbers; the decoded reply stores all of them |
| Worker.BurstRejected | urg_node/include/uam/workers/uam_worker_base.h:221-276 | for every validating worker and burst position, damage of an accepted reply within 16 consecutive bits of the covered bytes gives a reply it rejects |
| Worker.BufferAccepts | urg_node/include/uam/workers/uam_worker_base.h:170-213 | the buffer path accepts exactly on size, status, checksum and sensing data, whatever uninitialised locals hold |
| Worker.SameFields | urg_node/src/uam/workers/sensing_data/ar01_worker.cpp:67-80 | the decoded structure holds, field by field, the adjusted number that the raw reply spells |
| Worker.DecodersAgree | urg_node/src/uam/workers/sensing_data/ar00_worker.cpp:52-75 | for AR00 and AR01 frames of the right size, the structure path accepts if and only if the buffer path does and the readings are numbers, and then size, status, checksum and all sensing data are equal |
| PacketWorker.ShapeShifterPacket.Set | urg_node/include/uam/shape_shifter_packet.h:121-130 | set overwrites the first bytes of the buffer, keeps the rest, and get then returns the message |
| PacketWorker.YrMeaning | urg_node/include/uam/workers/yr_worker.h:135-142 | the YR worker converts each header field that is a number and leaves the others, and converts distances up to the first that is no number |
| PacketWorker.RouteMeaning | urg_node/src/uam/workers/uam_command_worker.cpp:41-123 | a packet goes to a worker if and only if its code, and for subscription codes its size, is that worker's: the order of the branches does not matter |
| PacketWorker.UamPacketWorker.ProcessByHandler | urg_node/src/uam/workers/uam_command_worker.cpp:41-123 | one packet runs at most one handler, the one of the worker it is routed to, on the decoded reply |
| PacketWorker.FrameIsolation | urg_node/src/uam/workers/uam_command_worker.cpp:41-123 | which handler runs and on what depends only on the current frame if and only if the frame is not a YR reply shorter than its structure |
| PacketWorker.ShortYrLeaks | urg_node/include/uam/workers/yr_worker.h:135-142 | such a YR reply is handled differently for different bytes left behind in the buffer |
| Framing.CutMore | urg_node/src/uam/io/tcp_client.cpp:237-300 | cutting a stream as it arrives, each part behind what was left of the last, is cutting it as a whole |
| Framing.Conservation | urg_node/src/uam/io/tcp_client.cpp:237-300 | frames, dropped 11-byte headers and the partial frame add up to the stream, and every frame has its stated size |
| Framing.CutFrames | urg_node/src/uam/io/tcp_client.cpp:237-300 | a concatenation of known frames of 11 to 8703 bytes is cut into exactly those frames |
| Framing.CutAmongJunk | urg_node/src/uam/io/tcp_client.cpp:237-300 | of frames and stretches of eleven bytes that start no frame, in any order, exactly the frames are delivered |
| Framing.TcpClient.AsyncReadData | urg_node/src/uam/io/tcp_client.cpp:186-206 | a connected client waits for a header, a disconnected one stops |
| Framing.TcpClient.StartAsyncReadTask | urg_node/include/uam/io/tcp_client.h:146-163 | reading starts only when connected, and only once |
| Framing.TcpClient.OnError | urg_node/src/uam/io/tcp_client.cpp:237-249 | a failed or aborted read delivers nothing and gives up its partial frame |
| Framing.TcpClient.Disconnect | urg_node/src/uam/io/tcp_client.cpp:87-108 | a disconnected client is stopped |
| Framing.TcpClient.Connect | urg_node/src/uam/io/tcp_client.cpp:110-184 | connecting succeeds exactly when socket and option do, and leaves a stopped client without a read |
| Framing.TcpClient.HandleReceive | urg_node/src/uam/io/tcp_client.cpp:237-300 | a known header with a size of 11 to 8703 starts the read of the rest, any other a new header; ReplyMeaning.GoodHeaders says which headers these are |
| Framing.TcpClient.HandlePacket | urg_node/src/uam/io/tcp_client.cpp:208-235 | a complete frame is delivered once and the next header is awaited |
| Framing.TcpClient.RunHandlers | urg_node/src/uam/io/tcp_client.cpp:208-300 | the handler that a completed read runs keeps buffer, read and deliveries in step with cutting what has arrived |
| Framing.TcpClient.Receive | urg_node/src/uam/io/tcp_client.cpp:186-300 | a chunk of any size leaves the client as if it had cut the whole stream so far |
| Framing.TcpClient.ReceiveAll | urg_node/src/uam/io/tcp_client.cpp:186-300 | so does any number of chunks |
| Framing.CallsFollowFrames | urg_node/include/uam/uam_driver.h:277-281 | the handlers run on the delivered packets are those of the frames taken one by one |
| Framing.ReceiveFrames | urg_node/src/uam/io/tcp_client.cpp:186-300 | known frames, however chunked and after whatever earlier connections, are delivered in order and byte for byte, and, unless one is a short YR reply, run exactly their own handlers |
| Commands.CommandRoundTrip | urg_node/include/uam/workers/uam_worker_base.h:337-386 | every fixed request is 14 bytes, as its size field says, carries its code and is closed by the checksum of bytes 1 to length - 6 |
| Commands.YrCommandLength | urg_node/include/uam/workers/yr_worker.h:108-127 | a YR request is always sealed by its checksum, and its size field is its length if and only if type and area are below 256 and the steps below 65536 |
| Commands.YrCommandRoundTrip | urg_node/include/uam/workers/yr_worker.h:184-217 | the fields of a YR request that fits decode to the request |
| Commands.SafetyAreaRequests | urg_node/src/uam/uam_driver.cpp:247-267 | all requests for safety areas fit their digits and no two of them are printed alike |
| Commands.SafetyAreaBytes | urg_node/src/uam/uam_driver.cpp:247-267 | the bytes that ask for an area: the type as it is, area and steps less one except that 0 stays 0, a resolution of 1, length and checksum |
| ReplyMatching.PendingCommand.ProcessCommandReply | urg_node/include/uam/uam_driver.h:178-186 | a reply overwrites the front of the slot, keeps the rest, and raises the flag |
| ReplyMatching.PendingCommand.TakeReply | urg_node/include/uam/uam_driver.h:155-163 | the wait ends with the front of the slot, as long as the command's reply, exactly when the flag is up |
| ReplyMatching.ReplyOutcome | urg_node/src/uam/uam_driver.cpp:51-72 | a valid reply runs the handler of its own kind on its own decoding |
| ReplyMatching.ScanOutcome | urg_node/src/uam/workers/uam_command_worker.cpp:55-76 | a scan runs no handler that fills the slot |
| ReplyMatching.CodeKept | urg_node/src/uam/workers/uam_command_worker.cpp:41-123 | decoding a valid reply keeps the code that routed it |
| ReplyMatching.StepKeepsInv | urg_node/include/uam/uam_driver.h:134-186 | every step of sender, receiver and device, with waits and sends that time out and sends that fail or go out late, keeps: replies arrive in order; the slot begins with the decoding of the last one received that fills it; the flag is up exactly if one has come since it was cleared |
| ReplyMatching.ReturnedReply | urg_node/include/uam/uam_driver.h:134-186 | in every run, a value returned to a command comes from a reply received since the flag was cleared, and from the command's own if and only if that had been received; then it is its decoding |
| ReplyMatching.OwnReply | urg_node/include/uam/uam_driver.h:134-186 | if no reply that fills the slot was outstanding when the flag was cleared, the value is the decoding of the command's own reply, whatever happened before |
| ReplyMatching.RepliesMatch | urg_node/include/uam/uam_driver.h:134-186 | in every run in which no wait and no send has timed out, every value returned to a command is the decoding of the device's reply to that command, whatever scans come in between; ReplyMeaning.RaisesFlag says from the bytes of a frame whether it is such a scan |
| ReplyMatching.WaitAnswered | urg_node/include/uam/uam_driver.h:155-163 | when everything is answered and received, the flag is up if and only if a reply that fills the slot has come since it was cleared, and a command whose reply does so returns its decoding |
| ReplyMatching.InTimeWaitAnswered | urg_node/include/uam/uam_driver.h:155-163 | without a time-out, then, the wait is over if and only if the command's reply is not a scan |
| ReplyMatching.WaitCanEnd | urg_node/include/uam/uam_driver.h:155-163 | in every run, a wait can end with a value if and only if a reply that fills the slot is due since the flag was cleared |
| ReplyMatching.OwnReplyCertain | urg_node/include/uam/uam_driver.h:142-158 | before a command is begun, no continuation of the run returns another command's reply to it if and only if no reply to an earlier command that fills the slot is outstanding |
| ReplyMatching.OwnReplyPossible | urg_node/include/uam/uam_driver.h:134-186 | every wait for a reply that is not a scan can end with that reply, whatever is outstanding |
| ReplyMatching.NormalRun | urg_node/include/uam/uam_driver.h:134-186 | for every command not answered by a scan, a run without a time-out that returns its reply |
| ReplyMatching.ScanWaitNeverEnds | urg_node/src/uam/uam_driver.cpp:51-72 | a command answered by a scan never returns unless an earlier reply was outstanding |
| ReplyMatching.StopOfAr07NeverReturns | urg_node/src/uam/uam_driver.cpp:236-240 | in every run without a time-out the wait for the reply to AR06 is never satisfied |
| ReplyMatching.StuckRun | urg_node/src/uam/uam_driver.cpp:236-240 | a run in which AR06 has been validly answered and everything received, and the wait goes on |
| Replies.PrintedAccepted | urg_node/include/uam/workers/uam_worker_base.h:221-276 | a printed reply of any kind with any data is accepted if and only if its status is 0 and its data fields are numbers |
| Replies.NullReplyAccepted | urg_node/include/uam/workers/uam_worker_base.h:221-276 | every command has a valid reply |
| Replies.BufferAcceptsMore | urg_node/src/uam/workers/sensing_data/ar00_worker.cpp:52-75 | a frame that the buffer path accepts and the structure path does not |
| ReplyMatching.LateReplyMistaken | urg_node/include/uam/uam_driver.h:155-163 | a run in which the late reply to a command whose wait has timed out is returned for the next one, and differs from every valid reply to it |
| ReplyMatching.LateSendMistaken | urg_node/include/uam/io/tcp_client.h:124-139 | a run in which the same happens after a send that has timed out and goes out all the same |
| ReplyMatching.LateReplyHarmless | urg_node/include/uam/uam_driver.h:155-163 | a run with the same two commands in which the next one gets its own reply all the same |
| ReplyMeaning.KnownHeaders | urg_node/include/uam/uam_driver.h:289-292 | the filter passes a header if and only if its letters are the first two of some reply: AR, VR, XR, YR or ID |
| ReplyMeaning.GoodHeaders | urg_node/src/uam/io/tcp_client.cpp:251-275 | a header starts the read of a frame if and only if its letters are known and its size digits spell at most 8703 |
| ReplyMeaning.Sizes | urg_node/include/uam/protocol_types/uam_protocol_types.h:230-345 | the length of every reply in bytes |
| ReplyMeaning.CommandBytes | urg_node/include/uam/workers/uam_worker_base.h:337-386 | the fourteen bytes of a fixed request: STX, 000E, the four letters of the code, the checksum of bytes 1 to 8, ETX |
| ReplyMeaning.ReceiveReplies | urg_node/src/uam/io/tcp_client.cpp:186-300 | valid replies of any of the thirteen kinds, in whatever chunks, are all delivered in order, and each runs its own handler on its own decoding |
| ReplyMeaning.RoutedTo | urg_node/src/uam/workers/uam_command_worker.cpp:55-120 | a frame goes to the worker that its four letters and its length name, AR02, AR04 and AR07 of 4379, 8703 and 8699 bytes to the scan workers |
| ReplyMeaning.Handled | urg_node/src/uam/workers/uam_command_worker.cpp:41-123 | that worker's handler runs, on the decoded reply, if and only if the frame has the length of its reply and is accepted |
| ReplyMeaning.Unhandled | urg_node/src/uam/workers/uam_command_worker.cpp:117-122 | a frame that names no worker runs no handler |
| ReplyMeaning.RaisesFlag | urg_node/src/uam/uam_driver.cpp:51-72 | a frame that runs a handler fills the reply slot if and only if its letters are not AR00, AR01 or AR06, nor AR02, AR04 or AR07 at the length of their scans |
| ReplyMeaning.ScanAccepted | urg_node/include/uam/workers/uam_worker_base.h:221-276 | a scan is accepted if and only if its size digits spell its length, its status digits 0, its checksum digits the checksum of bytes 1 to length - 6, and every field at its offset starts with a digit |
| ReplyMeaning.ScanMeaning | urg_node/include/uam/workers/uam_worker_base.h:564-617 | by offsets, an accepted scan holds the area spelled at 12 plus one, an error code of 0 if 0 is spelled at 15 and otherwise what is spelled plus 0x40, every flag as 0 or 1, and encoder speed, timestamp and readings as spelled |
| ReplyMeaning.StatusMeaning | urg_node/src/uam/workers/xr00_worker.cpp:157-244 | the same for the status reply: accepted if and only if its digits say so, and then each field at its offset holds what is spelled there |
| ReplyMeaning.PlainMeaning | urg_node/include/uam/workers/uam_worker_base.h:221-276 | the replies without decoded data are accepted if and only if size, status and checksum are right |
| ReplyMeaning.HeaderStored | urg_node/include/uam/workers/uam_worker_base.h:500-509 | size, status and checksum of an accepted reply are stored as the numbers they spell |
| ReplyMeaning.Untouched | urg_node/include/uam/visitor.h:122-138 | every other byte of an accepted reply stays as it arrived |
| ReplyMeaning.YrOffsets | urg_node/include/uam/workers/yr_worker.h:135-142 | by offsets, what the YR worker converts and what it leaves: eight header fields one by one, and the distances up to the first that spells no number |
| Lifecycle.UamDriver.Disconnect | urg_node/src/uam/uam_driver.cpp:108-111 | the client is disconnected and stopped, and the subscription mode is kept |
| Lifecycle.UamDriver.Connect | urg_node/src/uam/uam_driver.cpp:98-106 | connecting fails by an exception, and stops an earlier read task |
| Lifecycle.UamDriver.GetScanDetails | urg_node/src/uam/uam_driver.cpp:160-172 | scan details need a connection without a read task |
| Lifecycle.UamDriver.StopStreaming | urg_node/src/uam/uam_driver.cpp:216-245 | AR03, AR05 or AR06 is sent for AR02, AR04 or AR07, and the mode becomes invalid exactly when it was, or when that is answered other than by a scan |
| Lifecycle.UamDriver.GetSensorStatus | urg_node/src/uam/uam_driver.cpp:122-145 | the status is read only after streaming has stopped |
| Lifecycle.UamDriver.StartStreaming | urg_node/src/uam/uam_driver.cpp:175-214 | an old mode is taken for a subscription; otherwise the command of the wanted mode is sent, and the mode set exactly when it is answered |
| Lifecycle.UamRos.TrySteps | urg_node/src/uam/uam_driver_ros.cpp:308-351 | how far a configuration gets, and what it leaves behind where it throws; one that succeeds has sent VR00, the requests for areas not yet read, the stop command of an old mode, XR00 and the wanted subscription, in this order |
| Lifecycle.UamRos.ConnectAndRead | urg_node/src/uam/uam_driver_ros.cpp:310-329 | the steps up to the safety areas, which are read once |
| Lifecycle.UamRos.CatchFailure | urg_node/src/uam/uam_driver_ros.cpp:355-369 | a failure disconnects, is counted, and resets the lidar beyond the limit |
| Lifecycle.UamRos.Configure | urg_node/src/uam/uam_driver_ros.cpp:306-371 | one configuration takes the node to the state the specification gives |
| Lifecycle.UamRos.LidarHardReset | urg_node/src/uam/uam_driver_ros.cpp:181-221 | the service is called only when the last call is more than an interval ago |
| Lifecycle.UamRos.ConfigureTimerCallback | urg_node/src/uam/uam_driver_ros.cpp:271-282 | the retry timer stops, and is armed again when the configuration fails |
| Lifecycle.UamRos.TriggerReconfigure | urg_node/src/uam/uam_driver_ros.cpp:284-289 | the client is disconnected and a retry armed |
| Lifecycle.UamRos.ScanWatchdogTimerCallback | urg_node/src/uam/uam_driver_ros.cpp:162-179 | a configured node without recent scans resets the lidar and reconfigures; Lifecycle.LosesWhen and ResetsWhen say exactly when, over every run |
| Lifecycle.UamRos.constructor | urg_node/src/uam/uam_driver_ros.cpp:111-116 | a node starts configured or with a retry armed |
| Lifecycle.StepKeepsInv | urg_node/src/uam/uam_driver_ros.cpp:162-371 | every callback keeps the invariant of node, connection, timer and resets |
| Lifecycle.LifecycleInvariant | urg_node/src/uam/uam_driver_ros.cpp:271-371 | in every run, between callbacks, exactly one of configured and retry-armed holds, and configured means connected, reading and subscribed as wanted |
| Lifecycle.StopAnswered | urg_node/src/uam/uam_driver.cpp:216-245 | in every run of the reply protocol without a time-out, the wait for a stop command is over, with everything received, if and only if the mode is not AR07 |
| Lifecycle.RetryNeeds | urg_node/src/uam/uam_driver.cpp:122-265 | from every reachable state a retry succeeds if and only if its steps do, and a mode left over can be stopped |
| Lifecycle.ResetSpacing | urg_node/src/uam/uam_driver_ros.cpp:181-221 | in every run with a clock that does not run backwards, resets i < j are more than (j - i) intervals apart |
| Lifecycle.ConfigureResets | urg_node/src/uam/uam_driver_ros.cpp:355-369 | every reset of every run that comes from configure follows more failures than the limit since the counter was last zeroed |
| Lifecycle.Recovery | urg_node/src/uam/uam_driver.cpp:122-245 | a reachable node without a configuration can get one at its next retry if and only if it is not left in the AR07 mode |
| Lifecycle.StaleAr07NeverRecovers | urg_node/src/uam/uam_driver.cpp:216-245 | in every run, a node left unconfigured in the AR07 mode stays so |
| Lifecycle.LostMultiEcho | urg_node/src/uam/uam_driver_ros.cpp:162-289 | a node that streams multi-echo scans and loses its configuration never has one again |
| Lifecycle.LosesWhen | urg_node/src/uam/uam_driver_ros.cpp:162-179 | in every run, an event takes a configured node out of its configuration if and only if it is a watchdog that comes more than the time-out after both the last scan and the last configuration |
| Lifecycle.StaysConfigured | urg_node/src/uam/uam_driver_ros.cpp:162-179 | in every run, as long as no watchdog comes so late, a configured node keeps its configuration and the lidar is not reset |
| Lifecycle.ResetsWhen | urg_node/src/uam/uam_driver_ros.cpp:162-221 | in every run, the reset service is called by exactly these events: a watchdog that times out and a failing configuration that is one too many since the last success or successful reset by one, modulo 2^32, each only if the last call is more than the interval ago |
| Lifecycle.BootNeeds | urg_node/src/uam/uam_driver_ros.cpp:111-116 | the first configuration succeeds if and only if every step does, and sets the wanted mode |
| Lifecycle.AreasReadWhen | urg_node/src/uam/uam_driver_ros.cpp:547-612 | in every run, the areas are held if and only if some earlier attempt got as far as reading them all |
| Lifecycle.RetrySubscribes | urg_node/src/uam/uam_driver.cpp:175-245 | from every reachable state, the subscription mode that a retry leaves behind, by the steps that succeed |
| HardwareClock.URGCWrapper.GetSynchronizedTime | urg_node/src/urg_c_wrapper.cpp:995-1037 | one call takes the clock to the state, and returns the stamp, of the specification |
| HardwareClock.ElapsedModulo | urg_node/src/urg_c_wrapper.cpp:1001-1005 | the casts to 32 bits, the wrapping difference and the mask give the difference modulo 2^24, for all time stamps |
| HardwareClock.StepMeaning | urg_node/src/urg_c_wrapper.cpp:995-1037 | one sample in plain numbers: 24 bits of milliseconds, one part in a hundred of each new offset, the sum as the stamp from the 101st sample on, and a restart at 0 beyond 0.1 s |
| HardwareClock.FirstHundred | urg_node/src/urg_c_wrapper.cpp:1020-1034 | in every run, the first 100 samples after a start or a reset do not reset the clock |
| HardwareClock.StampSince | urg_node/src/urg_c_wrapper.cpp:1020-1036 | in every run, the first 100 stamps after a start or a reset are the system's, and each later one up to the next reset is clock plus average and within 0.1 s of the system's, or is the system's and restarts the clock |
| HardwareClock.CounterInvariant | urg_node/src/urg_c_wrapper.cpp:995-1037 | in every reachable state, resets included, the clock in milliseconds is a whole number congruent to the last time stamp modulo 2^24 |
| HardwareClock.TrueTime | urg_node/src/urg_c_wrapper.cpp:1001-1006 | between resets the clock advances by the true time, over any number of wraps, when samples come less than 2^24 ms apart |
| HardwareClock.WarpedWhen | urg_node/src/urg_c_wrapper.cpp:1020-1034 | a sample resets the clock if and only if it is synchronised and 0.99 times its distance to the average exceeds 0.1 s |
| HardwareClock.JitterStep | urg_node/src/urg_c_wrapper.cpp:1006-1036 | consecutive synchronised stamps differ by the counter's increment to within 0.001 / 0.99 s |
| HardwareClock.StampsIncrease | urg_node/src/urg_c_wrapper.cpp:995-1037 | in every run, while the clock tracks and samples are 2 ms apart or more, stamps increase strictly |
| HardwareClock.StampLater | urg_node/src/urg_c_wrapper.cpp:1006-1036 | a synchronised stamp is later than the one before if and only if the average is ahead of the new offset by less than a tenth of the counter's increment |
| HardwareClock.TooShort | urg_node/src/urg_c_wrapper.cpp:995-1037 | a reachable state and a sample 0 or 1 ms later whose stamp is no later |
| HardwareClock.TwoMilliseconds | urg_node/src/urg_c_wrapper.cpp:995-1037 | an increment makes every tracked stamp later than the one before, in every run, if and only if it is at least 2 ms |
| HardwareClock.NoSpuriousReset | urg_node/src/urg_c_wrapper.cpp:1007-1034 | from a fresh average on, offsets within an interval of at most 0.1 s keep the average in it and never reset the clock |
| HardwareClock.SureDetection | urg_node/src/urg_c_wrapper.cpp:1020-1034 | once synchronised, a jump J out of an interval of width w with 0.99 (abs J - w) > 0.1 resets the clock on that sample |
| HardwareClock.SteadyOffset | urg_node/src/urg_c_wrapper.cpp:995-1037 | a system clock within 0.1 s of the device's true time never resets the clock, which after every sample shows true time up to a constant |
| HardwareClock.StampsAreTrue | urg_node/src/urg_c_wrapper.cpp:995-1037 | with such a system clock every stamp is within the same bounds of the true time |
| Latency.NthIsKth | urg_node/src/urg_c_wrapper.cpp:888-891 | selection by partition yields the element sorting would put at index k |
| Latency.KthIsUnique | urg_node/src/urg_c_wrapper.cpp:888-891 | that element is determined by the counts below and up to it |
| Latency.MajorityRules | urg_node/src/urg_c_wrapper.cpp:888-891 | the median lies in every interval that holds a strict majority of the values |
| Latency.URGCWrapper.GetNativeClockOffset | urg_node/src/urg_c_wrapper.cpp:896-935 | the median distance of the lidar's clock to the middle of request and response; an exception exactly when started or when the time stamp mode cannot be started or stopped |
| Latency.URGCWrapper.GetTimeStampOffset | urg_node/src/urg_c_wrapper.cpp:937-993 | the median distance of a scan's time stamp to its reception; an exception exactly when started, not startable, or without a scan, the last of which leaves the measurement started |
| Latency.URGCWrapper.ComputeLatency | urg_node/src/urg_c_wrapper.cpp:866-894 | a result exactly when no call fails: the upper median of the scans against the mean of the two clock readings around each, plus the angular offset; with a strict majority of sound measurements it is the true latency plus that offset, exactly for scans half-way between the readings, else to within drift times the slack |
| Latency.LatencyFound | urg_node/src/urg_c_wrapper.cpp:866-891 | with a strict majority of sound measurements offset and drift cancel in the median |
| Latency.URGCWrapper.AngularTimeOffsetMeaning | urg_node/src/urg_c_wrapper.cpp:850-864 | the angular offset is the part of a period from the rear, at -3.141592, to the first step: none there, half at the front, all at +3.141592 |
| ScanParameters.ScanParameters.FromMessage | urg_node/include/uam/scan_params.h:58-83 | a PP reply gives the full window of its limits and the parameters derived from them |
| ScanParameters.ScanParameters.SetAngleLimits | urg_node/include/uam/scan_params.h:90-120 | the fields show the window of the two angles, its angles and its time offset |
| ScanParameters.ScanParameters.CalculateTimeOffset | urg_node/include/uam/scan_params.h:205-217 | the time from the rear of the device to the first step |
| ScanParameters.Monotone | urg_node/include/uam/scan_params.h:226-236 | angle2step is monotone |
| ScanParameters.Inverse | urg_node/include/uam/scan_params.h:226-247 | angle2step undoes step2angle on the steps within the limits |
| ScanParameters.WindowWithinLimits | urg_node/include/uam/scan_params.h:90-120 | every request gives first_limit <= first < last <= last_limit if and only if first_limit < last_limit |
| ScanParameters.SmallestWindow | urg_node/include/uam/scan_params.h:90-120 | the window goes from the smaller of the two steps to the larger; of equal steps it takes the one before too, or, at the lower limit, the one after |
| ScanParameters.Reapply | urg_node/include/uam/scan_params.h:90-120 | asking again for the angles of a window changes nothing |
| ScanParameters.Covers | urg_node/include/uam/scan_params.h:90-120 | a window around the front covers every reachable angle of the request |
| ScanParameters.Overshoot | urg_node/include/uam/scan_params.h:90-120 | and overshoots a reachable end by less than one increment unless both ends were given one step |
| ScanParameters.RoundsOutward | urg_node/include/uam/scan_params.h:226-236 | the step of an angle lies at or before it if and only if the angle is not ahead of the front or is on a step, and at or after it if and only if it is not behind or on a step |
| ScanParameters.ClosestStep | urg_node/include/uam/scan_params.h:219-236 | the step given is a closest one within the limits if and only if the angle is on a step, or at least half a step beyond the last one passed, or one of the two steps around it is outside the limits |
| ScanParameters.NotAlwaysClosest | urg_node/include/uam/scan_params.h:219-236 | a tenth of a step ahead of the front the next step is given, which is not the closest |
| ScanParameters.TimeOfStep | urg_node/include/uam/scan_params.h:200-217 | the time of a step does not depend on the window it is seen through |
| ScanAssembly.Collect | urg_node/include/uam/uam_driver_ros.h:216-242 | the loop over the readings reads beyond the profile if and only if a finite reading lies there; otherwise it collects exactly the slice of the window, whether it holds a finite reading, and exactly the violations, in order, with comparisons of ints as unsigned sizes |
| ScanAssembly.ViolationsUnique | urg_node/include/uam/uam_driver_ros.h:233-241 | the violation list is determined by the readings and the profile |
| ScanAssembly.UamRos.Report | urg_node/include/uam/uam_driver_ros.h:179-275 | the profile is read beyond its end if and only if a finite reading lies there; otherwise a message is published exactly when the window lies in the reply and holds a finite reading, with ranges and intensities aligned to the window |
| ScanAssembly.UamRos.ScanCallback | urg_node/include/uam/uam_driver_ros.h:142-275 | a message is published exactly for a reply after the deadline that is not locked out and has, in the current window, a number from 1 to 0xFFFB; reading k is finite exactly for such a number and then 1000 times its distance from the offset is that number; the points listed are exactly those of such numbers within the profile of the reference area of the active area; new angle limits take effect before that reply |
| ScanAssembly.MessageGeometry | urg_node/include/uam/uam_driver_ros.h:179-190 | reading k of a message is the reply's reading of step first + k, at angle_min + k increments, at a time that does not depend on the window |
| ScanAssembly.UamRos.MessagePlaces | urg_node/include/uam/uam_driver_ros.h:179-190 | by a message's own header, reading k lies at the angle of step first + k and was measured when the beam passed it, neither of which depends on the window |
| ScanAssembly.MultiEchoOverreads | urg_node/include/uam/uam_driver_ros.h:231-241 | a multi-echo reply with a finite reading in its second half reads beyond a profile of 1081 steps |
| ScanChain.StoredNumber | urg_node/src/uam/workers/sensing_data/ar01_worker.cpp:67-80 | each data field of a printed scan is stored as the adjusted number its digits spell |
| ScanChain.PrintedIsScan | urg_node/include/uam/uam_driver_ros.h:142-275 | what the scan callback sees of a printed scan is what its data spell |
| ScanChain.PrintedFrame | urg_node/src/uam/workers/uam_command_worker.cpp:41-123 | a printed scan is a known frame that runs the handler of its kind on its decoding |
| ScanChain.ReceiveScans | urg_node/include/uam/uam_driver.h:277-281 | for every stream of known frames without a short YR reply, in whatever chunks, what is published is exactly what the scans among them show, in order |
| ScanChain.PublishScans | urg_node/src/uam/uam_driver_ros.cpp:91-109 | AR00, AR01 and AR06 scans printed with any numbers, received in whatever chunks, are published as their data read, one message for each that is not locked out and has a distance in the window, in order |
| ScanChain.PublishFrames | urg_node/include/uam/uam_driver_ros.h:142-275 | from bytes to messages: of known frames of any kind and content, none a short YR reply, in whatever chunks, exactly the accepted scans (AR00, AR01, AR06, or AR02, AR04, AR07 at their lengths) that are not locked out and have a number from 1 to 0xFFFB in the window are published, in order, and reading k of each is finite exactly for such a number at byte 50 + 4 (first + k), which is then 1000 times its distance from the offset; for AR01 the intensities follow their digits too |
| ScanChain.ScanMeans | urg_node/include/uam/uam_driver_ros.h:142-275 | what the scan callback sees of an accepted scan: area, lockout, readings and intensities by the digits of the frame |

## Left out

- Sockets, futures, time-outs as durations, TCP options and address parsing: only completion, failure and abortion of reads and the two flags remain.
- ROS publishers, services, parameters, dynamic reconfigure, logging and nodelets: publications are recorded in a trace.
- Callbacks that several threads enter at once: the threads of a command are the steps of one state machine, and the callbacks of the ROS thread run one after the other.
- Lifecycle.UamRos.ConnectAndRead: one request for safety areas in the commands sent stands for all 288.
- ReplyMatching.PendingCommand.Clear: the flag alone; what clearing it before the send is for is in the invariant of the protocol.
- Lifecycle.UamDriver.SendWithReadTask: stands for getVersionDetails and for the 288 requests of readSafetyAreas, which it takes as one step that fails if any of them does.
- HardwareClock.URGCWrapper.GetSynchronizedTime: exact seconds, without the rounding to nanoseconds and of doubles.
- Latency.URGCWrapper.ComputeLatency: not for zero measurements, where the code reads beyond its vector.
- ScanParameters.ScanParameters.FromMessage: not for a resolution or an rpm of 0, where the code goes on with infinities and converts them to int.
- SCIP text replies (scip_worker.h): the reply to PP is a parameter.
- Buffer decoders of XR00, VR00, ID00, AR06 and the empty replies: not reached from the TCP client, and repetitive.
- The fields of XR00 are listed by address, not in the order of the calls; a reply with a field that fails is dropped either way.
- Messages that only explain a rejection (validateCrc on a wrong size, the tables of status texts).
- publishPointsInArea, updateStatus, statusCallback, publishSafetyArea and the conversion of YR replies to messages.
- The rest of urg_c_wrapper.cpp (grabScan, setAngleLimitsAndCluster, getDL00Status, sendCommand), urg_node_driver.cpp and the command-line programs.
