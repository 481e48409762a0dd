# Verification of the SecondEyes camera node

A Raspberry Pi camera node streams and records video, detects motion, and talks to a server. This
project models its stateful parts and proves what they promise, over all inputs, all runs and all
interleavings of its threads:

- **Frames.** `I420Layout`, `FrameUnpack`, `FrameRoundTrip`, `YuvToRgb` and `CaptureConvert` follow an
  I420 frame from the slices the camera component delivers, through the unpack loop and its size
  check, to the RGB image. `SizeCheck` and `RoundTripExact` say for which sizes, slice heights and
  strides the check and the loop do what they are for. `MotionDetect` compares the luma planes of two
  frames in place, `MotionOfCaptures` captures the two frames before.
- **Buffers.** `BufferHandshake` is the hand-over of one buffer between a client loop and the
  component that fills it, statement by statement. `KeyFrameCutoff` says at which buffer a stream and
  a recording stop. `CaptureCalls` runs the capture loop and the two encoder loops on top of that
  hand-over. `HandshakeRuns` and `CaptureRuns` show that these calls do happen, for any buffers.
- **RTSP.** `NalMailbox` is the class `PI_MEMORY_BUFFER`. `RtspRuns` interleaves the encoder thread
  with the RTSP thread in steps of one lock each. `BufferedSource` is the frame / SPS / PPS counter of
  `piMemoryBufferedSource`. `ParameterSets` is about parameter sets that were never saved.
- **Messages.** `MessageBus` gives the queues and their runs, `ServiceOrder` the order in which the
  deque is served, `Managers` the classes `ReceiveQueue`, `QueueManager`, `TaskManager` and the packet
  dispatch of `CommunicationService`, whose methods are steps of those runs.
- **Sessions.** `Session` runs StreamManager, EventManager and the start-up against the life cycle of
  the OpenMAX pipeline, under `mutex_EventManager`. `SessionRuns` says what the pipeline is told in every
  run, `NodeRuns` that every sequence of detections, recordings and sessions happens.
- **Files.** `FileTransfer` has the three senders of `ClientSocket` and a receiver that reads them back.

The foreign libraries are environment steps: a buffer is filled, an event is raised, a packet is
appended to a log, a lock is taken. `Bytes` holds the byte type and `memcpy`, `Planes` the sizes of
tightly packed planes.

How to read the frame results: a `Setup` is the pair of layouts the loop computes; `Setup.Sound()`
holds for every width, even height, slice height that is even or larger than the frame, and equal
strides (`SetupIsSound`). `CaptureRun` is the state of the capture loop after some buffers; its
outcome `Overrun` stands for a `memcpy` outside its buffers, which the methods exclude as C++ demands
of `memcpy`, and which the lemmas show not to happen, or exactly when it does.

What turned out different from what one would expect, with the exact condition:

- The size check tells complete frames from all others if and only if the height is even and the
  slice height is even or larger than the frame (`SizeCheckRightExactly`). For any other set-up every
  complete frame ends in die (`CompleteFrameOutcomeExact`), and a wrong number of slices passes
  only if the bytes come out even (`WrongCountPassesExactly`), as for three one-row slices of an
  8 x 2 frame (`OddSlicesDefeatTheSizeCheck`). The source never sets the slice height; it takes what
  the camera component reports.
- The loop gives every frame back under that condition and if the rows of the buffer are as far apart
  as those of the frame, and otherwise not (`RebuildsEveryFrameExactly`). A slice too many has run over
  its memory before the check is reached (`OneFrameOutcomeExact`), and so has a second frame
  (`CapturedOfStream`).
- The end-of-stream event can come at any time. A capture call that sees it before all slices are
  used, even when it takes the last one, returns a black frame; it returns its frame if and only if it
  uses all slices, and not all of a second frame (`ReturnedFrameExactly`). An event after the call makes the next call return
  without using any buffer (`CameraIdleBetweenCalls`, `LateEventEmptiesCall`).
- The capture layout and the one that the conversion assumes agree only for widths divisible by 8 and
  even heights (`LayoutsAgreeExactly`); for odd widths the luma pointer of the conversion drifts
  (`LumaWalkIsRowMajorExactly`).
- Motion detection steps through the luma plane with the width, so it answers for the pictures only if
  4 divides the width, apart from pictures of one row or of at most 300 pixels
  (`MotionIsRightExactly`).
- The recording test compares the elapsed seconds for equality, so a recording that sees no buffer in
  that second never ends (`SkippedSecondNeverEnds`).
- A session switches off capturing on port 72 at its end, not on port 71 which it uses, so port 71 stays
  on until a recording tears the components down (`PortsBetweenSections`).
- A stream clears the stop request when it begins, so a STREAM_STOP that comes after flag_stream is set
  but before that moment is lost (`StreamWaitsForStop`).
- A recording leaves the encoder flag set; the next loop clears it (`EncoderFlagBetweenCalls`).
- A parameter set that was never saved can be handed out, with its uninitialised length, if and only
  if the sets are not both pushed before the sixth slice (`NeverUnsavedExactly`).
- The service deque is in order at every moment if and only if every message is sent when it is
  smaller than the head or not smaller than the last (`AscendingExactly`); for a burst into an empty
  deque this is decided by the messages that are no strict running minimum
  (`BurstServedSmallestFirstExactly`).
- A class of messages stays first-in first-out if and only if each of its sends keeps its place
  (`OrderKeptExactly`). Server packets always do (`ServerPacketsInOrder`); motor commands do unless one
  is sent while a server packet is at the head and another command waits
  (`MotorCommandsInOrderExactly`, with an instance in `MotorCommandsCanOvertake`).

Where comments and code disagree, the model follows the code. The comments of `Subtraction` say "40
or more" and "300 or more" where the code tests for more than 40 and more than 300. The comment on
`PARAMETER_SET_DISTANCE` puts the parameter sets before the frames, but five frames come first. The
comment of `SendMessage` promises that the smaller number is served first, which holds only under the
conditions of `AscendingExactly` and `BurstServedSmallestFirstExactly`.

## Model

| member | source | states |
|---|---|---|
| I420Layout.ChromaStrideFromLuma | Camera/OpenMax.cpp:731-733 | the chroma stride depends on the width only through the luma stride |
| I420Layout.PaddingFillsLastSlice | Camera/OpenMax.cpp:743-747 | the padding is what the last of the ceil(h/s) slices lacks to be whole, and less than a slice |
| I420Layout.LumaTightExactly | Camera/OpenMax.cpp:731-735 | the luma plane takes w*h bytes if and only if 4 divides w and h is even |
| I420Layout.ChromaTightExactly | Camera/OpenMax.cpp:736-738 | then a chroma plane takes w*h/4 bytes if and only if 8 divides w |
| I420Layout.LayoutsAgreeExactly | Camera/OpenMax.cpp:729-738 | the plane starts computed for capturing are those the conversion assumes if and only if 8 divides w and h is even |
| I420Layout.TightFrame | Camera/OpenMax.cpp:2177-2183 | for those sizes total size and strides agree as well |
| FrameUnpack.UnpackFragment | Camera/OpenMax.cpp:815-840 | the plane loop changes the frame array into the three memcpy results in order and counts their bytes; no access outside the buffers |
| FrameUnpack.TakeFragment | Camera/OpenMax.cpp:796-864 | one buffer takes frame, frame buffer and all counters from one state of the capture loop to the next, or leaves through die |
| FrameUnpack.CaptureFrame | Camera/OpenMax.cpp:765-897 | the loop returns the frame buffer of the run over all delivered buffers, or nothing when it died |
| FrameUnpack.StoppedStaysStopped | Camera/OpenMax.cpp:847-850 | after the exit through die no later buffer matters |
| FrameRoundTrip.SetupIsSound | Camera/OpenMax.cpp:769-774 | every width, even height, slice height that is even or larger than the frame, and equal stride gives the loop consistent layouts |
| FrameRoundTrip.CopiesTileTheFrame | Camera/OpenMax.cpp:815-840 | each byte of the frame lies in the copy of exactly one slice and one plane |
| FrameRoundTrip.SlicesFit | Camera/OpenMax.cpp:819-838 | no copy of a slice leaves the frame or the buffer |
| FrameRoundTrip.SizeCheckExact | Camera/OpenMax.cpp:841-850 | for slice heights that are even or larger than the frame the byte count equals the frame size if and only if the height is even and exactly ceil(h/s) slices came |
| FrameRoundTrip.SetupIsCountable | Camera/OpenMax.cpp:769-774 | what that relies on holds for every width, height, stride and such slice height |
| FrameRoundTrip.OneFrameOutcome | Camera/OpenMax.cpp:844-861 | a delivery of one frame that overruns nothing is accepted if and only if the height is even and it is complete, whatever it contains |
| FrameRoundTrip.OneFrameOutcomeExact | Camera/OpenMax.cpp:844-861 | missing slices end in die, a complete frame is returned, an extra slice runs over the frame: each if and only if |
| SizeCheck.CompleteFramePassesExactly | Camera/OpenMax.cpp:841-850 | for any slice height, a complete frame has the right byte count if and only if the height is even and the slice height is even or larger than the frame |
| SizeCheck.SizeCheckRightExactly | Camera/OpenMax.cpp:841-850 | the byte count tells the right number of slices from all others under exactly that condition |
| SizeCheck.WrongCountPassesExactly | Camera/OpenMax.cpp:841-850 | a wrong number of slices has the right byte count if and only if that condition fails and the bytes missing from one last slice are a multiple of those of a whole slice |
| SizeCheck.AcceptedBySizeExactly | Camera/OpenMax.cpp:796-861 | for any slice height, the loop accepts a delivery of one frame if and only if its slices bring the bytes of the frame; no copy leaves its buffers then |
| SizeCheck.CompleteFrameOutcomeExact | Camera/OpenMax.cpp:796-861 | so a complete frame is accepted under exactly that condition, and ends in die otherwise, for any slice height |
| SizeCheck.OddSlicesDefeatTheSizeCheck | Camera/OpenMax.cpp:841-850 | three one-row slices of an 8 x 2 frame of two slices are accepted |
| SizeCheck.OneRowSetup | Camera/OpenMax.cpp:729-748 | the layouts of that case are the computed ones |
| FrameRoundTrip.CaptureRoundTrip | Camera/OpenMax.cpp:795-863 | cutting any frame into slices and capturing them gives the frame back byte for byte, with the loop ready for the next frame |
| FrameRoundTrip.EveryFrameHasACut | Camera/OpenMax.cpp:786-793 | every frame can be cut like that |
| RoundTripExact.RebuildsEveryFrameExactly | Camera/OpenMax.cpp:765-863 | for all sizes, slice heights and strides: the loop gives every frame back from every cut of it if and only if the height is even, the slice height is even or larger than the frame, and the strides are equal |
| YuvToRgb.TablesClampAndTruncate | Camera/OpenMax.cpp:2135-2171 | table entries are the truncated colour formulas in exact arithmetic, kept within 0 to 255 |
| YuvToRgb.LumaWalkInBounds | Camera/OpenMax.cpp:2196-2199 | the luma pointer stays in the first plane, for all sizes |
| YuvToRgb.ChromaWalkInBounds | Camera/OpenMax.cpp:2193-2194 | the chroma pointers stay in their planes, for all sizes |
| YuvToRgb.BlocksTileTheImage | Camera/OpenMax.cpp:2190-2215 | every output byte of a 2 x 2 block belongs to exactly one step of the loops, and lies in the image |
| YuvToRgb.Yuv420ToRgb | Camera/OpenMax.cpp:2174-2224 | for all sizes: each covered output byte has the channel of the samples at the walked positions, all others are untouched |
| YuvToRgb.LumaWalkIsRowMajorExactly | Camera/OpenMax.cpp:2219-2221 | the walk meets luma sample row*w+col for every pixel if and only if w is even, below 2, or h below 4 |
| YuvToRgb.LumaWalkDrifts | Camera/OpenMax.cpp:2219-2221 | for every size the walk is row*w+col less one sample for each pair of rows if w is odd |
| YuvToRgb.EvenSizesConvertByIndex | Camera/OpenMax.cpp:2192-2215 | for even sizes pixel (row, col) is made from luma row*w+col and chroma (row/2)*(w/2)+col/2 of the third and second plane |
| YuvToRgb.EvenSizesAreCovered | Camera/OpenMax.cpp:2190-2191 | for even sizes every one of the 3*w*h output bytes is written |
| YuvToRgb.CoveredExactly | Camera/OpenMax.cpp:2190-2191 | for every size exactly the last row of an odd height and the last column of an odd width are left out |
| CaptureConvert.FrameCoversInput | Camera/OpenMax.cpp:1018-1019 | a captured frame is never smaller than what the conversion reads |
| CaptureConvert.CaptureImage | Camera/OpenMax.cpp:899-1019 | for any layouts with a frame large enough: the converted bytes of the captured frame, and no image when the capture died |
| CaptureConvert.CapturedPixels | Camera/OpenMax.cpp:929-1019 | for widths divisible by 8 and even heights each RGB pixel comes from that pixel of the frame that was cut into slices, by the capture layout's own plane starts and strides |
| MotionDetect.Subtraction | Camera/EventDetectManager.cpp:70-100 | whichever of the three arrays are the same, the answer is 1 if and only if more than 300 pixels of the original frames differ by more than 40 either way, and dst holds the new luma there and 16 elsewhere |
| MotionDetect.CompareInPlace | Camera/EventDetectManager.cpp:63-67 | with dst on top of the older frame the answer is that of the two frames as they came in |
| MotionOfCaptures.BackgroundSubtraction | Camera/EventDetectManager.cpp:53-68 | the answer is that of the frame buffers of the two captures, and there is none when a capture died |
| MotionOfCaptures.MotionIsRightExactly | Camera/EventDetectManager.cpp:80-96 | the answer is that of the pixels of the pictures, for all pictures, if and only if 4 divides the width, the height is 1, or there are at most 300 pixels |
| MotionOfCaptures.MotionOfPictures | Camera/EventDetectManager.cpp:53-68 | for widths divisible by 4, from the slices of two pictures to whether more than 300 of their pixels, by row and column, differ by more than 40 either way |
| BufferHandshake.HandshakeIsSafe | Camera/OpenMax.cpp:795-877 | in every interleaving at most one fill request is out, the loop looks at the buffer only while it owns it and then sees the last completed data, and never waits for a request nobody made |
| BufferHandshake.EveryBufferOnce | Camera/OpenMax.cpp:1036-1085 | the buffers the loops dealt with are those the component completed, in order, none twice, at most one still waiting |
| BufferHandshake.CallUsesAllButTheLast | Camera/OpenMax.cpp:1108-1142 | a loop that was left has used every buffer completed since its start except the one it left at |
| BufferHandshake.LogsGrow | Camera/OpenMax.cpp:1996-2016 | completed and used buffers are never taken back |
| BufferHandshake.CameraIdleBetweenCalls | Camera/OpenMax.cpp:880-881 | between capture calls the buffer flag is clear and no request is out; buff_eos is clear if and only if no event came after the loop was left |
| BufferHandshake.LateEventEmptiesCall | Camera/OpenMax.cpp:800-801 | with buff_eos set a call uses no buffer |
| BufferHandshake.EncoderFlagBetweenCalls | Camera/OpenMax.cpp:1036-1143 | the encoder flag stays set exactly after a recording, and a starting loop never takes a stale buffer for a new one |
| HandshakeRuns.CallHappens | Camera/OpenMax.cpp:795-877 | for each of the three loops, from every idle state and for all buffers, some run is one call that uses exactly the given buffers and is left at the given one |
| HandshakeRuns.WaitingBufferIsTaken | Camera/OpenMax.cpp:796-799 | in every run, a loop that comes to its test while a completed buffer waits takes that buffer |
| KeyFrameCutoff.StartStreaming | Camera/OpenMax.cpp:1109-1127 | exactly the buffers before the first sync-flag change after the buffer that latched the stop are pushed; it ends if and only if there is such a change |
| KeyFrameCutoff.StreamEndInPlainTerms | Camera/OpenMax.cpp:1111-1122 | the end of a stream, counted from the first buffer that sees is_end |
| KeyFrameCutoff.VideoEncode | Camera/OpenMax.cpp:1038-1071 | for any clock readings: exactly the buffers before the first sync-flag change against the last buffer of the second record_time are written |
| KeyFrameCutoff.RecordingEndInPlainTerms | Camera/OpenMax.cpp:1050-1060 | the test for the end of a recording, against the last buffer of the second |
| KeyFrameCutoff.RecordingEndsAfterSecond | Camera/OpenMax.cpp:1050-1060 | with a clock that never goes back that is the first sync-flag change after the last buffer of the second, if and only if |
| KeyFrameCutoff.SkippedSecondNeverEnds | Camera/OpenMax.cpp:1050-1054 | without a buffer in that second the recording never ends |
| KeyFrameCutoff.StreamEndIsUnique | Camera/OpenMax.cpp:1111-1122 | the end of a stream is determined by the buffers |
| CaptureCalls.CapturedOfStream | Camera/OpenMax.cpp:795-877 | after any number of slices of any number of frames the frame buffer is black, the first frame, or overrun: each for exactly which numbers |
| CaptureCalls.CaptureOfEveryRun | Camera/OpenMax.cpp:795-877 | in every interleaving with the component, a call returns what the loop makes of the buffers completed since its start but the last |
| CaptureCalls.ReturnedFrameExactly | Camera/OpenMax.cpp:795-877 | in every interleaving, the call returns the picture if and only if it used all its slices and not all of a second one, and a black frame if and only if it used fewer |
| CaptureCalls.EncoderCallsEndExactly | Camera/OpenMax.cpp:1036-1142 | in every interleaving, a stream or a recording goes on as long as no buffer completed in it was its end, and is over having used exactly those before its end |
| CaptureRuns.EveryFrameIsCaptured | Camera/OpenMax.cpp:795-877 | every frame, however it is cut, is returned by some run of a capture call |
| CaptureRuns.EveryEndIsReached | Camera/OpenMax.cpp:1036-1142 | for all buffers and readings whose last one is the end, some run of the loop is over having used exactly those before it |
| NalMailbox.PiMemoryBuffer.constructor | RTSP/piMemoryBufferType.cpp:3-16 | a new mailbox is empty; no parameter set is known |
| NalMailbox.PiMemoryBuffer.FlushFrameData | RTSP/piMemoryBufferType.cpp:27-34 | publishes what is assembled, unless nothing is |
| NalMailbox.PiMemoryBuffer.SaveSpsData | RTSP/piMemoryBufferType.cpp:37-42 | the SPS is replaced and nothing else changes |
| NalMailbox.PiMemoryBuffer.SavePpsData | RTSP/piMemoryBufferType.cpp:44-49 | the PPS is replaced and nothing else changes |
| NalMailbox.PiMemoryBuffer.PushFrameData | RTSP/piMemoryBufferType.cpp:51-93 | the abstract state changes as the kind of the chunk says; both lengths stay within RTSP_INPUT_BUFFER_MAX |
| NalMailbox.PushInBytes | RTSP/piMemoryBufferType.cpp:51-93 | what a push does, by the bytes of the chunk: 0 0 0 1 0x27 saves an SPS, 0 0 0 1 0x28 a PPS, any other start code publishes and begins a slice, the rest is appended if it fits |
| NalMailbox.PiMemoryBuffer.ReadFrameData | RTSP/piMemoryBufferType.cpp:96-108 | hands out the published body and empties the slot; 0 if it was empty |
| NalMailbox.PiMemoryBuffer.ReadFrameSps | RTSP/piMemoryBufferType.cpp:110-115 | hands out sps_len bytes, which are the SPS saved last if there is one |
| NalMailbox.PiMemoryBuffer.ReadFramePps | RTSP/piMemoryBufferType.cpp:117-122 | hands out pps_len bytes, which are the PPS saved last if there is one |
| RtspRuns.MailboxIsSafe | RTSP/piMemoryBufferType.cpp:96-108 | in every interleaving the delivered frames are a subsequence of the published bodies, none twice; a poll is empty if and only if nothing was published since the last that was not, and else returns the latest |
| RtspRuns.DeliverySchedule | RTSP/piMemoryBufferedSource.cpp:33-52 | in every run delivery n is a frame, SPS or PPS as n = 0 or (n-1) mod 6 says |
| RtspRuns.PpsFollowsSps | RTSP/piMemoryBufferedSource.cpp:41-48 | in that schedule a PPS comes directly after an SPS and nowhere else |
| RtspRuns.PushIsItsSteps | RTSP/piMemoryBufferType.cpp:51-93 | the locked steps of a push add up to the push, and it publishes only at the start of a slice |
| RtspRuns.NalReassembly | RTSP/piMemoryBufferType.cpp:58-92 | of any stream of slices the published values are the complete bodies without start codes of all but the last, in order, whatever parameter sets come between |
| RtspRuns.ConsumerIsInvisible | RTSP/piMemoryBufferType.cpp:99-105 | reading never changes what is assembled or published |
| RtspRuns.DeliveredFramesAreSlices | RTSP/piMemoryBufferedSource.cpp:34-40 | at every moment of every interleaving each delivered frame is the complete body of one slice, in strictly increasing order |
| ParameterSets.SavedExactly | RTSP/piMemoryBufferType.cpp:37-49 | a set is known if and only if a chunk of its kind was pushed |
| ParameterSets.NeverUnsavedExactly | RTSP/piMemoryBufferedSource.cpp:34-48 | no interleaving hands out an unsaved set if and only if both are pushed before the sixth slice starts, or there is no sixth slice |
| ParameterSets.DeliveredSetsWereSaved | RTSP/piMemoryBufferedSource.cpp:41-48 | in particular when both sets precede the first slice |
| ParameterSets.SetsAreLastPushed | RTSP/piMemoryBufferType.cpp:62-72 | in every interleaving a set handed out as SPS is the rest of the last chunk pushed before with the bytes 0 0 0 1 0x27, one handed out as PPS that of the last with 0x28 |
| BufferedSource.PiMemoryBufferedSource.DoGetNextFrame | RTSP/piMemoryBufferedSource.cpp:33-60 | one call does to the mailbox and the counter what the runs of RtspRuns do, and fTo holds the delivery if it is known |
| BufferedSource.CallReturnsExactly | RTSP/piMemoryBufferedSource.cpp:36-40 | with an empty slot a call for a frame returns if and only if something is published while it polls, with the last body of the first batch that publishes, and having let exactly the batches up to that one in |
| BufferedSource.FullSlotIsTaken | RTSP/piMemoryBufferedSource.cpp:36-40 | with a full slot it returns at once with what is in it |
| BufferedSource.CallIsARun | RTSP/piMemoryBufferedSource.cpp:36-40 | the polling of a call is an interleaving of polls with the pushes that arrive meanwhile |
| MessageBus.Lookup | Core/QueueManager.cpp:62-70 | the first queue registered for a destination, and none if and only if there is none |
| MessageBus.SendKeepsOrderExactly | Core/QueueManager.cpp:37-40 | a send keeps the order of its own priority and destination if and only if nothing larger is at the head or all of that class are equal to it |
| MessageBus.OrderKeptExactly | Core/QueueManager.cpp:33-60 | at every moment of a run the messages of a class are, from receiver back to deque, in the order sent, if and only if every send of the class met that condition |
| MessageBus.LargestPriorityIsFifo | Core/QueueManager.cpp:33-60 | in every run the messages of the largest number for a destination are, from receiver back to deque, in the order sent |
| MessageBus.ReceivedInOrder | Entity/ReceiveQueue.cpp:28-36 | so what was received of them is a prefix of what was sent |
| MessageBus.BurstShape | Core/QueueManager.cpp:33-41 | sends into an empty deque leave the strict running minima reversed, then the others in order; the head is a minimum |
| ServiceOrder.AscendingExactly | Core/QueueManager.cpp:33-60 | at every moment of a run the deque has the smaller numbers first if and only if every message was smaller than the head or not smaller than the last when it was sent |
| ServiceOrder.BurstServedSmallestFirstExactly | Core/QueueManager.cpp:33-46 | every service of a burst takes a smallest message if and only if those that are no strict running minimum come in ascending order, none smaller than the first message |
| ServiceOrder.HeadAfterServiceNotMinimal | Core/QueueManager.cpp:45-46 | after sending 1, 3, 2 and a service the deque is 3, 2 |
| MessageBus.Conservation | Core/QueueManager.cpp:43-60 | in every run the multiset of sent messages is deque plus receive queues plus received plus dropped |
| MessageBus.Routing | Core/QueueManager.cpp:48-57 | in every run messages are only in queues of their own destination, and dropped only without one |
| Managers.ReceiveQueue.Front | Entity/ReceiveQueue.cpp:28-32 | the oldest message comes out, the rest stays in order |
| Managers.QueueManager.RegisterReceiveMessageQueue | Core/QueueManager.cpp:28-31 | the queue is added last under its task number, and the queues stay distinct if it is new |
| Managers.QueueManager.SendMessage | Core/QueueManager.cpp:33-41 | the objects take the Send step of the runs |
| Managers.QueueManager.GetReceiveQueue | Core/QueueManager.cpp:62-70 | the loop finds the first queue registered for the destination, null if there is none |
| Managers.QueueManager.SendServiceMessage | Core/QueueManager.cpp:43-60 | they take the Service step, and the result names the destination that got a message |
| Managers.TaskManager.constructor | Core/TaskManager.cpp:20-24 | a new empty queue is registered under its task number, at the index the manager keeps |
| Managers.RegisteredAtStart | Core/TaskManager.cpp:20-24 | registrations at start-up give the starting point of the runs |
| Managers.TaskManager.ReceiveMessage | Core/TaskManager.cpp:26-33 | the objects take the Receive step of its own queue; the result is what the run logs as received, or the message of priority 0 |
| Managers.TaskManager.SendMessage | Core/TaskManager.cpp:35-37 | the Send step on the manager it was initialised with |
| Managers.CommunicationService.ParsingMessage | Core/CommunicationService.cpp:38-56 | a packet is a Send step, sets is_end, or changes nothing, depending on its head and flag_stream |
| Managers.PacketsInNumbers | Core/CommunicationService.cpp:46-55 | which head leads to which manager, when the end is signalled, and that all else changes nothing |
| Managers.PacketReachesItsManager | Core/CommunicationService.cpp:46-51 | whatever waits on the bus, one service for each waiting message brings such a packet to the queue of its manager |
| Managers.CommunicationService.SendMessageToStreamManager | Core/CommunicationService.cpp:107-114 | the Send step of the message addressed to StreamManager with the given priority |
| Managers.CommunicationService.SendMessageToMotorManager | Core/CommunicationService.cpp:116-123 | the Send step of the message addressed to MotorManager with the given priority |
| Managers.ParsedIsNodeTraffic | Core/CommunicationService.cpp:46-51 | every packet put on the bus carries priority 2 and the number of CommunicationService |
| Managers.ServerPacketsInOrder | Core/CommunicationService.cpp:46-51 | with all traffic of the node, server packets reach their manager in the order in which they came |
| Managers.MotorCommandsInOrderExactly | Camera/StreamManager.cpp:96-112 | with all traffic of the node, motor commands are in order at every moment if and only if none is sent while a server packet is at the head and a different command waits |
| Managers.MotorCommandsCanOvertake | Camera/StreamManager.cpp:96-112 | a RESTART sent after a STOP can be ahead of it in the deque |
| Session.NodeIsSafe | Camera/StreamManager.cpp:39-119 | in every interleaving: flag_stream only under StreamManager's lock, no detection or recording during a stream, a ready pipeline whenever the mutex is free, buffers allocated and freed in turns, motor commands FIRST_START STOP (RESTART STOP)* |
| Session.EveryStatementIsLegal | Camera/OpenMax.cpp:2018-2133 | no thread is ever about to make an OpenMAX call in a state that does not allow it |
| SessionRuns.ProgramsAreTheirStatements | Camera/StreamManager.cpp:90-115 | start-up, detection, recording and session are these calls in this order, with every nested reset and bring-up written out |
| SessionRuns.HistoryIsSections | Camera/EventDetectManager.cpp:109-138 | in every interleaving the pipeline is told the start-up and whole sections in the order in which detections answered and streams were asked for |
| SessionRuns.RecordsExactlyWhenMoved | Camera/EventDetectManager.cpp:110-137 | the section goes on with the recording if and only if the detection answered that something moved |
| SessionRuns.PortsCaptureWhenUsed | Camera/OpenMax.cpp:711-723 | in every interleaving port 71 captures during streams and recordings, port 72 during captures |
| SessionRuns.PortsBetweenSections | Camera/StreamManager.cpp:106-107 | which ports capture between two sections; port 71 if and only if a session was not followed by a recording |
| NodeRuns.EverySequenceHappens | Camera/StreamManager.cpp:32-119 | every sequence of sections is that of some interleaving from the start of the node |
| NodeRuns.StreamWaitsForStop | Camera/OpenMax.cpp:1094-1128 | a stream goes on until a STREAM_STOP that comes after it has begun |
| Session.LegalKeepsConsistent | Camera/OpenMax.cpp:610-658 | a legal statement keeps the three allocation counts and flag_motor in step with the logs |
| Session.ResetLeadsToRest | Camera/OpenMax.cpp:2018-2133 | ResetConfigure can run in every ready state and leaves the pipeline ready for what follows |
| Session.TearDownLeadsToRest | Camera/EventDetectManager.cpp:119-136 | tearing the components down and bringing them up again is legal step by step and leaves the pipeline ready |
| Session.RecordingLeadsToRest | Camera/EventDetectManager.cpp:110-137 | so is the whole recording |
| Session.StreamingLeadsToRest | Camera/StreamManager.cpp:92-115 | so is a whole session, and it leaves flag_stream clear |
| Session.BootLeadsToRest | Camera/CameraManager.cpp:12-26 | so is the start-up |
| FileTransfer.ClientSocket.SendFile | Socket/ClientSocket.cpp:225-290 | appends the announcement and the chunks of the file, or nothing if it cannot be opened, and leaves sended at 0 |
| FileTransfer.ClientSocket.SendStream | Socket/ClientSocket.cpp:104-150 | the same for send_stream |
| FileTransfer.ClientSocket.SendCurrentPic | Socket/ClientSocket.cpp:170-212 | the same for send_current_pic |
| FileTransfer.ClientSocket.SendChunks | Socket/ClientSocket.cpp:263-275 | the loop ends and has sent ceil(size/8000) packets, each with its part of the file |
| FileTransfer.ChunksJoinToFile | Socket/ClientSocket.cpp:263-275 | the counted bytes of the packets put together are the file; all packets but the last are full |
| FileTransfer.CallExtendsLog | Socket/ClientSocket.cpp:278 | the logs of calls in any mixture are the transfers one after the other |
| FileTransfer.ReceiverReadsFilesBack | Socket/ClientSocket.cpp:123-149 | a receiver gets every opened file back from such a log, in order |

## Left out

- 32-bit overflow of offsets and sizes: the model uses unbounded integers; the sizes the node configures are far below it.
- YuvToRgb.TablesClampAndTruncate: exact arithmetic instead of the rounding of doubles; the loops that fill the tables are left out.
- JPEG encoding, printing, OMX parameter structures and error codes: foreign or without state of its own; an OMX call that fails ends the program.
- MotionDetect.Subtraction: the three images have one width, as BackgroundSubtraction passes them.
- Visibility of flags between threads without locks, and races on the deque: each statement or queue operation is one step.
- Content of the buffer that SwitchBufferFlush hands back: the flush is one step that may leave the flag set.
- Liveness of wake-ups: that a condition signal is not missed; the model allows it to be lost.
- Whether a change of the component state ends capturing on a port: only SwitchCapturePort and new components change it.
- Effects of MotorManager on the hardware, and its range test, which is always true.
- The POWERMEASURE branches, dates, MAC addresses, login, and the RTSP server set-up.
- Short reads, failing sends and a failing stat in ClientSocket: reads return all bytes asked for.
- BufferedSource.PiMemoryBufferedSource.DoGetNextFrame: the busy loop is followed only as far as the given arrivals reach; it may wait longer.
- DisableComponent and CloseComponet: nothing calls them.
