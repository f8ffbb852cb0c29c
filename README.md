# Real-time face censure: a Dafny model of its sequential core

The system is a four-process video-redaction pipeline. The capture process
(A) writes camera frames into a shared frame segment, throttled by an fps cap.
The detector (B) reads frames, finds faces and publishes the list of boxes in
a faces segment, then signals the renderer. The renderer (C) reads each
published list, fills or blurs every box on the frame and shows it. The
supervisor (D) spawns the three workers, changes their CPU affinity and
scheduling policy, sends fps and redaction-mode commands to the workers
through message queues, and terminates them.

This project models the rules underneath that plumbing and proves
properties about them:

- `Bytes`: the little-endian, two's-complement bytes that `memcpy` copies
  out of an `unsigned int`, an `int64_t` and a `long`.
- `Ipc`: `memcpy` into a mapped region, which is an array here, and a
  Boost.Interprocess message queue, which is a FIFO sequence. It also holds
  the `SYNC_BC` switch of `include/names.hpp`.
- `FrameLayout`: the frame segment (counter, timestamp, pixels) and the
  frame-size segment (three longs), as written and as read back.
- `Capture` (main_A): the `FrameSender` configuration cell, the frame-rate
  gate in exact integer nanoseconds, the fps listener and the capture loop.
- `FaceWire`: the face-list encoding `[4k, x, y, w, h, ...]` shared by B and C.
- `Detector` (main_B): flattening the detections, and the faces write
  followed by the sync message.
- `Renderer` (main_C): the `BlurDrawer` mode register and its `draw`
  dispatch, the mode listener, the stride-4 decode loop and one render
  cycle. Fill and blur stay abstract: an image is the captured pixels with
  the list of treatments applied on top.
- `Os`: the per-pid affinity and scheduling state changed by the
  supervisor's system calls, and the signals it sends.
- `Supervisor` (main_D): affinity, scheduling and menu mappings, the censure
  and fps commands, terminate-all, and one pass of the menu loop.
- `Pipeline`: a detection cycle followed by a render cycle.

Time is in integers. The gate compares `elapsed_ns * fps` with
`1e9 - 5e6 * fps`. It also models the caps the code lets through: fps 0
(`1.0/0` is +infinity, so no frame is ever written) and negative fps (the
interval is negative, so every frame is written). `GateMatchesSeconds`
proves that the integer rule equals the source's comparison in seconds, for
every non-zero fps.

Facts about the code that the model keeps as they are:

- At 30 fps a frame that comes 15 ms after the last write is rejected, even
  when it is 45 ms after an earlier one (`Capture.GateExample`).
- The code checks no capacity and no priority range, and has no readiness
  handshake. Unchecked capacities are preconditions here, and priorities
  are checked only by the kernel (`Os.KernelAcceptsScheduling`).
- Any integer fps is sent and applied.
- Affinity is always set to exactly one CPU.

## Model

| member | source | states |
|---|---|---|
| `Bytes.U32RoundTrip` | src/main_A.cpp:211 | the four bytes copied out of the `unsigned int` counter read back as the same counter |
| `Bytes.I64RoundTrip` | src/main_A.cpp:212 | the eight bytes copied out of the `int64_t` timestamp read back as the same timestamp |
| `Ipc.CopyInto` | src/main_A.cpp:211-213 | memcpy overwrites exactly cells [offset, offset+n) of the region; everything else is unchanged |
| `Ipc.MessageQueue.constructor` | src/main_D.cpp:263-274 | a freshly created queue holds no messages |
| `Ipc.MessageQueue.Send` | src/main_D.cpp:236 | a send appends the message at the end of the queue |
| `Ipc.MessageQueue.Receive` | src/main_C.cpp:194 | a receive takes the oldest message; on an empty queue it would block, nothing is taken and nothing changes |
| `FrameLayout.FrameBytes` | src/main_A.cpp:211-213 | one accepted write leaves a segment of exactly n+12 bytes whose bytes from offset 12 are the frame's pixels |
| `FrameLayout.FrameBytesLayout` | src/main_A.cpp:211-213 | counter at [0,4), timestamp at [4,12), pixels from 12: disjoint ranges exactly filling a segment of n+12 bytes |
| `FrameLayout.ReadFrame` | src/main_A.cpp:163 | reading at the writer's offsets yields a 32-bit counter, an int64 timestamp and n = size-12 pixel bytes |
| `FrameLayout.FrameRoundTrip` | src/main_A.cpp:211-213 | reading a written frame at the writer's offsets gives back its counter, timestamp and pixels |
| `FrameLayout.WriteFrame` | src/main_A.cpp:210-214 | after the three copies the segment holds exactly counter, timestamp and pixels at offsets 0, 4 and 12 |
| `FrameLayout.ReadFrameAsWritten` | src/main_B.cpp:196-201 | the readers take an 8-byte timestamp at offset 0 and n pixel bytes from offset 8 |
| `FrameLayout.ReaderViewOfWrittenFrame` | src/main_C.cpp:184-189 | on every written frame the readers' timestamp is the int64 read from the counter's four bytes followed by the timestamp's low four bytes; their image starts with the timestamp's high four bytes and misses the last four pixel bytes |
| `FrameLayout.ReadersMisreadFrame` | src/main_B.cpp:197-200 | frame 1 stamped 0 with pixels [7,7,7,7] is read as stamped 1 with pixels [0,0,0,0], while the writer's offsets recover it |
| `FrameLayout.FrameSizeRoundTrip` | src/main_A.cpp:171-174 | the 24-byte frame-size segment read back as three longs is exactly (rows, cols, channels) |
| `FrameLayout.WriteFrameSize` | src/main_A.cpp:170-174 | the single copy leaves rows, cols and channels as three longs in the 24-byte segment |
| `FrameLayout.HeaderDescribesFrame` | src/main_A.cpp:163-174 | the segment is rows*cols*channels + 12 bytes for the geometry in the header, and reading that many pixels at the writer's offset gives the frame's pixels |
| `Capture.Accepts` | src/main_A.cpp:207 | the integer form of the gate; with fps 0 it never accepts |
| `Capture.GateMatchesSeconds` | src/main_A.cpp:205-207 | for every non-zero fps the integer gate accepts iff elapsed seconds >= 1/fps - 0.005 |
| `Capture.GateDegenerateCaps` | src/main_A.cpp:75 | fps 0 never accepts another frame; a negative fps accepts every frame with non-negative elapsed time |
| `Capture.GateMonotone` | src/main_A.cpp:207 | for every cap, positive, negative or 0, if an elapsed time is accepted then every longer one is too |
| `Capture.FrameSender.constructor` | src/main_A.cpp:58-60 | a new cell has fps 30, interval 1/30 s and the changed flag set |
| `Capture.FrameSender.GetFrameRate` | src/main_A.cpp:62-68 | returns the interval, always 1/fps of the current fps |
| `Capture.FrameSender.SetFrameRate` | src/main_A.cpp:70-77 | stores any fps, sets the interval to 1/fps and raises the changed flag |
| `Capture.FrameSender.IsFpsChanged` | src/main_A.cpp:79-85 | returns the flag and clears it, leaving fps and interval alone |
| `Capture.FrameSender.GetFps` | src/main_A.cpp:87-92 | returns the stored fps |
| `Capture.ChangedFlagIsReadAndClear` | src/main_A.cpp:79-85 | on a new cell the first isFpsChanged says true, a second one false, and the fps is still 30 |
| `Capture.WaitForFpsChange` | src/main_A.cpp:97-112 | every received fps is applied in order, so the last one received wins and the flag is raised; with nothing received nothing changes |
| `Capture.Step` | src/main_A.cpp:197-216 | one event of the loop: a frame, written or dropped, never changes the frame rate or its change flag, and the counter stays a 32-bit value |
| `Capture.Write` | src/main_A.cpp:208-215 | an accepted frame: prev becomes the second clock reading, the frame is recorded with the current counter, the counter stays 32-bit and the segment has n+12 bytes |
| `Capture.Run` | src/main_A.cpp:195-217 | running the loop keeps the counter a 32-bit unsigned value and the segment its size |
| `Capture.WriteKeepsConsistent` | src/main_A.cpp:208-215 | one accepted write keeps the invariant: it is recorded with counter n mod 2^32, the counter becomes n+1 mod 2^32, and the segment holds that frame |
| `Capture.StepKeepsConsistent` | src/main_A.cpp:207-215 | one event keeps the loop invariant: the j-th accepted frame carries counter j mod 2^32, and the segment holds the latest accepted frame |
| `Capture.RunKeepsConsistent` | src/main_A.cpp:194-217 | the same invariant over a whole run, so the counter is the number of accepted frames mod 2^32; earlier writes stay in the history |
| `Capture.FrameStep` | src/main_A.cpp:207-216 | an accepted frame sets prev to the later clock reading, is written with the current counter and bumps it; a rejected frame changes nothing |
| `Capture.EmptyFrameEndsLoop` | src/main_A.cpp:197-203 | an empty frame ends the loop: nothing after it changes the outcome |
| `Capture.CaptureLoop` | src/main_A.cpp:185-217 | with prev at the epoch and the counter at 0, the loop leaves fps, flag, prev, counter and segment as `Run` of the events says |
| `Capture.GateExample` | src/main_A.cpp:205-208 | at 30 fps, with the last write 40 ms before the first frame, frames at 0, 10, 20, 30 and 45 ms: only those at 0 and 30 are written |
| `Capture.ThreeFrameExample` | src/main_A.cpp:205-215 | at 30 fps, with the last write 40 ms before the first frame, frames at 0, 5 and 40 ms: those at 0 and 40 are written, the counter ends at 2 and the last write mark is the one taken at 40 ms |
| `FaceWire.Flatten` | src/main_B.cpp:103-106 | four ints per face |
| `FaceWire.Unflatten` | src/main_C.cpp:207-211 | one rect per four ints |
| `FaceWire.FlattenAt` | src/main_B.cpp:103-106 | face j occupies ints 4j..4j+3 as (x, y, width, height) |
| `FaceWire.Encode` | src/main_B.cpp:103-112 | for every list of k faces, the empty one included, the payload is 1+4k ints and its first is the count 4k |
| `FaceWire.EncodeShape` | src/main_B.cpp:103-112 | face j of the encoding sits at ints 1+4j..4+4j |
| `FaceWire.UnflattenFlatten` | src/main_C.cpp:207-211 | decoding the flattened faces gives back the faces in order |
| `FaceWire.FlattenUnflatten` | src/main_C.cpp:207-211 | flattening the decoded rects gives back the ints, for any length that is a multiple of 4 |
| `FaceWire.DecodeRegion` | src/main_C.cpp:198-211 | a well-formed count 4k decodes to exactly k rects |
| `FaceWire.DecodeAt` | src/main_C.cpp:207-210 | rect j of a well-formed region is (region[1+4j], region[2+4j], region[3+4j], region[4+4j]) |
| `FaceWire.RegionRoundTrip` | src/main_B.cpp:216 | an encoded list written over the front of the region, whatever follows it, decodes to the same list |
| `Detector.Kept` | src/main_B.cpp:87-90 | no more faces are kept than there are detections |
| `Detector.KeptAppend` | src/main_B.cpp:87-110 | each detection is filtered on its own, and detection order is kept |
| `Detector.KeptSingle` | src/main_B.cpp:90-106 | a detection is kept iff its confidence is above the threshold, as (x1, y1, x2-x1, y2-y1) |
| `Detector.KeptFromConfident` | src/main_B.cpp:87-106 | every kept face comes from a confident detection |
| `Detector.DetectedFace` | src/main_B.cpp:85-113 | the vector built is the encoding of the kept faces: count first, then four ints per kept detection in order |
| `Detector.PublishFaces` | src/main_B.cpp:209-224 | the result is copied to the front of the faces region, the rest is untouched, and one sync message is sent |
| `Detector.DetectionCycle` | src/main_B.cpp:206-224 | after one cycle with at most 1023 kept faces, the region decodes to exactly the kept faces and a sync message is pending |
| `Renderer.Redacted` | src/main_C.cpp:92-112 | the symbolic image keeps its captured layer (the source overwrites those pixels in place, and the model records the fills and blurs as layers over them instead); for a mode other than 0 or 1 the image is returned unchanged |
| `Renderer.FillEachTreats` | src/main_C.cpp:94-103 | filling keeps the captured pixels and adds one fill per rect, in list order |
| `Renderer.BlurEachTreats` | src/main_C.cpp:105-108 | blurring keeps the captured pixels and adds one blur per rect, in list order |
| `Renderer.RedactedTreatments` | src/main_C.cpp:92-112 | mode 0 fills each rect, mode 1 blurs each rect, and any other mode returns the image unchanged |
| `Renderer.BlurDrawer.constructor` | src/main_C.cpp:79-81 | a new drawer has mode 0 |
| `Renderer.BlurDrawer.WithDrawInfo` | src/main_C.cpp:85-90 | the three-argument constructor stores the image, the list and the mode |
| `Renderer.BlurDrawer.GetMode` | src/main_C.cpp:62-67 | returns the stored mode |
| `Renderer.BlurDrawer.SetMode` | src/main_C.cpp:68-72 | stores any int as the mode and nothing else |
| `Renderer.BlurDrawer.SetDrawInfo` | src/main_C.cpp:74-78 | replaces the face list wholesale and the image, leaving the mode alone |
| `Renderer.BlurDrawer.Draw` | src/main_C.cpp:92-112 | the stored image becomes the redaction of the old image by the list under the mode, and is returned |
| `Renderer.ModeRegister` | src/main_C.cpp:55-81 | a new drawer reads mode 0; after set_mode(m) it reads m |
| `Renderer.WaitForModeChange` | src/main_C.cpp:117-132 | received values are applied in receive order, each exactly once and unvalidated; the mode ends as the last one |
| `Renderer.ReadFaces` | src/main_C.cpp:196-211 | for a count 4k within the region, the loop reads only copied ints 1..4k and yields the k rects in order |
| `Renderer.RenderCycle` | src/main_C.cpp:193-217 | the faces are read only after a sync message is taken; then the drawer holds the decoded list and shows the image redacted under the current mode |
| `Pipeline.DetectThenRender` | src/main_C.cpp:193-215 | a render after a detection cycle draws exactly the kept faces, in detection order, even with older signals still queued; the render takes the oldest signal |
| `Os.Kernel.SchedGetAffinity` | src/main_D.cpp:38 | gives the pid's mask, or an error for a pid that is not a process |
| `Os.Kernel.SchedSetAffinity` | src/main_D.cpp:97 | replaces only that pid's mask; an unknown pid is an error and changes nothing |
| `Os.Kernel.SchedGetScheduler` | src/main_D.cpp:51 | gives the pid's policy, or -1 (None) for a pid that is not a process |
| `Os.Kernel.SchedSetScheduler` | src/main_D.cpp:83 | sets policy and priority of an existing pid when the kernel accepts the pair; otherwise an error, nothing changes |
| `Os.Kernel.Kill` | src/main_D.cpp:340 | records the signal sent to the pid, in call order |
| `Os.Kernel.ForkExec` | src/main_D.cpp:281-287 | records that the forked pid runs the exec'd program, in fork order |
| `Supervisor.SpawnChildren` | src/main_D.cpp:278-307 | A, B and C are forked and exec'd in that order, the launch record grows by exactly those three, and childrenPids[i] is the process running program i |
| `Supervisor.SetAffinity` | src/main_D.cpp:88-100 | cpu < 0 or cpu >= online CPUs is refused with nothing changed; otherwise the pid's mask becomes exactly {cpu} |
| `Supervisor.AffinityBits` | src/main_D.cpp:42-46 | one bit per online CPU |
| `Supervisor.AffinityBitsMeaning` | src/main_D.cpp:44-46 | bit i is 1 iff CPU i is in the mask, and 0 otherwise |
| `Supervisor.AffinityBitsRecoverMask` | src/main_D.cpp:42-46 | the printed bits determine the mask on the online CPUs |
| `Supervisor.PrintAffinity` | src/main_D.cpp:36-48 | prints exactly those bits for a live pid, and reports an error otherwise |
| `Supervisor.SchedulingName` | src/main_D.cpp:57-75 | any policy other than the five known ones gets the error text |
| `Supervisor.SchedulingNamesDistinct` | src/main_D.cpp:57-75 | the five policies get five different names, and exactly the other values get the error text |
| `Supervisor.PrintScheduling` | src/main_D.cpp:50-78 | prints the policy's name for a live pid, and reports an error otherwise |
| `Supervisor.SetScheduling` | src/main_D.cpp:80-86 | passes policy and priority to the kernel unchecked |
| `Supervisor.ChildIndex` | src/main_D.cpp:119-129 | exactly '1'..'3' select a child, namely index option - '1' |
| `Supervisor.ProcessOptionSelectsChild` | src/main_D.cpp:112-129 | the prompt accepts exactly '1'..'3'; these select childrenPids[option-'1'], which is process A, B or C |
| `Supervisor.PolicyOfOption` | src/main_D.cpp:185-217 | exactly '1'..'5' select a policy, and it is a known one |
| `Supervisor.SchedulingRequest` | src/main_D.cpp:176-219 | a request exists iff the policy option is mapped; its policy is the mapped one and its priority is 0 unless the policy is FIFO or RR |
| `Supervisor.SchedulingOptionMeaning` | src/main_D.cpp:176-217 | '1'..'5' map to five distinct policies: OTHER, BATCH, IDLE, FIFO, RR; the priority entered is used for FIFO and RR only, otherwise it is 0 |
| `Supervisor.ChangeAffinityMenu` | src/main_D.cpp:102-143 | a refused option changes nothing; an accepted one gives the range error for a core outside [0, online CPUs), otherwise it pins the selected child to exactly {core} iff that child is a live process |
| `Supervisor.ChangeSchedulingMenu` | src/main_D.cpp:145-221 | a refused option changes nothing; accepted options succeed iff the selected child is live and the kernel accepts the mapped policy and priority, and success sets exactly those on that child |
| `Supervisor.ChangeCensureMenu` | src/main_D.cpp:226-237 | a mode is sent iff it is 0 or 1 |
| `Supervisor.ChangeFpsMenu` | src/main_D.cpp:239-248 | any integer is sent, including 0 and negative values |
| `Supervisor.Interrupts` | src/main_D.cpp:339-340 | one signal per child |
| `Supervisor.InterruptsEach` | src/main_D.cpp:339-340 | the j-th signal is SIGINT to child j |
| `Supervisor.TerminateAll` | src/main_D.cpp:338-341 | sends SIGINT to each child in order and returns 0 |
| `Supervisor.ExitSignalsEveryProgram` | src/main_D.cpp:338-341 | the i-th SIGINT of the exit path goes to the process that runs program i, so A, B and C are each reached |
| `Supervisor.TerminateSignalsEachChild` | src/main_D.cpp:338-341 | exactly one SIGINT to each of the three children, in spawn order |
| `Supervisor.MenuActionOf` | src/main_D.cpp:325-346 | '5' and only '5' exits; every option outside '1'..'5' is invalid |
| `Supervisor.SpawnThenExit` | src/main_D.cpp:278-341 | the launch record grows by exactly A, B and C with the fork pids, and then the exit path sends exactly one SIGINT to each launched program's pid, in launch order, and returns 0 |
| `Supervisor.MenuStep` | src/main_D.cpp:310-347 | option '5' returns 0 after signalling all children; '1' sends the mode iff it is 0 or 1; '2' and '3' change the selected child's tasks exactly as the affinity and scheduling rules say, and a refused process or policy option leaves the tasks as they were; '4' sends the fps; each option touches only its own state |

## Findings

| source | as written | input that shows it | evidently intended | confidence | as-written member | corrected member |
|---|---|---|---|---|---|---|
| src/main_B.cpp:197-200 | the detector takes the timestamp from offset 0 and the image from offset 8. The renderer does the same at src/main_C.cpp:185-188. The writer puts the counter at 0, the timestamp at 4 and the pixels at 12 | frame counter 1, timestamp 0, pixels [7,7,7,7]: it is read as timestamp 1 with pixels [0,0,0,0] | read at the writer's offsets 4 and 12 | not executed | `FrameLayout.ReadersMisreadFrame` | `FrameLayout.FrameRoundTrip` |

`FrameLayout.ReadFrameAsWritten` is the readers' code as written.
`FrameLayout.ReadFrame` reads at the writer's offsets. Frames are read
nowhere else in the model.

## Left out

- Camera, DNN and display: `cv::VideoCapture`, `readNetFromCaffe`, `blobFromImage`, `forward`, `imshow` and `waitKey` are foreign library calls. Frames, detections and images enter the model as parameters.
- The `capture.isOpened()` check and its error message (src/main_A.cpp:185, 219-221): device I/O.
- Float parts of detection (src/main_B.cpp:88-97): the confidence comparison and the corner scaling happen before the model. A detection enters as a keep flag and four integer corners.
- The detector passes `framesize[2]` (the channel count) where `cv::Mat` expects a type code (src/main_B.cpp:198-199). How pixels are interpreted belongs to the DNN and display side, which is not modelled.
- Pixel filters: `cv::rectangle` and `cv::GaussianBlur` are abstract treatments on a symbolic image.
- Renderer.BlurDrawer.Draw: in blur mode the model is valid only for rects inside the image. `image(r)` (src/main_C.cpp:107) throws a `cv::Exception` for a rect not inside the frame, and `cv::GaussianBlur` on the same line throws for an empty rect, whose `image(r)` is an empty Mat. Nothing catches it, so the renderer dies. `Blurred` accepts every rect. Detected corners come from scaled network outputs, which can fall outside the frame.
- Floating-point rounding: `GateMatchesSeconds` compares exact reals. The rounding of `1.0/fps` and of the double comparison is not modelled.
- Boost.Interprocess object lifecycle: create, open, remove, the remover structs, `truncate` and `mapped_region`. A segment is an array of its truncated size.
- Concurrency: named mutexes, `std::mutex` and the listener threads. The capture loop sees the fps listener's updates as `FpsMessage` events between frames.
- Queue sizes of 10 and 500 messages: a send to a full queue blocks, which is concurrent behaviour. The queues here are unbounded.
- Process and signal plumbing: `fork`, `execvp`, `sleep`, `kill` delivery and the `handleSIGINT` CPU-usage reports, which use `double` division. Fork results enter as pids, and fork or exec failure is not modelled.
- Interactive input: the `cin` retry loops, `system("clear")` and all printing. Each menu takes values already read; a value the prompt would refuse returns `None` or is not sent.
- "No such process" and the kernel's priority rule are the only `sched_*` failures modelled. EPERM (a real-time policy without privilege), EINVAL and other kernel errors are not.
- The 32-bit width of C `int` for face coordinates, widths and heights, and any overflow of `x2 - x1`, are not modelled. Coordinates come from scaling unit-square outputs to the frame size.
- `SAVE_PROCESSING_TIME` logging in the renderer: it is switched off in include/names.hpp.
- perf_test/analyze.py is not part of this model. It reads a file and computes statistics.
- Capture.CaptureLoop: requires every frame to have the first frame's byte size and an int64 timestamp. The code does not check the size; a different size overflows or short-writes the segment.
- Detector.PublishFaces: requires the result to fit the 4096-int faces region (at most 1023 faces). The code copies without checking.
- Renderer.ReadFaces: requires the count to be a non-negative multiple of 4 whose ints lie inside the region. The code trusts the count and reads out of bounds otherwise.
- Capture.WaitForFpsChange: the source loops forever, blocking on receive. The model stops when the queue is empty.
- Renderer.WaitForModeChange: the source loops forever, blocking on receive. The model stops when the queue is empty.
