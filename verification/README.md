# Calibration and GPU host logic, modelled in Dafny

This project models the host logic of a stereo-camera calibration and stitching system written in C++: how much
device memory a feature detection takes and how its image width is chosen, the wire protocol and descriptor
handshake between the supervisor, guardian and worker processes, the worker's system-call filters and scratch
quota, the provenance and context rules of the CUDA backend, a colour-conversion kernel, and the matching, sampling
and optimisation steps of the calibration itself. Each module states what its component promises and proves it for
every input, every run or every interleaving.

## Structure

| module | component |
|---|---|
| `Results`, `Arithmetic` | failure-carrying results; facts about products and quotients |
| `GpuGeometry`, `GpuWorkspace`, `GpuDetect`, `FedSteps` | detector geometry, memory bound, allocation skeleton, diffusion-step order |
| `WireBytes`, `WireRecords`, `WireSuccess`, `WireResult`, `WireSize`, `WireFrame`, `WireResponse`, `WireRequest` | the worker protocol, from big-endian words to whole messages |
| `Channel`, `Handshake` | exact transfers over a socket; the two-leg descriptor handshake |
| `SyscallFilter`, `SyscallPrograms` | the filter interpreter and rule expansion; the four programs |
| `ScratchTree` | the scratch quota walk |
| `CudaAlias`, `CudaContext` | span provenance, context discipline |
| `Nv12Kernel`, `Nv12Aliasing` | RGBA to NV12, and the same on physical memory behind the alias tests |
| `JsonDuplicates`, `JsonStrings`, `JsonNumbers` | duplicate-key checker, string escaping, number rewriting |
| `Matcher`, `Sampling`, `FrameReader`, `NelderMead` | descriptor matching, frame selection and reading, the optimizer |

Stateful code is modelled by classes and methods with loops, each proved against a specification function; the
properties themselves are lemmas about those functions and invariants of the state machines. Exceptions are `None`
or `Failure` values. Driver and system calls are steps whose outcome is part of the input.

## Findings

- Execution batches that overlap and are closed oldest first leave the first stream's context current although every
  driver call succeeded (`CudaContext.OverlapRestoresWrongContext`). The promise holds for newest-first closing
  (`CudaContext.NestedRunRestores`). For any order `CudaContext.OriginDecides` gives the exact condition on the
  caller's own openings and closings: follow each closing back to what stood before that batch's opening; the caller's
  context is current exactly if this leads to no opening, or to one on a stream with that same context.
- Rewriting a number text keeps its value always, but `0.5e1` becomes `05.0`, which is no JSON number
  (`JsonNumbers.LeadingZeroMoves`); `JsonNumbers.RewriteGrammar` gives the exact condition. The shortest form the
  program prints has a single nonzero leading digit, or is zero with exponent zero, and meets it.
- The width search of the detector relies on peak bytes being monotone in the width although the resize buffer
  disappears at full crop width; `GpuWorkspace.ResizeBelowLevels` shows that the first level always pays for it.
- The optimizer's inertial start keeps the third angle at zero even when that angle has a seed of its own
  (`NelderMead.InertialLosesSeed`), while the other starts take the seed; they agree exactly if the angle is locked or
  its seed is missing or zero (`NelderMead.InertialAgrees`).

## Assumptions

- A rounding is any monotone function on reals that fixes the integers up to the largest dimension
  (`GpuGeometry.IsRounding`); floating-point words on the wire are opaque bit patterns with exact predicates for
  finiteness and sign; distances, ratios, sampling positions and optimizer costs are exact reals.
- The validations of a calibration and of a request, which the protocol runs at its ends, are parameters of the
  codec theorems; they hold for every such validation.
- A failed context switch leaves the current context unchanged. The driver's answer about a mapping is the truth
  about the granule it is given for, and mappings are aligned to the granularity.
- No output plane has one physical byte behind two of its own output bytes (`Nv12Aliasing.Unfolded`).
- A scratch tree does not change during one walk and has distinct, usable names in every directory.
- A size is 64 bits wide, so reading a 64-bit count never exceeds it.

## Model

| member | source | states |
|---|---|---|
| `GpuGeometry.InputsExact` | cpp/reco_calibrate/src/gpu_features.cpp:223-298 | the frames and configurations that are accepted, in plain numbers |
| `GpuGeometry.CropAxis` | cpp/reco_calibrate/src/gpu_features.cpp:304-336 | for every accepted region the crop contains the region's pixel endpoints and reaches exactly 32 pixels past them as far as the frame goes |
| `GpuGeometry.CropExact` | cpp/reco_calibrate/src/gpu_features.cpp:325-335 | a region's crop is used exactly if it covers less than three quarters of the frame, rounded down, and starts at its own corner; otherwise the whole frame is |
| `GpuGeometry.EndpointsOrdered` | cpp/reco_calibrate/src/gpu_features.cpp:261-316 | a nonempty fractional region always covers at least one pixel: the rounded low endpoint lies below the rounded high one |
| `GpuGeometry.ScaledHeightMonotone` | cpp/reco_calibrate/src/gpu_features.cpp:338-347 | under any monotone rounding that fixes representable integers, a wider detection image is never lower and never higher than the crop |
| `GpuGeometry.ScaledHeightProportional` | cpp/reco_calibrate/src/gpu_features.cpp:338-344 | in exact arithmetic the detection height is the crop's height scaled by the width, cut to an integer |
| `GpuGeometry.DetectionGeometry` | cpp/reco_calibrate/src/gpu_features.cpp:300-352 | the crop is carried over, the width is the smaller of limit and crop, the height is the scaled one only where the limit binds, and the only refusal is a scaled height of zero |
| `GpuGeometry.GeometryMonotone` | cpp/reco_calibrate/src/gpu_features.cpp:300-352 | raising only the width limit keeps an accepted frame accepted, keeps the crop, and never shrinks the detection image |
| `GpuGeometry.LevelsWithinLimits` | cpp/reco_calibrate/src/gpu_features.cpp:354-395 | the scale space of any image has at most 64 levels and its pixel total fits 32 bits |
| `GpuGeometry.LevelShapes` | cpp/reco_calibrate/src/gpu_features.cpp:354-386 | every level keeps at least 40 pixels on each side and belongs to a configured octave |
| `GpuGeometry.LevelsExact` | cpp/reco_calibrate/src/gpu_features.cpp:358-384 | exactly which levels there are: per octave whose shorter side keeps 40 pixels, one if it is under 80, else as many as configured, of the image divided by the octave's power of two |
| `GpuGeometry.LevelsInOrder` | cpp/reco_calibrate/src/gpu_features.cpp:358-384 | they come octave by octave and sublevel by sublevel |
| `GpuGeometry.MakeEvolutionSpecs` | cpp/reco_calibrate/src/gpu_features.cpp:354-395 | the octave loop builds exactly the recursive level list, each with the pixel base of all levels before it, and fails only if no level forms |
| `GpuWorkspace.ScanScratchBytes` | cpp/reco_calibrate/src/gpu_features.cpp:397-411 | the scan-scratch loop equals the recursive size of a block scan and never overflows for any 32-bit count |
| `GpuWorkspace.AlignedBytesExact` | cpp/reco_calibrate/src/gpu_features.cpp:131-136 | an image takes as many rows as it is high of the one multiple of 256 bytes that just holds a row of floats |
| `GpuWorkspace.PeakWorkspaceBytes` | cpp/reco_calibrate/src/gpu_features.cpp:417-477 | the checked running totals reach exactly the closed peak formula; no addition or product overflows for any accepted geometry |
| `GpuWorkspace.LevelPeakIsWorst` | cpp/reco_calibrate/src/gpu_features.cpp:431-445 | the level bound is the worst, over the levels, of base, four images of each earlier level, and eight of the first or twelve of a later one |
| `GpuWorkspace.PeakInNumbers` | cpp/reco_calibrate/src/gpu_features.cpp:417-477 | the peak is the worst of the resize, of building any level and of the selection, each given in plain numbers, plus 64 MiB |
| `GpuWorkspace.PeakLimit` | cpp/reco_calibrate/src/gpu_features.cpp:417-477 | for every accepted geometry the peak is far below the 64-bit range, which is why the checked arithmetic cannot fail |
| `GpuWorkspace.UsableScaleSpace` | cpp/reco_calibrate/src/gpu_features.cpp:358-384 | a scale space forms exactly when both sides of the detection image have at least 40 pixels |
| `GpuWorkspace.TailsEmbed` | cpp/reco_calibrate/src/gpu_features.cpp:354-386 | the levels of a smaller detection image are a thinned and shrunken copy of those of a larger one, first level on first level |
| `GpuWorkspace.ResizeBelowLevels` | cpp/reco_calibrate/src/gpu_features.cpp:417-477 | the resize buffer that disappears at full crop width is always paid for by the eight images of the wider first level |
| `GpuWorkspace.PeakMonotone` | cpp/reco_calibrate/src/gpu_features.cpp:417-477 | peak bytes never shrink when the detection image grows, across octave and sublevel thresholds |
| `GpuWorkspace.WorkspaceMonotone` | cpp/reco_calibrate/src/gpu_features.cpp:574-627 | feasibility and bytes are both monotone in the width limit, the unstated assumption of the two searches |
| `GpuWorkspace.CandidateWorkspace` | cpp/reco_calibrate/src/gpu_features.cpp:581-591 | the per-width computation, which both searches call, is geometry, levels and peak for a configuration that differs only in the width |
| `GpuWorkspace.LowestUsableWidth` | cpp/reco_calibrate/src/gpu_features.cpp:597-611 | the first binary search finds the least width that forms a scale space |
| `GpuWorkspace.GreatestFittingWidth` | cpp/reco_calibrate/src/gpu_features.cpp:613-627 | the second binary search finds the greatest width within the byte limit |
| `GpuWorkspace.SearchWidth` | cpp/reco_calibrate/src/gpu_features.cpp:574-627 | both searches together return the greatest fitting width, and refuse exactly when the configured width is unusable or none fits |
| `GpuWorkspace.FitWorkspace` | cpp/reco_calibrate/src/gpu_features.cpp:574-627 | the returned configuration differs only in its width, the greatest up to the configured one that is usable and within the limit; it refuses exactly invalid input, a zero limit, an unusable configured width, or a limit no width meets |
| `GpuDetect.Device.Gaussian` | cpp/reco_calibrate/src/gpu_features.cpp:689-706 | one temporary is live only inside the call; the output stays allocated |
| `GpuDetect.Device.ExclusiveScan` | cpp/reco_calibrate/src/gpu_features.cpp:776-812 | the recursive scan leaves exactly the scan scratch allocated in the caller's vector |
| `GpuDetect.Device.BuildLevels` | cpp/reco_calibrate/src/gpu_features.cpp:941-1053 | building the levels keeps four images of each and never passes the level peak |
| `GpuDetect.Device.Select` | cpp/reco_calibrate/src/gpu_features.cpp:1055-1250 | suppression, scans, 32 radix scans and selection never pass the selection peak for any candidate count, and reach it when every pixel is a candidate |
| `GpuDetect.Device.Detect` | cpp/reco_calibrate/src/gpu_features.cpp:873-1250 | at every allocation point the live bytes stay below the accounted peak minus its margin, for every geometry and candidate count; afterwards only the feature set stays allocated |
| `GpuDetect.SelectionSplits` | cpp/reco_calibrate/src/gpu_features.cpp:417-477 | the accountant charges the worst candidate count and exactly that at the worst case |
| `GpuDetect.AdmitAndDetect` | cpp/reco_calibrate/src/gpu_features.cpp:873-903 | an admitted detection never holds more than the detector limit nor more than free memory less headroom; it is refused as invalid or for memory exactly if the frame, the configuration or the bound is, or the bound and the headroom exceed free memory, and then allocates nothing |
| `FedSteps.PrimeSplitsNothing` | cpp/reco_calibrate/src/gpu_features.cpp:491-531 | a prime divides no product of two smaller positive numbers (Euclid), the fact behind the stride order |
| `FedSteps.PrimeAbove` | cpp/reco_calibrate/src/gpu_features.cpp:514-517 | above every count there is a prime, so the next-prime search ends |
| `FedSteps.IsPrime` | cpp/reco_calibrate/src/gpu_features.cpp:479-489 | the trial division up to the root decides primality |
| `FedSteps.NextPrime` | cpp/reco_calibrate/src/gpu_features.cpp:514-517 | the search returns the least prime above the count |
| `FedSteps.StridePermutes` | cpp/reco_calibrate/src/gpu_features.cpp:513-528 | a stride below a prime visits every index below the count exactly once |
| `FedSteps.CursorLoop` | cpp/reco_calibrate/src/gpu_features.cpp:518-529 | the cursor loop emits exactly the visited indices, and its cursor never passes prime minus one |
| `FedSteps.StepOrder` | cpp/reco_calibrate/src/gpu_features.cpp:491-531 | for every count of at least two the emitted order is a permutation of the steps, and it is that of rising cursors, each step one less than its cursor times half the count modulo the least prime above the count |
| `FedSteps.Reorder` | cpp/reco_calibrate/src/gpu_features.cpp:491-531 | the reordered steps are the steps read in that order, so the same multiset of steps; one step or none is kept as it is |
| `WireBytes.DigitsExact` | cpp/reco_calibrate/src/calibration_worker_protocol.cpp:41-60 | the n big-endian base-256 digits of a value stand at an offset exactly when the bytes there have that value |
| `WireBytes.HalvesWritten` | cpp/reco_calibrate/src/calibration_worker_protocol.cpp:41-60 | splitting a word by shifts, as the writers do, gives the digits of the whole word |
| `WireBytes.ValueJoin` | cpp/reco_calibrate/src/calibration_worker_protocol.cpp:110-136 | joining two halves by shifts, as the readers do, gives the value of the whole word |
| `WireBytes.FieldExact` | cpp/reco_calibrate/src/calibration_worker_protocol.cpp:97-136 | a fixed-width field is read at an offset exactly when a fitting value's encoding stands there |
| `WireBytes.TextExact` | cpp/reco_calibrate/src/calibration_worker_protocol.cpp:140-149 | a text is read exactly when a text within the limit is encoded there, with its own length |
| `WireBytes.FieldsExact` | cpp/reco_calibrate/src/calibration_worker_protocol.cpp:97-136 | any run of fixed-width fields is read exactly when the concatenated encodings stand there |
| `WireBytes.Writer.U64` | cpp/reco_calibrate/src/calibration_worker_protocol.cpp:46-54 | appends the eight big-endian bytes of the word, or fails only because the payload limit would be passed |
| `WireBytes.Writer.Text` | cpp/reco_calibrate/src/calibration_worker_protocol.cpp:62-69 | refuses a text over its limit, otherwise appends length and bytes or fails only on the payload limit |
| `WireBytes.Reader.U64` | cpp/reco_calibrate/src/calibration_worker_protocol.cpp:122-126 | returns the big-endian word at the offset and advances past it, or fails because fewer bytes are left |
| `WireBytes.Reader.Text` | cpp/reco_calibrate/src/calibration_worker_protocol.cpp:140-149 | returns the text the decoder defines and advances exactly past it |
| `WireRecords.OptTextExact` | cpp/reco_calibrate/src/calibration_worker_protocol.cpp:71-78 | an optional text is read exactly where one within the limit was written |
| `WireRecords.CameraExact` | cpp/reco_calibrate/src/calibration_worker_protocol.cpp:215-239 | a camera is read exactly where that camera was written |
| `WireRecords.RoiExact` | cpp/reco_calibrate/src/calibration_worker_protocol.cpp:241-272 | the optional field polygons are read exactly where polygons of at most 256 finite points were written |
| `WireRecords.WriteRoiPoints` | cpp/reco_calibrate/src/calibration_worker_protocol.cpp:241-254 | writes the polygon or refuses one that is too long or has a coordinate that is not finite |
| `WireRecords.ReadRoiPoints` | cpp/reco_calibrate/src/calibration_worker_protocol.cpp:256-272 | the reading loop agrees with the decoder on value, offset and failure |
| `WireRecords.ProfileExact` | cpp/reco_calibrate/src/calibration_worker_protocol.cpp:274-299 | an optional lens profile is read exactly where one with legal texts and a known source was written |
| `WireRecords.WriteProfile` | cpp/reco_calibrate/src/calibration_worker_protocol.cpp:274-283 | writes the profile or refuses one with a text over its limit |
| `WireRecords.ReadProfile` | cpp/reco_calibrate/src/calibration_worker_protocol.cpp:285-299 | agrees with the decoder on value, offset and failure |
| `WireSuccess.PointsExact` | cpp/reco_calibrate/src/calibration_worker_protocol.cpp:364-385 | a run of correspondences is read exactly where finite ones were written |
| `WireSuccess.FrameExact` | cpp/reco_calibrate/src/calibration_worker_protocol.cpp:636-648 | a frame summary is read exactly where a consistent one was written: point count equal to the last filter, within the per-frame and running limits |
| `WireSuccess.FramesExact` | cpp/reco_calibrate/src/calibration_worker_protocol.cpp:635-649 | the frame list is read exactly where at most 256 consistent frames were written |
| `WireSuccess.WriteFrames` | cpp/reco_calibrate/src/calibration_worker_protocol.cpp:635-649 | the nested writing loops append exactly the encoding of the list |
| `WireSuccess.ReadFrameList` | cpp/reco_calibrate/src/calibration_worker_protocol.cpp:708-740 | the reading loop with its running correspondence count agrees with the decoder |
| `WireResult.ResultDecodes` | cpp/reco_calibrate/src/calibration_worker_protocol.cpp:609-661 | every legal result reads back from its payload |
| `WireResult.ResultAccepted` | cpp/reco_calibrate/src/calibration_worker_protocol.cpp:671-752 | every payload the reader accepts to its last byte is the encoding of the legal result it returns |
| `WireResult.WriteResult` | cpp/reco_calibrate/src/calibration_worker_protocol.cpp:609-661 | the straight line of writes appends exactly the encoding, or fails because a part is illegal or the limit is passed |
| `WireResult.ReadResult` | cpp/reco_calibrate/src/calibration_worker_protocol.cpp:671-748 | the straight line of reads, ending at the last byte, is the decoder |
| `WireSize.PartSizes` | cpp/reco_calibrate/src/calibration_worker_protocol.hpp:27-49 | the length of a payload is the sum of its parts with the header's constants |
| `WireSize.SuccessFrameBound` | cpp/reco_calibrate/src/calibration_worker_protocol.cpp:461-471 | a result with at most F frames and K points per frame never encodes past the announced maximum, and reaches it exactly if every field is full |
| `WireSize.PayloadFits` | cpp/reco_calibrate/src/calibration_worker_protocol.hpp:47-57 | every legal payload fits the protocol's own limit, so the writer never runs out of room |
| `WireFrame.HeaderExact` | cpp/reco_calibrate/src/calibration_worker_protocol.cpp:433-459 | a header decodes to a message and size exactly if it is the header written for them |
| `WireFrame.HeaderLayout` | cpp/reco_calibrate/src/calibration_worker_protocol.cpp:183-199 | the header byte by byte: RCAL, version 4, message code and size, big-endian |
| `WireFrame.LimitsExact` | cpp/reco_calibrate/src/calibration_worker_protocol.hpp:13-51 | the greatest frame of each message in bytes |
| `WireFrame.FramingExact` | cpp/reco_calibrate/src/calibration_worker_protocol.cpp:183-213 | parsing yields a message and payload exactly for the one frame made of them |
| `WireFrame.FramesPrefixFree` | cpp/reco_calibrate/src/calibration_worker_protocol.cpp:183-213 | no frame is a proper prefix of another |
| `WireFrame.MakeFrame` | cpp/reco_calibrate/src/calibration_worker_protocol.cpp:183-199 | frames exactly the nonempty payloads within the message's limit |
| `WireFrame.ReadHeader` | cpp/reco_calibrate/src/calibration_worker_protocol.cpp:433-459 | the header reader is the header decoder |
| `WireFrame.Parse` | cpp/reco_calibrate/src/calibration_worker_protocol.cpp:201-213 | the frame parser is the decoder of frames |
| `WireResponse.ValidateResultCounts` | cpp/reco_calibrate/src/calibration_worker_protocol.cpp:405-429 | the counting loop accepts exactly the consistent results: filters descend, counts match, totals add up |
| `WireResponse.EncodableIsOk` | cpp/reco_calibrate/src/calibration_worker_protocol.cpp:387-429 | passing the whole-result checks and legal parts is what the reader and the checks together demand |
| `WireResponse.EncodableMeans` | cpp/reco_calibrate/src/calibration_worker_protocol.cpp:387-429 | in plain numbers what a sendable, and so every answered, result satisfies: valid calibration, finite measures not below zero, confidence up to one, at most 256 frames of descending counts and finite points, totals that add up, polygons and texts within limits |
| `WireResponse.SuccessBijection` | cpp/reco_calibrate/src/calibration_worker_protocol.cpp:609-752 | the decoder answers a result on exactly the one frame the encoder makes of it, and the encoder makes one for exactly the encodable results |
| `WireResponse.FailureRoundTrip` | cpp/reco_calibrate/src/calibration_worker_protocol.cpp:664-684 | a failure text always goes out, cut to the limit, and comes back; only such frames are read as failures |
| `WireResponse.EncodeSuccess` | cpp/reco_calibrate/src/calibration_worker_protocol.cpp:609-662 | returns the frame of every encodable result and refuses every other |
| `WireResponse.EncodeFailure` | cpp/reco_calibrate/src/calibration_worker_protocol.cpp:664-669 | frames the text cut to the limit, always |
| `WireResponse.DecodeResponse` | cpp/reco_calibrate/src/calibration_worker_protocol.cpp:671-752 | is the response decoder, request frames and every malformed frame refused |
| `WireResponse.MaximumAttained` | cpp/reco_calibrate/src/calibration_worker_protocol.cpp:461-471 | for every pair of limits a sendable result has exactly the maximum length |
| `WireRequest.IdentityExact` | cpp/reco_calibrate/src/calibration_worker_protocol.cpp:301-348 | an optional file identity is read exactly where one with legal nanoseconds was written |
| `WireRequest.InputExact` | cpp/reco_calibrate/src/calibration_worker_protocol.cpp:473-486 | one video input is read exactly where one with legal paths and identities was written |
| `WireRequest.SettingsExact` | cpp/reco_calibrate/src/calibration_worker_protocol.cpp:487-520 | the configuration is read exactly where it was written, seeds and flags included |
| `WireRequest.BodyExact` | cpp/reco_calibrate/src/calibration_worker_protocol.cpp:473-602 | a request payload is read exactly if it is the encoding of the legal request it gives |
| `WireRequest.RequestMeans` | cpp/reco_calibrate/src/calibration_worker_protocol.cpp:301-348 | in plain numbers what the protocol demands of a request: paths of at most 16 KiB and nanoseconds under a second |
| `WireRequest.RequestBijection` | cpp/reco_calibrate/src/calibration_worker_protocol.cpp:473-607 | the decoder returns a request on exactly the one frame the encoder makes of it, provided the request is valid |
| `WireRequest.EncodeRequest` | cpp/reco_calibrate/src/calibration_worker_protocol.cpp:473-532 | returns the frame of every legal request that fits its limit and refuses every other |
| `WireRequest.DecodeRequest` | cpp/reco_calibrate/src/calibration_worker_protocol.cpp:534-607 | is the request decoder with the validation at its end |
| `Channel.Stream.WriteAll` | cpp/reco_calibrate/src/calibration_supervisor.cpp:2281-2298 | under every schedule of short sends and retries all bytes go out in order exactly if the schedule delivers them, otherwise a proper prefix |
| `Channel.Stream.ReadExact` | cpp/reco_calibrate/src/calibration_supervisor.cpp:2300-2317 | exactly the next bytes are returned and consumed if they are there and the schedule delivers them, otherwise fewer are consumed |
| `Channel.Stream.ReadFrame` | cpp/reco_calibrate/src/calibration_supervisor.cpp:2319-2340 | header then payload gives exactly the frame the peer wrote and touches no following byte; besides the transport only the success limit refuses |
| `Channel.ConformingSizeAccepted` | cpp/reco_calibrate/src/calibration_supervisor.cpp:2319-2340 | a result within the requested frame and keypoint counts is never refused for its size |
| `Handshake.BytesAdvance` | cpp/reco_calibrate/src/calibration_worker.cpp:55-90 | any chunk the receiver may ask for inside the frame lies inside the frame and moves it to the matching state |
| `Handshake.StepOnScript` | cpp/reco_calibrate/src/calibration_supervisor.cpp:2449-2480 | no send, receive or end of stream takes an agreed leg off its script: no error, no marker read as frame bytes, no frame byte as marker |
| `Handshake.Progress` | cpp/reco_calibrate/src/calibration_supervisor.cpp:2449-2480 | an agreed leg can always go on until its receiver is finished |
| `Handshake.LegDelivers` | cpp/reco_calibrate/src/calibration_supervisor.cpp:4420-4451 | every run of an agreed leg is error-free and bounded, and when it can go no further the receiver has the request and exactly the files sent, in order, with nothing left over |
| `Handshake.ReceiverSound` | cpp/reco_calibrate/src/calibration_worker.cpp:407-429 | whatever is sent, under any schedule, a receiver that finishes has taken exactly the markers it was to ask for before and after the request, and its request is what its buffer decodes to |
| `Handshake.NoHang` | cpp/reco_calibrate/src/calibration_supervisor.cpp:2449-2470 | whatever is sent, a receiver where nothing can happen any more has finished or given up |
| `Handshake.MarkChecked` | cpp/reco_calibrate/src/calibration_supervisor.cpp:4431-4451 | a marker is refused exactly if it is not the one asked for or carries no file |
| `Handshake.SupervisorMarksExpected` | cpp/reco_calibrate/src/calibration_supervisor.cpp:4574-4590 | for every combination of optional profiles the supervisor's markers are those the guardian asks for, namely I and J, then K and M where a profile is named |
| `Handshake.ReceivedFromOpening` | cpp/reco_calibrate/src/calibration_supervisor.cpp:4568-4573 | the guardian asks for L, X and C on its own account, and each opening variable holds the file sent under its marker |
| `Handshake.ReceivedFromClosing` | cpp/reco_calibrate/src/calibration_worker.cpp:407-429 | each receiving variable holds what was sent under its marker, or nothing |
| `Handshake.ForwardedAgrees` | cpp/reco_calibrate/src/calibration_supervisor.cpp:4345-4364 | the guardian forwards the same frame and the same files, so the worker's leg agrees too |
| `Handshake.HandshakeDelivers` | cpp/reco_calibrate/src/calibration_supervisor.cpp:4345-4590 | for every valid request and every schedule on both sockets neither receiver fails and a leg that can go no further has finished its receiver; a finished guardian, which asks for L, X and C on its own account, holds the admission, executable and group files under those, and a finished worker holds the request and exactly the supervisor's files |
| `SyscallFilter.RunAtIsRun` | cpp/reco_calibrate/src/calibration_supervisor.cpp:2543-2559 | stepping a program counter through forward jumps is running the code that is left |
| `SyscallFilter.BitAndDigits` | cpp/reco_calibrate/src/calibration_supervisor.cpp:2543-2559 | the interpreter's conjunction has a one exactly where both words have one |
| `SyscallFilter.BlockCorrect` | cpp/reco_calibrate/src/calibration_supervisor.cpp:2575-2725 | one expanded rule returns its verdict or reaches the next block with the call number loaded again |
| `SyscallFilter.AssembleCorrect` | cpp/reco_calibrate/src/calibration_supervisor.cpp:2575-2725 | expanding any ordered rule list preserves its first-match meaning, for every tail |
| `SyscallFilter.EndingCorrect` | cpp/reco_calibrate/src/calibration_supervisor.cpp:2543-2559 | each closing block returns its verdict on every call |
| `SyscallFilter.ProgramCorrect` | cpp/reco_calibrate/src/calibration_supervisor.cpp:2543-2725 | every program of this shape always returns: the kill verdict for a foreign architecture or number space, else the first matching rule's, else the ending's |
| `SyscallFilter.OwnRuleDecides` | cpp/reco_calibrate/src/calibration_supervisor.cpp:3007-3180 | with one rule per call number the order of the rules does not matter |
| `SyscallFilter.DeniedNeverAllowed` | cpp/reco_calibrate/src/calibration_supervisor.cpp:3007-3180 | a denied call stays denied wherever its rule stands, if no other rule could allow it |
| `SyscallPrograms.DeniesDecide` | cpp/reco_calibrate/src/calibration_supervisor.cpp:3007-3180 | a list of denials refuses exactly the listed calls that the headers define |
| `SyscallPrograms.InitialExecVerdict` | cpp/reco_calibrate/src/calibration_supervisor.cpp:2543-2559 | only the pinned descriptor may be executed |
| `SyscallPrograms.PreMainProgramVerdict` | cpp/reco_calibrate/src/calibration_supervisor.cpp:2572-2725 | the pre-main program returns the verdict of its rule table for every call, under every set of defined call numbers |
| `SyscallPrograms.PreMainVerdictByNumber` | cpp/reco_calibrate/src/calibration_supervisor.cpp:2572-2725 | that verdict call by call over the numbered names, runs of refused calls included, so none is left out of a list |
| `SyscallPrograms.TruncationProgramVerdict` | cpp/reco_calibrate/src/calibration_supervisor.cpp:2737-2775 | the legacy truncation program refuses exactly its listed calls |
| `SyscallPrograms.WorkerProgramVerdict` | cpp/reco_calibrate/src/calibration_supervisor.cpp:3007-3333 | the worker program returns the verdict of its rule table for every call, under every set of defined call numbers |
| `SyscallPrograms.WorkerVerdictByNumber` | cpp/reco_calibrate/src/calibration_supervisor.cpp:3007-3333 | that verdict call by call over the numbered names: 0 to 18, 22 to 50 and 54 to 57 refused, eight decided by their arguments or with errors of their own, the rest allowed |
| `ScratchTree.WalkTo` | cpp/reco_calibrate/src/calibration_supervisor.cpp:1936-1962 | the component loop reaches the directory a pending path names, opening one directory per name, and stops only on the component budget or a failed call |
| `ScratchTree.NextComponent` | cpp/reco_calibrate/src/calibration_supervisor.cpp:1938-1943 | cutting at the next slash gives the first name and leaves the path of the others |
| `ScratchTree.ListEntry` | cpp/reco_calibrate/src/calibration_supervisor.cpp:1979-2019 | one entry is counted, sized and queued, the pending-path total stays the length of the queue, and every early verdict is justified |
| `ScratchTree.ListDirectory` | cpp/reco_calibrate/src/calibration_supervisor.cpp:1969-2024 | listing a directory pays its entries and queues its subdirectories, so paid plus pending is still the whole tree |
| `ScratchTree.ExpandPending` | cpp/reco_calibrate/src/calibration_supervisor.cpp:1926-2026 | the worklist keeps paid plus pending equal to the whole tree, so it ends, and what it expanded is what the tree holds |
| `ScratchTree.InspectScratchTree` | cpp/reco_calibrate/src/calibration_supervisor.cpp:1909-2027 | the walk ends; a passing verdict means the blocks and the inodes of the whole tree are within both limits and each directory was expanded as often as it occurs; every other verdict names a limit the tree really passes, or a failed call; and without failing calls, where no traversal budget can run out, the tree passes if and only if its blocks and inodes are within the limits |
| `ScratchTree.TotalIsTree` | cpp/reco_calibrate/src/calibration_supervisor.cpp:1909-2027 | the walk's account adds up the inodes and blocks of the tree, by plain recursion |
| `ScratchTree.DirectoriesExact` | cpp/reco_calibrate/src/calibration_supervisor.cpp:1926-1962 | the directories of the account are exactly those some list of names reaches from the root |
| `ScratchTree.ExpandedOnce` | cpp/reco_calibrate/src/calibration_supervisor.cpp:1928-1936 | no directory is expanded twice |
| `CudaAlias.AppendRange` | cpp/reco_core/src/cuda_backend.cpp:547-560 | appending to the coalesced ranges adds exactly the new bytes, once, in order |
| `CudaAlias.NoteIdentity` | cpp/reco_core/src/cuda_backend.cpp:1600-1630 | a reported mapping that does not cover the piece is an error; otherwise the recorded bytes are the piece's offsets in that mapping |
| `CudaAlias.KeepHandle` | cpp/reco_core/src/cuda_backend.cpp:1632-1647 | each distinct allocation handle is held once and every extra reference is given back; it fails exactly if there is no handle, or one already held cannot be given back |
| `CudaAlias.RetainGranules` | cpp/reco_core/src/cuda_backend.cpp:1577-1661 | the span is retained if and only if every granule, by the driver's answers alone, is accessible, is covered by its identity as long as all so far had one, gives a handle, and releases it if an earlier granule gave the same; otherwise the error is that of the first failing test; identity is complete exactly if every byte has one, and then each byte is recorded exactly once; the handles held are exactly those given |
| `CudaAlias.PassGranule` | cpp/reco_core/src/cuda_backend.cpp:1594-1655 | one pass of the loop keeps what the answers so far determine, or reports its granule's objection |
| `CudaAlias.RetainedSpan` | cpp/reco_core/src/cuda_backend.cpp:1577-1661 | what the granule loop returns is a retained span in the sense of the alias theorems |
| `CudaAlias.Aliases` | cpp/reco_core/src/cuda_backend.cpp:810-843 | the nested comparison decides the relation defined on spans |
| `CudaAlias.AliasSymmetric` | cpp/reco_core/src/cuda_backend.cpp:810-843 | the relation is symmetric |
| `CudaAlias.ByteHasRange` | cpp/reco_core/src/cuda_backend.cpp:1577-1655 | each byte of a span with complete provenance lies in a recorded range of the mapping that holds it |
| `CudaAlias.NoAliasNoSharing` | cpp/reco_core/src/cuda_backend.cpp:810-843 | if two retained spans do not alias, no byte of one is physically a byte of the other, under every granularity-aligned mapping consistent with the reports |
| `CudaAlias.CautiousOnly` | cpp/reco_core/src/cuda_backend.cpp:810-843 | an alias report without virtual overlap is always two different mappings of one physical block |
| `CudaAlias.AliasExact` | cpp/reco_core/src/cuda_backend.cpp:810-843 | two retained spans alias if and only if they have an address in common, or both are VMM spans of which one lacks its identity or which lie in two mappings of one physical block |
| `CudaContext.Backend.CallInContext` | cpp/reco_core/src/cuda_backend.cpp:1091-1128 | a module or kernel call follows the specified step for every outcome of its driver calls |
| `CudaContext.Backend.InPrimaryScope` | cpp/reco_core/src/cuda_backend.cpp:491-527 | a primary-context scope follows the specified step, its destructor included |
| `CudaContext.Backend.WaitBatch` | cpp/reco_core/src/cuda_backend.cpp:716-746 | completing a batch follows the specified step, including a failed restore before anything was launched |
| `CudaContext.Backend.Abandon` | cpp/reco_core/src/cuda_backend.cpp:640-674 | an abandoned batch restores or flags, and releases its stream |
| `CudaContext.StepKeepsLocks` | cpp/reco_core/src/cuda_backend.cpp:640-674 | after every step a stream's submission lock is held exactly while one of its batches is active |
| `CudaContext.CallRestoresOrFlags` | cpp/reco_core/src/cuda_backend.cpp:409-421 | every scope and call leaves the caller's context current or sets the sticky flag |
| `CudaContext.BatchRestoresOrFlags` | cpp/reco_core/src/cuda_backend.cpp:640-746 | closing an active batch, in any order, gives back the context saved at its opening or sets the flag; a failed opening changes nothing |
| `CudaContext.FlagIsSticky` | cpp/reco_core/src/cuda_backend.cpp:362-421 | once set, the flag stays and nothing enters a context again |
| `CudaContext.NestedRunRestores` | cpp/reco_core/src/cuda_backend.cpp:640-746 | in every run that closes the newest batch first, however the driver fails, the caller's context is current whenever no batch is active, or the flag is set |
| `CudaContext.CallerContextKept` | cpp/reco_core/src/cuda_backend.cpp:640-746 | the same from the initial state, with the locks matching the active batches |
| `CudaContext.OverlapRestoresWrongContext` | cpp/reco_core/src/cuda_backend.cpp:716-746 | two batches closed oldest first leave the first stream's context current although every driver call succeeded, so the caller's is lost whenever it is another one |
| `CudaContext.OriginDecides` | cpp/reco_core/src/cuda_backend.cpp:640-746 | in every unflagged run, batches closed in any order and whatever calls fail between, the caller's context is current if and only if the origin of the caller's openings and closings is none or a stream with that context; the batches still active are those the events leave open |
| `Nv12Kernel.CheckedAddressSpanExact` | cpp/reco_core/src/cuda_frame.cpp:11-26 | the checked span is the exact byte extent of the rows, or nothing if it leaves 64 bits |
| `Nv12Kernel.MakePlane` | cpp/reco_core/src/cuda_frame.cpp:62-90 | an accepted plane lies inside its accessible bytes and the address space |
| `Nv12Kernel.NoWrap` | cpp/reco_core/src/cuda_rgba_to_nv12.cpp:72-84 | the kernel's 32-bit coordinates never wrap on a launched grid |
| `Nv12Kernel.OwnerActive` | cpp/reco_core/src/cuda_rgba_to_nv12.cpp:349-359 | the rounded-up grid has an active thread for every chroma sample |
| `Nv12Kernel.OwnerUnique` | cpp/reco_core/src/cuda_rgba_to_nv12.cpp:349-359 | and it is the only one |
| `Nv12Kernel.LoadsInBounds` | cpp/reco_core/src/cuda_rgba_to_nv12.cpp:84-100 | every byte an active thread loads is inside the validated input span |
| `Nv12Kernel.PixelBytes` | cpp/reco_core/src/cuda_rgba_to_nv12.cpp:57-66 | a pixel is the three bytes at its row times the pitch plus four times its column |
| `Nv12Kernel.StorePlaced` | cpp/reco_core/src/cuda_rgba_to_nv12.cpp:100-118 | every byte an active thread stores is inside a validated output span, at the row and column it belongs to |
| `Nv12Kernel.StoresDistinct` | cpp/reco_core/src/cuda_rgba_to_nv12.cpp:100-118 | no two stores of a launch write the same byte |
| `Nv12Kernel.AllStoredConverts` | cpp/reco_core/src/cuda_rgba_to_nv12.cpp:72-118 | once every store happened the output is the converted image and no other byte changed |
| `Nv12Kernel.AnyInterleavingConverts` | cpp/reco_core/src/cuda_rgba_to_nv12.cpp:72-118 | every interleaving of the threads' single-byte loads and stores gives the one image of the input at launch |
| `Nv12Kernel.KernelThread` | cpp/reco_core/src/cuda_rgba_to_nv12.cpp:72-118 | one thread in place: its bounds guard, its loads and its six stores keep what every interleaving keeps |
| `Nv12Kernel.Launch` | cpp/reco_core/src/cuda_rgba_to_nv12.cpp:349-359 | threads in any order, even repeatedly, convert the memory in place |
| `Nv12Aliasing.TestsSeparate` | cpp/reco_core/src/cuda_rgba_to_nv12.cpp:318-332 | passing the three alias tests makes the planes disjoint in addresses and keeps every output byte physically apart from every other byte of the job, given that neither output plane is folded onto itself |
| `Nv12Aliasing.RunSimulates` | cpp/reco_core/src/cuda_rgba_to_nv12.cpp:72-118 | a run on physical memory is a run on addresses that shows the same bytes |
| `Nv12Aliasing.AliasTestsSuffice` | cpp/reco_core/src/cuda_rgba_to_nv12.cpp:310-360 | if the alias tests pass, every interleaving under every mapping consistent with the driver's reports leaves the converted image in physical memory and changes no other physical byte |
| `JsonDuplicates.DuplicateKnownFieldSax.OnKey` | cpp/reco_core/src/calibration.cpp:103-115 | a key of a known field seen before in the object stops the parse with a duplicate; otherwise it is remembered and names the next value |
| `JsonDuplicates.KnownByName` | cpp/reco_core/src/calibration.cpp:23-48 | the known fields of each object, by name |
| `JsonDuplicates.ValueRun` | cpp/reco_core/src/calibration.cpp:60-131 | running the automaton over a value of any depth is a recursive check of that value, and leaves the automaton as it was |
| `JsonDuplicates.DeepPath` | cpp/reco_core/src/calibration.cpp:23-48 | no path below the known objects, arrays included, is known again |
| `JsonDuplicates.RootFlagged` | cpp/reco_core/src/calibration.cpp:50-141 | the root is flagged exactly by a repeated root field or a section that repeats one of its own |
| `JsonDuplicates.CheckerExact` | cpp/reco_core/src/calibration.cpp:50-141 | a document is flagged exactly if its root, a camera, the parameters or the polygon object repeats a known key, however deep the unknown values around them |
| `JsonDuplicates.HasDuplicateKnownFields` | cpp/reco_core/src/calibration.cpp:137-141 | the checker returns that verdict for every document |
| `JsonStrings.Quote` | cpp/reco_control/src/intent_json.cpp:16-55 | the loop writes the escaped bytes between quotation marks |
| `JsonStrings.QuoteRoundTrip` | cpp/reco_control/src/intent_json.cpp:16-55 | reading the quoted text by section 7 of RFC 8259 gives back every string |
| `JsonNumbers.NormalizeScientific` | cpp/reco_control/src/intent_json.cpp:57-73 | the in-place trimming loop computes the specified text |
| `JsonNumbers.RustLikeFloatFromScientific` | cpp/reco_control/src/intent_json.cpp:75-121 | the in-place rewriting computes the specified text |
| `JsonNumbers.TextInjective` | cpp/reco_control/src/intent_json.cpp:75-121 | a number text has one reading, so the value it denotes is well defined |
| `JsonNumbers.ValueIs` | cpp/reco_control/src/intent_json.cpp:57-121 | what a value is, for every exponent: the number with as many zeros behind it, or the number that becomes it when taken that many powers of ten up |
| `JsonNumbers.RewriteKeepsValue` | cpp/reco_control/src/intent_json.cpp:57-121 | every number text is rewritten to a number text of the same value, for every mantissa and exponent |
| `JsonNumbers.RewriteGrammar` | cpp/reco_control/src/intent_json.cpp:75-121 | the result is a number of section 6 of RFC 8259 exactly if no leading zero moves left of the point, or none was there |
| `JsonNumbers.LeadingZeroMoves` | cpp/reco_control/src/intent_json.cpp:104-121 | 0.5e1 is a JSON number but is rewritten to 05.0, which is none |
| `JsonNumbers.RewriteLeaves` | cpp/reco_control/src/intent_json.cpp:75-90 | texts without an exponent, or with one no int holds, are left alone |
| `Matcher.PackedDistance` | cpp/reco_calibrate/src/features.cpp:50-62 | comparing packed words counts the same differing bits as comparing bytes |
| `Matcher.DifferingBitsCount` | cpp/reco_calibrate/src/features.cpp:59 | the bit count of two numbers is the size of the set of positions where their binary digits differ |
| `Matcher.DistanceCounts` | cpp/reco_calibrate/src/features.cpp:50-62 | the distance of two byte strings is the number of their bits that differ |
| `Matcher.HammingDistance` | cpp/reco_calibrate/src/features.cpp:50-62 | eight words give the number of bit positions where the descriptors differ, and zero exactly for equal descriptors |
| `Matcher.ScanSmallest` | cpp/reco_calibrate/src/features.cpp:21-34 | the scan keeps the first smallest distance and the smallest of the others |
| `Matcher.ChosenExact` | cpp/reco_calibrate/src/features.cpp:36-44 | a candidate is pushed exactly if it is nearer than the ratio allows to every other, or, without ratio, the first nearest |
| `Matcher.FindMatchesOneWay` | cpp/reco_calibrate/src/features.cpp:14-46 | the nested loops compute the specified one-way list |
| `Matcher.OneWayExact` | cpp/reco_calibrate/src/features.cpp:14-46 | one way returns exactly the picks of every query, with their distances |
| `Matcher.MatchDescriptors` | cpp/reco_calibrate/src/features.cpp:64-84 | table, mutual filter and sort compute the specified list |
| `Matcher.MatchedExact` | cpp/reco_calibrate/src/features.cpp:64-84 | the matcher returns exactly the pairs that pick each other |
| `Matcher.RatioMatchedExact` | cpp/reco_calibrate/src/features.cpp:14-84 | with a ratio test, in plain terms: the matches are exactly the pairs nearer to each other than the ratio allows to every other candidate on either side |
| `Matcher.MatchedOneToOne` | cpp/reco_calibrate/src/features.cpp:64-84 | no descriptor is matched twice |
| `Matcher.MatchedOrdered` | cpp/reco_calibrate/src/features.cpp:79-82 | the result is sorted by distance and, where equal, by left index: the one order a stable sort can give |
| `Matcher.MatchedTransposed` | cpp/reco_calibrate/src/features.cpp:64-84 | swapping the inputs gives the transposed matches |
| `Sampling.MiddleInside` | cpp/reco_calibrate/src/sampling.cpp:104-115 | each segment's middle lies inside the usable range and the next is at least a frame further |
| `Sampling.SelectFrameIndices` | cpp/reco_calibrate/src/sampling.cpp:86-117 | the selected indices are strictly increasing, inside the video, as many as requested and usable, one for each segment's middle, or the middle of the video if all frames are skipped |
| `Sampling.SkippedExact` | cpp/reco_calibrate/src/sampling.cpp:93-100 | the first and last selectable frames in skipped seconds and, without them, in twentieths of the video |
| `Sampling.SelectSynchronized` | cpp/reco_calibrate/src/sampling.cpp:119-157 | both lists are equally long, strictly increasing, inside their videos and apart by the offset; the unshifted one is the selection of the frames the videos have in common; only an offset over the limit is refused |
| `FrameReader.Reader.Read` | cpp/reco_calibrate/src/sampling.cpp:236-325 | a frame that comes back is the one asked for, whatever the decoder does; from a faithful decoder every reachable frame comes back |
| `FrameReader.Reader.DecodeTo` | cpp/reco_calibrate/src/sampling.cpp:266-324 | the decode loop skips forward to the requested frame and ends |
| `FrameReader.ValidateIndices` | cpp/reco_calibrate/src/sampling.cpp:49-55 | accepts exactly the strictly increasing lists |
| `FrameReader.ExtractFrames` | cpp/reco_calibrate/src/sampling.cpp:327-343 | every increasing list of frames a faithful decoder holds is returned exactly and in order; other lists are refused |
| `FrameReader.HalfTurn` | cpp/reco_calibrate/src/sampling.cpp:15-31 | the rotated copy puts each pixel at the mirrored place |
| `NelderMead.ActiveBounds` | cpp/reco_calibrate/src/optimizer.cpp:226-241 | cutting the table gives one bound for every free parameter, in the vector's order |
| `NelderMead.ParamsFit` | cpp/reco_calibrate/src/optimizer.cpp:243-295 | a vector of the free dimension is always read, each entry as the parameter its place names, for every setting of the flags |
| `NelderMead.StartsForConfig` | cpp/reco_calibrate/src/optimizer.cpp:181-222 | the editing loop gives every built-in start adapted to the flags and seeds, then the inertial one if there is an estimate; each has the free dimension |
| `NelderMead.AdaptedFits` | cpp/reco_calibrate/src/optimizer.cpp:191-207 | a built-in start reads back with the locked angle zero and the free ones at their seeds |
| `NelderMead.InertialFits` | cpp/reco_calibrate/src/optimizer.cpp:209-222 | the inertial start reads back with its estimate and the optional angle's seed, and with the third angle at zero whatever its seed |
| `NelderMead.InertialAgrees` | cpp/reco_calibrate/src/optimizer.cpp:189-220 | the inertial start and a built-in one agree on the third angle if and only if it is locked or its seed is missing or zero |
| `NelderMead.InertialLosesSeed` | cpp/reco_calibrate/src/optimizer.cpp:189-220 | with a third-angle seed of 0.02 the adapted start carries it and the inertial start reads zero |
| `NelderMead.PenaltyExact` | cpp/reco_calibrate/src/optimizer.cpp:297-311 | the penalty is never negative and vanishes exactly inside the bounds |
| `NelderMead.OutsideIs` | cpp/reco_calibrate/src/optimizer.cpp:297-311 | a coordinate outside its bound by d costs ten thousand d squared |
| `NelderMead.BuildSimplex` | cpp/reco_calibrate/src/optimizer.cpp:313-335 | one vertex per axis, moved a tenth of the bound's range up, or down if that leaves the bound, and along that axis only; refused only if bounds are missing |
| `NelderMead.SortSimplex` | cpp/reco_calibrate/src/optimizer.cpp:116-132 | sorting is stable, keeps each cost with its vertex and puts the best first |
| `NelderMead.Move` | cpp/reco_calibrate/src/optimizer.cpp:136-170 | reflect, expand, contract or shrink as the costs decide, as one relation between the simplices; each stored cost stays its vertex's cost, a replaced vertex is strictly cheaper than the worst, and the best cost never rises |
| `NelderMead.RulePoints` | cpp/reco_calibrate/src/optimizer.cpp:137-168 | reflection mirrors in the centroid, expansion doubles the distance, contraction and shrinking halve it |
| `NelderMead.FlatMeans` | cpp/reco_calibrate/src/optimizer.cpp:66-79 | flat costs lie within 1e-12 times the root of their number of the mean, and costs within 1e-12 of it are flat |
| `NelderMead.OneRound` | cpp/reco_calibrate/src/optimizer.cpp:116-170 | a round sorts, and ends the descent if the costs are flat, else moves by the rule |
| `NelderMead.RunNelderMead` | cpp/reco_calibrate/src/optimizer.cpp:104-179 | the rounds start at the simplex built around the start, each is a sort and a move by the rule, they end after the allowed number or at flat costs, and the result is the first cheapest vertex there, with its cost; no vertex of the first simplex, the start included, costs less |
| `NelderMead.Evaluate` | cpp/reco_calibrate/src/optimizer.cpp:44-63 | reading the vector, the error and the penalty loop give the cost the descent minimises |
| `NelderMead.CostMeans` | cpp/reco_calibrate/src/optimizer.cpp:44-63 | under the active bounds a point costs its error, and strictly more exactly if it leaves them |
| `NelderMead.Optimize` | cpp/reco_calibrate/src/optimizer.cpp:337-360 | for every setting of the flags nothing is refused; the result is the first cheapest of the descents from all starts, the reported cost is that of the reported point under the active bounds, and no start, the inertial one included, costs less |

## Left out

- CUDA kernels of the detector and matcher: only the host's allocations and launch order are modelled; the number of
  candidates they find is a parameter, and nothing is claimed about sorted or selected features.
- Diffusion step lengths, evolution times and sigma values: floating-point values without a discrete property; only
  the order of the steps is modelled.
- Pixel-centre filtering of correspondences, seam weights, undistortion, Jacobi and Sampson numerics: accuracy
  arguments about floating point.
- FedSteps.StepOrder: the source works on float step lengths; the model reorders positions, which determines them.
- GpuDetect.Device.Detect: buffers are byte counts, not addresses, so it does not say which buffer a kernel uses.
- GpuGeometry.MakeEvolutionSpecs: a level carries its octave and size; its sigma and time are not modelled.
- Configuration fields of the detector that do not enter geometry or memory (threshold, ratio, border): range
  validation of values the planner never reads.
- WireResponse.DecodeResponse: error messages are not modelled, so all refusals are one value.
- WireRequest.DecodeRequest: the individual rules of request validation are a parameter, as are those of
  calibration validation in the response.
- Channel.Stream.ReadExact: poll, deadlines, cancellation and resident-memory limits appear only as a schedule that
  ends early or closes.
- Handshake.HandshakeDelivers: covers runs in which no system call fails; authentication of the peer, the launch
  gate, process exit status and the reply leg with its process descriptor are not modelled. The reply frame itself is
  covered by Channel and WireResponse.
- SyscallFilter.ProgramCorrect: installing the filter, the seccomp mode bits and the kernel's own verification are
  outside; call numbers and architecture constants are parameters, so both architectures and any set of defined calls
  are covered.
- ScratchTree.InspectScratchTree: hard links and a tree that changes during the walk are not modelled; the two dot
  entries, which the walk skips, are left out of the listings.
- CudaAlias.NoAliasNoSharing: says nothing about a span that overlaps itself, and access rights are not modelled.
- CudaContext.NestedRunRestores: streams, events and modules other than through the context they make current are not
  modelled; launches are outcomes.
- Nv12Aliasing.AliasTestsSuffice: an output plane with one physical byte behind two of the addresses it writes is
  excluded; the source compares spans with each other and never one with itself.
- Nv12Kernel.AnyInterleavingConverts: the colour coefficients are arbitrary functions of the loaded pixels, since
  their values do not matter to placement and order.
- JsonDuplicates.CheckerExact: the JSON parser is represented by the events of a document tree; malformed texts never
  reach the model.
- JsonNumbers.RewriteKeepsValue: texts whose mantissa has no digit before the point are not numerals here; the
  printing routine in front of it never makes one.
- Matcher.HammingDistance: or-ing disjoint shifted bytes is written as addition, and the exclusive or with its count
  as the number of differing binary digits.
- Sampling.SelectFrameIndices: products and quotients are exact; rounding of very large frame counts is not modelled.
- FrameReader.Reader.Read: mapping, allocation and copying of the surface succeed, and timestamps and colour range
  are not carried.
- NelderMead.RunNelderMead: costs are finite reals, so comparisons with a value that is not a number do not occur, and
  the flatness limit is compared on the variance instead of its root.
- Lens database, telemetry, user interface, replay, tracking and file utilities: each is settled by reading a branch
  or two.
