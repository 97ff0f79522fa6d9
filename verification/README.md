# USB camera: verified models

Dafny models of the native side of an Android USB-camera library, and proofs about them. Each part
of the library that holds logic of its own has its modules.

**Frames** (`Grid`, `PlanarConverter`, `RgbaConverter`, `Agreement`, `Preview`, `Crop`, `CropTwice`,
`CropCopy`, `Windows`, `PreviewView`, `Surfaces`). The two pixel-format converters, the centre crop and the copy into the preview window
are methods over byte arrays with the source's cursors and loops, each proved against a function of
the source bytes. The lemmas say what those functions mean: where each pixel comes from, that the
two converters agree, that crops compose, when upsampling is undone. `Surfaces.Camera` is the camera
object with its two pixel buffers and its windows, and its draw methods tie these parts together;
`Windows` and `PreviewView` say what is then seen of the windows.

**Capture protocol** (`Capture`, `CaptureBuffers`, `CaptureLocks`, `CaptureCalls`, `CaptureStops`,
`CaptureAnswers`). One capture thread and any number of control threads, one shared access a step,
with the two mutexes, a FIFO video driver that may answer anything except that it refuses a buffer it
already has, and windows that may refuse. The lemmas hold for every run from start-up. `Screens` joins
this to the frames: it follows the memory of every window through every interleaving.

**Atomics and reference counts** (`AtomicSpec`, `AtomicX86`, `AtomicArm`, `Machines`, `MachineCalls`,
`Aref`, `ArefMachines`). `AtomicSpec` is
what callers may rely on: each call takes effect in one step between its call and its return. The
x86 version (plain read, locked exchange, retry) and the ARM version (ldrex, strex, retry) are
machines of single instructions, and every run of either is, as its callers see it, a run of
`AtomicSpec` (`Machines`). The reference count of aref.h is built on `AtomicSpec`, and its results are carried to
both machines.

**Resource bitmask** (`Bitmask`). Words of bits stand for a set of ids; on top of it the allocator
that the header gives as its example.

**Buffer queue** (`BufferQueue`, `BufferQueueSlots`, `BufferQueueRuns`, `BufferQueueCalls`). The 32
slots and the FIFO of BufferQueue.h, as its comments describe them.

**qemud framing** (`Qemud`). Length-prefixed messages over a byte stream.

`Bits` has the C integer operations (arithmetic shift, `&`, `|`, `~`, 32-bit words), `Sequences` the
ends of growing runs and `list::remove`.

## What the model takes for granted

- Bytes are 0 to 255, that is, `char` is unsigned: the chroma centring at lines 238-239 of the
  camera source gives the usual colours only then.
- Words are stored little-endian, so that a colour word is the bytes R, G, B, A in memory.
- Frame sizes are even (zero included where nothing divides by them), and sizes and offsets do not
  overflow `int`, that is, 4 * width * height < 2^31.
- VIDIOC_REQBUFS grants the four buffers that were asked for, and the driver hands out queued buffers
  in FIFO order. A DQBUF that fails with anything but EAGAIN may lose one buffer and leaves some index
  from 0 to 3 behind. VIDIOC_QBUF rejects a buffer that is already queued (Linux V4L2 API).
- Threads are sequentially consistent, and reservations of ldrex may end at any time.
- Fewer than 2^31 references are outstanding, and a thread calls `aref_get` only while it holds one.

## Where source and comments differ

- Line 242 of the camera source adds the small shifts back, so that the weights of green are -5/32 and
  -9/32; `DiffBounds` states the bounds of that line as it is written, and `DiffBoundsTight` shows that
  they cannot be improved.
- copyFrameCenterGravity cuts out the centre exactly if the width difference is even, or there is at
  most one row, or no column (`CentredExactly`). Otherwise each row starts one pixel further on than
  the one before (`CroppedIsSkewed`), and the last rows may be read past the end of the picture
  (`ReadsStayExactly` says when; `OddWidthOverruns` is a 1280 x 720 source with a 1279 x 720 window).
- Two crops in a row are the crop at once exactly for the sizes of `CropTwice.Composes`; with even
  width differences that is unless both height differences are odd, when every row comes from one row
  further down (`CropsCompose`, `OddHeightsShift`, and three rows cut to two and to one in
  `OddHeightsDiffer`).
- The copy takes no notice of the stride of an encoder window: what is seen of the window is the crop
  exactly if the stride is the width, or there is at most one row, or no column (`SeenExactly`;
  `LongWindowStride` is a 638 x 480 window with a stride of 640).
- The preview copy stays inside the planar buffer exactly if the window buffer has the stride and the
  height of the frame and 32 divides the width (`CopyFits`, for window buffers not smaller than the
  frame; `LongStrideOverruns` is a 640 x 480 frame with a stride of 656), and exactly then the preview
  window shows every frame (`PreviewShowsExactly`).
- qemud_channel_recv keeps to the room that its caller gives exactly if the size in the header is not
  negative, as it is for the header "-001" (`RoomKeptExactly`, `ScanOfMinusOne`); no send call writes
  such a header (`SentSizes`).
- stopCapture works, that is, lets at most one more frame be drawn, exactly if it comes after
  startCapture has assigned mPeekRun, or finds the device closed (`StopWorksExactly`; `LostStop` is a
  run in which two frames follow a stop).
- BufferQueue.h speaks of slots going from QUEUED to FREE when another buffer is queued in
  asynchronous mode, and BufferItem of being droppable, but neither says which item is replaced.
  The model replaces the item queued last, if it is droppable and the new one is asynchronous, as a
  strictly increasing order of frames needs. An acquisition passes over items that are no longer
  tracked. A release whose frame number is not the slot's is stale.

## Model

| member | source | states |
|---|---|---|
| PlanarConverter.Yvyu2Yuv420 | app/src/main/jni/com_hongdian_usbcamera_Camera.cpp:182-208 | for all even sizes the buffer becomes the planar frame, every one of its w*h*3/2 bytes is written once, only the packed frame is read, and the three cursors end at the ends of their planes |
| PlanarConverter.ChromaOfPlanar | app/src/main/jni/com_hongdian_usbcamera_Camera.cpp:202-205 | the two chroma planes hold the fourth and second bytes of the macropixels of even rows |
| Agreement.LumaOfPlanar | app/src/main/jni/com_hongdian_usbcamera_Camera.cpp:194-200 | the luma of every pixel is kept, in order |
| PlanarConverter.Sizes | app/src/main/jni/com_hongdian_usbcamera_Camera.cpp:188-190 | the planes start and end where the multiplications say: w*h, w*h + w*h/4, w*h*3/2 |
| Agreement.PixelIsRowMajor | app/src/main/jni/com_hongdian_usbcamera_Camera.cpp:230-261 | the pixels of these lemmas are numbered as the loops reach them: r * w + c |
| RgbaConverter.Yvyu2RGBA | app/src/main/jni/com_hongdian_usbcamera_Camera.cpp:210-264 | the buffer becomes the memory image of the frame's colour words, and nothing behind it changes |
| RgbaConverter.PixelInImage | app/src/main/jni/com_hongdian_usbcamera_Camera.cpp:230-261 | in the image of every frame, bytes 4p to 4p + 3 are the red, green and blue sums of the luma of pixel p and the chroma of macropixel p / 2, each itself from 0 to 255, 0 below and 255 above, and alpha 255 |
| RgbaConverter.PixelBytes | app/src/main/jni/com_hongdian_usbcamera_Camera.cpp:241-252 | the four bytes of a pixel's word are its red, green and blue sums, each itself from 0 to 255, 0 below and 255 above, and alpha 255 |
| RgbaConverter.DiffExactly | app/src/main/jni/com_hongdian_usbcamera_Camera.cpp:241-243 | for all integers, negative ones included, the exact value of each shift sum, with the remainders that the shifts drop |
| RgbaConverter.ImageAt | app/src/main/jni/com_hongdian_usbcamera_Camera.cpp:252-261 | byte b of pixel p is at 4p + b of the image |
| RgbaConverter.DiffBounds | app/src/main/jni/com_hongdian_usbcamera_Camera.cpp:241-243 | for all integers the shift sums are the exact multiples 45/32, 113/64, -(5 Cb + 9 Cr)/32 within stated rounding errors |
| RgbaConverter.DiffBoundsTight | app/src/main/jni/com_hongdian_usbcamera_Camera.cpp:241-243 | none of these six bounds can be improved |
| Agreement.SamplesAgree | app/src/main/jni/com_hongdian_usbcamera_Camera.cpp:182-264 | decoding the planar frame gives the sample that the RGBA converter uses, exactly where the row is even or repeats the chroma above it |
| Agreement.ConvertersAgree | app/src/main/jni/com_hongdian_usbcamera_Camera.cpp:182-264 | there the decoded sample gives exactly the converter's colour word |
| Agreement.PlanarOfUpsampled | app/src/main/jni/com_hongdian_usbcamera_Camera.cpp:182-208 | conversion to planar undoes row-duplicating upsampling, for every planar frame |
| Agreement.UpsampledPlanar | app/src/main/jni/com_hongdian_usbcamera_Camera.cpp:182-208 | upsampling undoes conversion to planar exactly for frames whose odd rows repeat the chroma above them |
| Preview.AlignIsLeastMultiple | app/src/main/jni/com_hongdian_usbcamera_Camera.cpp:50-52 | aligning to 2^k gives the least multiple of 2^k not below x, through the bitwise formula |
| Preview.CopyMatchesFrame | app/src/main/jni/com_hongdian_usbcamera_Camera.cpp:538-543 | for a window buffer of the frame's size the copy length and the second chroma offset are the frame's exactly if 32 divides the width, and otherwise the copy is longer by the row padding |
| Preview.CopyLengthIs | app/src/main/jni/com_hongdian_usbcamera_Camera.cpp:538-543 | for every window buffer the copy has a byte for each luma sample and for two chroma planes whose row is the least multiple of 16 not below half the stride |
| PreviewView.LayoutFills | app/src/main/jni/com_hongdian_usbcamera_Camera.cpp:538-543 | the luma plane and the two chroma planes of the layout follow each other in the window buffer and end where the copy ends |
| Preview.CopyFits | app/src/main/jni/com_hongdian_usbcamera_Camera.cpp:538-543 | for every window buffer not smaller than the frame the copy stays inside the planar buffer exactly if stride and height are the frame's and 32 divides the width |
| Preview.LongStrideOverruns | app/src/main/jni/com_hongdian_usbcamera_Camera.cpp:538-543 | it does not for 640 x 480 with stride 656, although 32 divides 640 |
| PreviewView.PreviewShowsExactly | app/src/main/jni/com_hongdian_usbcamera_Camera.cpp:538-543 | read with the window's own luma and chroma strides and plane offsets, the preview window shows every frame, whatever its buffer held and whatever lies behind the planar buffer, exactly if stride and height are the frame's and 32 divides the width |
| Crop.MarginsBalanced | app/src/main/jni/com_hongdian_usbcamera_Camera.cpp:62-63 | opposite margins differ by at most one, and are equal exactly for even differences |
| Crop.CroppedIsCentred | app/src/main/jni/com_hongdian_usbcamera_Camera.cpp:54-83 | for even width differences pixel (i, x) is source pixel (vm + i, hm + x), read inside the source |
| Crop.CroppedIsSkewed | app/src/main/jni/com_hongdian_usbcamera_Camera.cpp:75-82 | for odd ones it is the pixel i places further on |
| Crop.OddReads | app/src/main/jni/com_hongdian_usbcamera_Camera.cpp:75-82 | for odd ones the reads stay inside the source exactly if the margins below and beside leave room for the skew |
| Crop.CroppedToItself | app/src/main/jni/com_hongdian_usbcamera_Camera.cpp:578-583 | the crop to the same size is the plain copy |
| Crop.CentredExactly | app/src/main/jni/com_hongdian_usbcamera_Camera.cpp:54-83 | the copy is the centre of every picture exactly if the width difference is even, or there is at most one row, or no column |
| Crop.OddWidthOverruns | app/src/main/jni/com_hongdian_usbcamera_Camera.cpp:75-82 | a 1279 x 720 window reads 719 pixels past the end of a 1280 x 720 source |
| CropTwice.ComposeExactly | app/src/main/jni/com_hongdian_usbcamera_Camera.cpp:54-83 | for sizes of any parity two crops of every picture are one exactly under a stated condition on the sizes |
| CropTwice.CropsCompose | app/src/main/jni/com_hongdian_usbcamera_Camera.cpp:54-83 | for even width differences that is exactly unless both height differences are odd (or the result is empty), with all reads inside |
| CropTwice.OddHeightsShift | app/src/main/jni/com_hongdian_usbcamera_Camera.cpp:62-63 | with both height differences odd every row comes from one row further down |
| CropTwice.OddHeightsDiffer | app/src/main/jni/com_hongdian_usbcamera_Camera.cpp:62-63 | three rows cut to two and then to one give the last row, cut at once the middle one |
| CropCopy.ReadsStayExactly | app/src/main/jni/com_hongdian_usbcamera_Camera.cpp:75-82 | for all sizes the reads stay inside the source exactly for even width differences, or with that room, or without rows |
| CropCopy.CopyFrameCenterGravity | app/src/main/jni/com_hongdian_usbcamera_Camera.cpp:54-83 | the destination becomes the cropped bytes of the source, and of what lies behind it in memory, if the source covers it, and is left alone otherwise |
| CropCopy.CopyCrops | app/src/main/jni/com_hongdian_usbcamera_Camera.cpp:67-82 | for pixels of any number of bytes, the copied bytes are the pixels of the cropped picture |
| Windows.WholeImage | app/src/main/jni/com_hongdian_usbcamera_Camera.cpp:578-583 | for a window of the frame's size the general crop yields the bytes that the shortcut copies |
| Windows.ShownPixel | app/src/main/jni/com_hongdian_usbcamera_Camera.cpp:569-583 | for even width differences, pixel (i, x) in the memory of a drawn window is the red, green, blue and alpha of the luma and chroma that the packed frame has for its pixel (vm + i, hm + x) |
| Windows.SeenExactly | app/src/main/jni/com_hongdian_usbcamera_Camera.cpp:577-583 | every drawn window is seen to show the crop exactly if its stride is its width, or it has at most one row, or no column |
| Windows.LongWindowStride | app/src/main/jni/com_hongdian_usbcamera_Camera.cpp:577-583 | it is not for a 638 x 480 window with a stride of 640 |
| Windows.FromFrameExactly | app/src/main/jni/com_hongdian_usbcamera_Camera.cpp:577-583 | a drawn window shows nothing from behind the image exactly if the reads stay inside it, or the window is larger or has no column |
| Surfaces.Camera.DrawEncoderSurface | app/src/main/jni/com_hongdian_usbcamera_Camera.cpp:553-590 | the memory of each listed window that could be locked starts with the crop of this frame's image (and, where the sizes make the copy read on, of what lies behind it), every other one is unchanged; the image buffer exists exactly if there are windows |
| Surfaces.Camera.DrawPreviewSurface | app/src/main/jni/com_hongdian_usbcamera_Camera.cpp:485-551 | with a preview window the planar frame is made and the window buffer gets as many of its bytes, and of those behind it in memory, as stride and height say; none from behind exactly under the condition of CopyFits; without a window the planar buffer is given up |
| Surfaces.Camera.RemoveEncoderSurface | app/src/main/jni/com_hongdian_usbcamera_Camera.cpp:468-483 | all entries of a valid window leave the list, and the list becomes its entries at a strictly increasing series of positions, which are all those of other windows; a null or invalid one is ignored |
| Sequences.WithoutPicks | app/src/main/jni/com_hongdian_usbcamera_Camera.cpp:481-481 | list::remove keeps exactly the entries that differ, each as often as it was there and in the same order |
| Surfaces.Camera.SetPreviewSurface | app/src/main/jni/com_hongdian_usbcamera_Camera.cpp:426-444 | a valid surface sets the preview, a null one takes it away, an invalid one is ignored |
| Surfaces.Camera.AddEncoderSurface | app/src/main/jni/com_hongdian_usbcamera_Camera.cpp:446-466 | the window goes to the end of the list, a null or invalid one is ignored |
| Capture.OpenCamera | app/src/main/jni/com_hongdian_usbcamera_Camera.cpp:309-424 | the device ends up open with the four buffers queued in order exactly if every call succeeds, and closed otherwise |
| CaptureBuffers.HeadFindsAllBuffers | app/src/main/jni/com_hongdian_usbcamera_Camera.cpp:603-667 | in every run each arrival at the loop head finds the device open and the four buffers queued |
| CaptureBuffers.OneBufferOut | app/src/main/jni/com_hongdian_usbcamera_Camera.cpp:634-663 | between a successful dequeue and its queueing exactly the frame's buffer is out of the driver |
| CaptureBuffers.DequeueTakes | app/src/main/jni/com_hongdian_usbcamera_Camera.cpp:634-644 | a dequeue takes the first queued buffer, a failed one at most the one it loses, and the others stay in order |
| CaptureBuffers.LoopsOnlyWhenRestored | app/src/main/jni/com_hongdian_usbcamera_Camera.cpp:634-666 | also after a failed dequeue the loop goes on only with the queue complete again, which the driver can do exactly if the buffer is the one it lacks; otherwise the call ends in the error exit |
| CaptureBuffers.BuffersTakeTurns | app/src/main/jni/com_hongdian_usbcamera_Camera.cpp:398-409 | without dequeue errors frame k since the open comes from buffer k mod 4, and after n iterations the queue is rotated n times, across stopped and started calls |
| CaptureLocks.OneLockAtMost | app/src/main/jni/com_hongdian_usbcamera_Camera.cpp:426-590 | no thread holds both mutexes, and callbacks and returns happen without one |
| CaptureLocks.HolderGetsCloser | app/src/main/jni/com_hongdian_usbcamera_Camera.cpp:485-590 | every path of a lock holder leads to its unlock: each own step brings it closer, no other step delays it, and the lock is held exactly until then |
| CaptureLocks.NobodyIsStuck | app/src/main/jni/com_hongdian_usbcamera_Camera.cpp:426-677 | no reachable state is deadlocked: each thread inside a call can move or waits for another that can |
| CaptureLocks.FramesAlways | app/src/main/jni/com_hongdian_usbcamera_Camera.cpp:485-590 | each frame meets the preview surface once before the encoders, while the encoder mutex is held the list is the one found at the lock, visits follow it in order, and the pixel buffers exist where they are used |
| CaptureLocks.FramesGoToTheList | app/src/main/jni/com_hongdian_usbcamera_Camera.cpp:572-587 | every drawn frame was posted once per entry whose window could be locked, in the order of the list found at the lock |
| CaptureCalls.EveryCallIsGood | app/src/main/jni/com_hongdian_usbcamera_Camera.cpp:592-678 | a call on a closed device calls nothing back; any other makes an optional first-frame callback, then either Stop with the device kept or Error with it closed |
| CaptureCalls.ClosedStaysQuiet | app/src/main/jni/com_hongdian_usbcamera_Camera.cpp:598-601 | once closed, every call returns at once without a frame until an open succeeds |
| CaptureCalls.OnlyAStopStops | app/src/main/jni/com_hongdian_usbcamera_Camera.cpp:604-671 | as long as nobody stops it, a call past the assignment can end with the error callback only |
| CaptureCalls.OnlyAFailureFails | app/src/main/jni/com_hongdian_usbcamera_Camera.cpp:617-678 | as long as select neither fails nor times out, no dequeue says EAGAIN and no queueing is refused, a call can end with the stop callback only; interrupted selects and other dequeue errors do not end it |
| CaptureAnswers.FailureEndsInError | app/src/main/jni/com_hongdian_usbcamera_Camera.cpp:617-677 | conversely, in every run, once select has failed or timed out in a running call, a dequeue has said EAGAIN or a queueing was refused, nothing more is drawn or called back until the call is over, and then it has ended with the error callback and the device closed, whatever the other threads do |
| CaptureAnswers.StopEndsInStop | app/src/main/jni/com_hongdian_usbcamera_Camera.cpp:604-671 | once the loop head, or the check after select, finds the call stopped, there is no further select, frame or callback until the call is over, and then it has ended with the stop callback and the device as it was |
| CaptureAnswers.FramesNeedReady | app/src/main/jni/com_hongdian_usbcamera_Camera.cpp:612-660 | in every run there are at most as many frames since the open as times that select has said ready |
| CaptureAnswers.FramesTellTheTruth | app/src/main/jni/com_hongdian_usbcamera_Camera.cpp:485-590 | in every run a frame is drawn from the buffer that its dequeue named, meets the preview surface and the encoder list that are there when it takes the locks, and is queued or posted exactly where the window agreed |
| CaptureAnswers.FramesAreRecorded | app/src/main/jni/com_hongdian_usbcamera_Camera.cpp:658-663 | the frame whose buffer is to be queued is the one drawn last |
| CaptureAnswers.SurfacesAreEdits | app/src/main/jni/com_hongdian_usbcamera_Camera.cpp:426-483 | in every run the preview is the surface set last, and the encoder list consists of the surfaces added and not removed since, once for each such addition, in the order of the additions |
| CaptureCalls.AtMostOneMoreFrame | app/src/main/jni/com_hongdian_usbcamera_Camera.cpp:603-682 | after a stop that follows the assignment at most one more frame is drawn, whatever the other threads do |
| CaptureCalls.StoppedCallEnds | app/src/main/jni/com_hongdian_usbcamera_Camera.cpp:604-671 | each instruction of a stopped call brings its return closer in a well-founded order |
| CaptureCalls.OthersDoNotDelay | app/src/main/jni/com_hongdian_usbcamera_Camera.cpp:446-483 | no step of a control thread puts that return further away |
| CaptureStops.StoppedCallIsShort | app/src/main/jni/com_hongdian_usbcamera_Camera.cpp:604-671 | after a stop the capture thread executes at most 19 more instructions before the next call, and one for each entry of the encoder list found at the lock |
| CaptureStops.StopWorksExactly | app/src/main/jni/com_hongdian_usbcamera_Camera.cpp:603-682 | in every reachable state a stop lets at most one more frame be drawn, however the threads go on, exactly if the call is past the assignment or the device is closed |
| CaptureStops.LostStop | app/src/main/jni/com_hongdian_usbcamera_Camera.cpp:603-603 | a run, step by step, in which two frames are drawn after a stop just before the assignment |
| CaptureCalls.EarlyStopIsLost | app/src/main/jni/com_hongdian_usbcamera_Camera.cpp:603-603 | a stop before the assignment changes nothing that follows the assignment |
| Screens.WindowsDisplayTheirFrames | app/src/main/jni/com_hongdian_usbcamera_Camera.cpp:485-590 | in every interleaving without dequeue errors since the open, the memory of every posted window starts with the crop of the frame posted last, which is frame k as the driver put it into buffer k mod 4 |
| AtomicSpec.HistoryExplainsCell | app/src/main/jni/cutils/atomic-x86.h:80-151 | the cell is the result of the effects in order, and each answered what it found |
| AtomicSpec.EffectIs | app/src/main/jni/cutils/atomic-x86.h:80-151 | what each operation leaves in the cell and answers: And and Or bit by bit for every bit, addition mod 2^32, compare-and-swap and store |
| AtomicX86.StepRefines | app/src/main/jni/cutils/atomic-x86.h:80-151 | each instruction is one atomic event or invisible |
| Machines.RunRefines | app/src/main/jni/cutils/atomic-x86.h:80-151 | every run of either processor is a run of the atomic system |
| Machines.Linearizable | app/src/main/jni/cutils/atomic-x86.h:131-151 | on x86 and ARM, for any threads, interleaving and failing strex instructions, every completed call took effect once, at its successful exchange or strex, and returned the value held just before, also if memory changed and changed back |
| MachineCalls.FailuresAreCharged | app/src/main/jni/cutils/atomic-x86.h:135-138 | failed exchanges of a thread are at most as many as value changes by others |
| MachineCalls.CallsReturn | app/src/main/jni/cutils/atomic-x86.h:131-151 | a thread takes at most four steps a call and two for each such change, so the loops end if the others stop changing the cell |
| AtomicX86.RetryLoop | app/src/main/jni/cutils/atomic-x86.h:131-151 | the loop as code, with the stores of others supplied: it ends in the first round whose exchange finds what was read, leaves a cell whose bits are the conjunction (And) or disjunction (Or) of the bits found and the operand's, and returns what was found |
| AtomicX86.CompareExchange | app/src/main/jni/cutils/atomic-x86.h:80-89 | the compare-and-swap stores exactly when the cell holds the expected value, and returns 0 exactly then |
| AtomicArm.ReservationsKept | app/src/main/jni/cutils/atomic-arm.h:83-94 | while a reservation lasts the cell holds what its ldrex read |
| AtomicArm.StepRefines | app/src/main/jni/cutils/atomic-arm.h:78-170 | each ARM instruction is one atomic event or invisible |
| Machines.AdditionsAddUp | app/src/main/jni/cutils/atomic-arm.h:115-140 | on either processor, with additions only, the cell is the initial value plus all increments mod 2^32, and the answers are the running sums in the order of the effects, on ARM the strex order |
| MachineCalls.CasZeroIffStored | app/src/main/jni/cutils/atomic-arm.h:78-96 | each compare-and-swap call that returns 0 has stored once since it was entered, each that returns 1 never |
| AtomicArm.RetryLoop | app/src/main/jni/cutils/atomic-arm.h:78-170 | the loop as code, with every disturbance between ldrex and strex supplied: And and Or bit by bit, addition mod 2^32 and compare-and-swap of the value found in the first undisturbed round, which is returned, or 0 or 1 by a compare-and-swap |
| Aref.CountsReferences | app/src/main/jni/cutils/aref.h:39-58 | in every run the count is the number of outstanding references |
| Aref.ReleasedOnce | app/src/main/jni/cutils/aref.h:54-58 | release is called at most once, only with no reference outstanding, and has been called once none is and no operation is under way |
| Aref.LastPutReleases | app/src/main/jni/cutils/aref.h:54-58 | the put that drops the last reference is the one that finds 1 |
| Aref.NoTouchAfterRelease | app/src/main/jni/cutils/aref.h:49-58 | no step touches the object after its release |
| ArefMachines.CountsOnMachines | app/src/main/jni/cutils/aref.h:39-58 | the same holds in every interleaving of x86 or ARM instructions: the cell is the number of outstanding references, and release is called at most once |
| ArefMachines.ReleasedOnMachines | app/src/main/jni/cutils/aref.h:54-58 | release is called at most once, only with no reference outstanding, and has been called once none is and no operation is under way |
| ArefMachines.NoAccessAfterRelease | app/src/main/jni/cutils/aref.h:49-58 | no instruction reads or writes the count, and no client the object, after the release |
| Bitmask.Init | app/src/main/jni/cutils/bitops.h:54-57 | the words stand for the empty set |
| Bitmask.FewestWords | app/src/main/jni/cutils/bitops.h:48-49 | the number of words is the least that has room for all the bits |
| Bitmask.Set | app/src/main/jni/cutils/bitops.h:88-91 | adds the id to the set |
| Bitmask.Clear | app/src/main/jni/cutils/bitops.h:93-96 | removes the id from the set |
| Bitmask.TestIsMember | app/src/main/jni/cutils/bitops.h:98-101 | the masked word is non-zero exactly for members |
| Bitmask.Ffz | app/src/main/jni/cutils/bitops.h:59-76 | returns the least id below num_bits not in the set, -1 exactly if there is none |
| Bitmask.Weight | app/src/main/jni/cutils/bitops.h:78-86 | returns the cardinality of the set |
| Bitmask.WeightCountsIds | app/src/main/jni/cutils/bitops.h:78-86 | that is the number of ids in use exactly if the padding is clear, and then the search fails exactly if the weight is num_bits |
| Bitmask.IdsAreHeld | app/src/main/jni/cutils/bitops.h:35-44 | in every run of the example allocator the words stand for the ids handed out and not freed since |
| Bitmask.FreedBetween | app/src/main/jni/cutils/bitops.h:35-44 | between two hand-outs of an id it is freed |
| Bitmask.GrantsTheLeast | app/src/main/jni/cutils/bitops.h:35-44 | a request gets the least id not held, and fails exactly when the weight is the number of ids |
| BufferQueueRuns.OnlyDocumentedEdges | app/src/main/jni/gui/BufferQueue.h:380-417 | in every run a call leaves the state of a slot as it is or moves it along a documented edge of that call, and a refused call moves none |
| BufferQueueRuns.OneOwner | app/src/main/jni/gui/BufferQueue.h:381-415 | in every run the producer has exactly the dequeued slots and the consumer exactly the frames in acquired slots |
| BufferQueueRuns.TrackedOneToOne | app/src/main/jni/gui/BufferQueue.h:355-357 | the items still tracked and the queued slots are one-to-one |
| BufferQueueRuns.StaleIffFreed | app/src/main/jni/gui/BufferQueue.h:453-456 | the release of a held frame is stale exactly if all buffers were freed since, and succeeds otherwise |
| BufferQueueRuns.AcquiredInOrder | app/src/main/jni/gui/BufferQueue.h:527-550 | frames are acquired in strictly increasing number, and only queued ones |
| BufferQueueRuns.NothingLost | app/src/main/jni/gui/BufferQueue.h:527-529 | a queued frame waits in its slot, or was acquired, or was droppable and dropped, or all buffers have been freed |
| BufferQueueRuns.ConsumerKnowsBuffer | app/src/main/jni/gui/BufferQueue.h:214-220 | an item that comes without a buffer is in the buffer that the consumer last received for the slot |
| BufferQueueRuns.AbandonedForGood | app/src/main/jni/gui/BufferQueue.h:531-537 | after consumerDisconnect all slots stay free and every producer call fails, disconnect included, whatever follows |
| BufferQueue.LeastRecent | app/src/main/jni/gui/BufferQueue.h:427-430 | the slot dequeued is a free one whose frame is the oldest, and there is none exactly if no slot is free |
| BufferQueueCalls.DequeueExactly | app/src/main/jni/gui/BufferQueue.h:123-161 | a dequeue succeeds exactly if the producer is connected, the queue not abandoned and a slot below the count (2 by default) free; it takes a free one whose frame is the oldest, and changes nothing else |
| BufferQueueCalls.RequestExactly | app/src/main/jni/gui/BufferQueue.h:116-121 | a dequeued slot, and no other, gets a buffer, a new one exactly if it has none |
| BufferQueueCalls.QueueExactly | app/src/main/jni/gui/BufferQueue.h:163-179 | a dequeued slot with a buffer, and no other, is queued as the next frame, behind all items or in the place of a droppable last one |
| BufferQueueCalls.CancelExactly | app/src/main/jni/gui/BufferQueue.h:181-186 | a dequeued slot, and no other, becomes free, and nothing is queued |
| BufferQueueCalls.SetBufferCountExactly | app/src/main/jni/gui/BufferQueue.h:99-114 | succeeds exactly for 0 and 2 to 32 with no slot dequeued, and frees all buffers |
| BufferQueueCalls.AcquireExactly | app/src/main/jni/gui/BufferQueue.h:214-227 | the first item whose slot still has its buffer is acquired, those before it are passed over |
| BufferQueueCalls.BufferComesOnce | app/src/main/jni/gui/BufferQueue.h:214-220 | in every run an acquisition comes without the buffer exactly if that buffer was acquired before |
| BufferQueueCalls.ReleaseExactly | app/src/main/jni/gui/BufferQueue.h:229-243 | which releases succeed, which are stale, which are refused, and what each changes |
| BufferQueueCalls.ConnectionsExactly | app/src/main/jni/gui/BufferQueue.h:188-259 | when producer and consumer can connect and disconnect, and what that changes |
| Qemud.HeaderHoldsLength | app/src/main/jni/hardware/qemud.h:115-139 | the four digits read back as the length exactly for messages of up to 65535 bytes |
| Qemud.HeaderCharacters | app/src/main/jni/hardware/qemud.h:115-115 | every header consists of decimal digits and lower-case letters a to f |
| Qemud.HeaderExamples | app/src/main/jni/hardware/qemud.h:115-115 | 0x1a2b is written "1a2b", 7 is written "0007" |
| Qemud.ScanExactly | app/src/main/jni/hardware/qemud.h:139-139 | a header is scanned as n exactly if it consists of blanks, an optional sign, an optional 0x, digits of value n with that sign, and nothing that goes on with them |
| Qemud.DigitCharacters | app/src/main/jni/hardware/qemud.h:139-139 | which characters are which digit, in either case |
| Qemud.RoomKeptExactly | app/src/main/jni/hardware/qemud.h:139-150 | whatever follows a header, at most the given room is stored, exactly if the scanned size is not negative |
| Qemud.ScanOfMinusOne | app/src/main/jni/hardware/qemud.h:139-139 | the header "-001" is scanned as -1 |
| Qemud.SentSizes | app/src/main/jni/hardware/qemud.h:115-116 | no header of a send call has a negative size |
| Qemud.SentIsReceived | app/src/main/jni/hardware/qemud.h:104-151 | a message is received as sent, nothing behind it touched, exactly up to that length |
| Qemud.RoundTrip | app/src/main/jni/hardware/qemud.h:104-151 | repeated receives return any series of messages in order |
| Qemud.Send | app/src/main/jni/hardware/qemud.h:104-126 | for length 0 puts nothing, with complete writes exactly the header of the length and that many bytes of the buffer, for a negative length those before the first zero byte; otherwise as far as its writes go; returns 0 exactly if all is written |
| Qemud.SentWhole | app/src/main/jni/hardware/qemud.h:104-126 | that is exactly if the whole frame is on the stream |
| Qemud.Recv | app/src/main/jni/hardware/qemud.h:128-151 | takes one message off the stream, or answers -1 for a failed or short read, a malformed header or too little room, with what it leaves on the stream |
| Qemud.CompleteTransfers | app/src/main/jni/hardware/qemud.h:53-61 | with reads that complete it receives what the stream holds |

## Left out

- JNI glue, logging, timestamps, format and frame-rate negotiation, mmap, gralloc and surface
  geometry: foreign calls without logic of their own. openCamera is one step of the protocol that
  succeeds or fails as a whole; it is not called while a capture call runs.
- The camera is not destroyed while a capture call runs.
- `Surfaces.Camera` has no lock and no capture loop: those are in `Capture`, and `Screens` follows the
  windows' memory along its steps with the function that `DrawEncoderSurface` is proved against; the
  memory of the preview window is not followed that way. Windows in the list have memory of their own,
  large enough for their size. Whether a surface is valid is a parameter of the calls.
- Surfaces.Camera.DrawPreviewSurface: takes one `preview` flag for the surface read before the lock
  and the one checked under it, so it does not say which window is drawn to if it is changed between
  the two.
- The retry loops of the atomics, the reference count and the capture protocol are state machines over
  single steps, because other threads act between them; `RetryLoop` shows the loops as code. The
  memory barriers of the acquire and release variants, and atomic-mips.h, which repeats the ARM
  argument, are not part of this model.
- The nested loops of the frame converters and of the crop are split into one method a loop. `Yvyu2RGBA`
  stores words through a byte buffer.
- Overflow of `int` in frame sizes and bit numbers, and negative `num_bits` or ids, which the header
  leaves to its callers.
- BufferQueue.h declares its operations without bodies, so the buffer queue is a state machine over
  values: its limits on acquired buffers, default sizes and formats, fences, listeners and the blocking
  of dequeueBuffer are left out, and a slot counts as free for dequeueing whenever it is FREE and below
  the buffer count.
- BufferQueueRuns.StaleIffFreed: says nothing about the release of frames that the consumer does not hold,
  for which the header promises nothing.
- qemud channel set-up. A `0x` without a digit counts as malformed, as in the C standard.
- HAL headers, Parcel, hashmap, list and MemoryDealer: declarations without behaviour to model.
