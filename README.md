# fast_body_tracker: a verified model of the capture pipeline and its helpers

This project models, in Dafny, the logic of the multi-camera body-tracking
recorder `fast_body_tracker` and of the parts of its bundled `pykinect_azure`
bindings that compute something of their own. It proves properties of that model.

- **Frame pipeline.** The threads of `data_capture_pipeline.py` become
  sequential procedures over an explicit trace of queue items:
  - a capture stage;
  - a computation stage per device;
  - the body saver;
  - the video saver;
  - the visualisation loop.

  The bounded `queue.Queue` is a class whose contents are a sequence. The
  drop-oldest push of every producer is a method proved against the function
  `Pushed`. A run of pushes keeps exactly the `capacity` newest items, and
  its drop counter counts exactly what was discarded.
- **Body saver.** It keeps the source's preallocated per-(device, slot) row
  buffers as arrays with a fill index. It keeps the HDF5 datasets as
  sequences that only grow. Ghost fields record every row the saver has
  received, and `Valid()` keeps this invariant:
  - every dataset is a prefix of the rows received;
  - the buffer holds exactly the rest.

  A threshold flush or a coupled flush moves the buffered rows to the end of
  the dataset. The final flush empties every buffer. After `n_devices`
  sentinels the stored data is exactly the rows of every record taken. A
  record from an unknown device raises, as the source's dictionary lookup
  does.
- **Video saver.** It routes each frame to its device's encoder. After
  `n_devices` sentinels it drains and closes every container, including those
  of devices that sent nothing.
- **Orchestrator.** The decisions of `default_pipeline` are pure functions:
  - the device count;
  - the initialisation order;
  - the sync mode names and their lookup;
  - which device gets an external transform;
  - the thread start and join orders.
- **`Image.to_numpy`.** The format table is a function. The memory layout is
  exact:
  - little-endian 16-bit reinterpretation of the byte buffer, proved to
    round-trip with serialisation;
  - reshape by stride, then crop of the row padding;
  - per-format post-processing.

  cv2's own conversions are oracle parameters.
- **`Transformation` sizing.** Bytes per pixel, stride and the resolution of
  every allocated output image.
- **Counters and buffers.**
  - `FrameRateCalculator`'s 600-frame window, as a class.
  - `IMUVisualizer`'s sliding sample buffers, as arrays rolled and then
    overwritten in place. They are proved equal to a sliding window, and
    consecutive updates compose.
- **`initializer.py`.** The library path resolvers and `initialize_libraries`.
  The record path renames the file to `libk4arecord.so` or `k4arecord.dll`,
  and the folder goes through the same replace. On Linux the folder holds no
  "k4a", so the record library is proved to sit next to `libk4a.so`.
- **`Body2d`.** Two variants:
  - the joint table filled by `__init__`;
  - the segment and joint selection of `draw`, proved to draw exactly the
    segments and joints that are seen, in the source's order and colour.

Calls into code that is not modelled become parameters, each named where it
appears:
- the camera, the tracker and the projection to 2D;
- cv2's image conversions and drawing;
- the screen size, the clock and the key presses;
- the operating system, the environment and the file system.

Two details of the source that the model keeps as written:
- `default_pipeline` joins the two sink threads first, then the capture
  threads, then the computation threads
  (data_capture_pipeline.py:437-442);
- the joint transform adds `1000 · t` (metres to millimetres) after
  multiplying by the rotation (data_capture_pipeline.py:80-82).

## Model

| member | source | states |
|---|---|---|
| FrameQueue.Pushed | src/fast_body_tracker/data_capture_pipeline.py:39-48 | a drop-oldest push onto a full queue loses exactly the oldest item, otherwise it only appends; survivors keep their order and the queue is then the newest `capacity` items |
| FrameQueue.PushAllKeepsNewest | src/fast_body_tracker/data_capture_pipeline.py:39-48 | after any run of drop-oldest pushes the queue is the newest `capacity` items pushed, never longer than the capacity, and the drop count is everything pushed minus what survives |
| FrameQueue.NewestAppend | src/fast_body_tracker/data_capture_pipeline.py:39-48 | trimming to the newest items before appending more changes nothing once trimmed again, which is why successive drop-oldest pushes compose |
| FrameQueue.CapacityThreeExample | src/fast_body_tracker/data_capture_pipeline.py:39-48 | the worked example: capacity 3, five pushes leave the last three with two drops |
| FrameQueue.StopAfter | src/fast_body_tracker/data_capture_pipeline.py:221-225 | a sink that stops after `n` sentinels takes everything up to its `n`-th sentinel, which it takes last, or the whole trace when there are fewer |
| FrameQueue.BoundedQueue.constructor | src/fast_body_tracker/data_capture_pipeline.py:384-386 | a new queue with a positive `maxsize` is empty |
| FrameQueue.BoundedQueue.GetNowait | src/fast_body_tracker/data_capture_pipeline.py:41-44 | the front item is removed and returned; an empty queue gives nothing and stays empty |
| FrameQueue.BoundedQueue.Put | src/fast_body_tracker/data_capture_pipeline.py:46-50 | the item joins the back; on a full queue the front item is first handed to the consumer, and returned as such |
| FrameQueue.PutLosesNothing | src/fast_body_tracker/data_capture_pipeline.py:50 | a blocking put loses nothing: the handed-off item followed by the new contents is the old contents with the item at the back |
| FrameQueue.PushDropOldest | src/fast_body_tracker/data_capture_pipeline.py:39-48 | full queue: one oldest item removed and the drop counter up by one, then the new item at the back; otherwise a plain append |
| CaptureStage.ItemsFor | src/fast_body_tracker/data_capture_pipeline.py:36-48 | one queue item per loop pass: `(capture, frame)` with a tracker, the capture alone without |
| CaptureStage.Run | src/fast_body_tracker/data_capture_pipeline.py:28-50 | the queue ends as the drop-oldest pushes of every item followed by exactly one sentinel with a plain put; the drop counter counts the items discarded, and the front item the full queue hands to the consumer at the sentinel put is returned |
| CaptureStage.FromEmptyQueue | src/fast_body_tracker/data_capture_pipeline.py:39-48 | from an empty queue, the stage leaves its newest `capacity` items and drops the excess over it |
| ComputationStage.Leading | src/fast_body_tracker/data_capture_pipeline.py:62-66 | the stage consumes the leading run of tracked items; the first other item ends or stops the loop |
| ComputationStage.Transformed | src/fast_body_tracker/data_capture_pipeline.py:80-82 | with an external transform every joint position becomes R·p + 1000·t; id and confidences are kept; no transform leaves the body unchanged |
| ComputationStage.TransformedAll | src/fast_body_tracker/data_capture_pipeline.py:73-83 | every body of the frame is transformed, in order |
| ComputationStage.RecordsNumbered | src/fast_body_tracker/data_capture_pipeline.py:61-91 | record i has frame index i, the colour image's device timestamp, the device id and the transformed bodies; the annotated frame shows the untransformed bodies |
| ComputationStage.ReferenceDeviceUntouched | src/fast_body_tracker/data_capture_pipeline.py:407-409 | device 0, given no transform, forwards its bodies unchanged |
| ComputationStage.FanOut | src/fast_body_tracker/data_capture_pipeline.py:85-108 | one drop-oldest push onto each of the three queues, and one shared counter that rises by the drops of all three |
| ComputationStage.ForwardSentinels | src/fast_body_tracker/data_capture_pipeline.py:111-113 | exactly one sentinel is put on each of the joints, video and visualisation queues, and the front item each full queue hands to its consumer is returned, not dropped |
| ComputationStage.ProcessFrames | src/fast_body_tracker/data_capture_pipeline.py:62-110 | the loop consumes the leading frames and pushes each frame's record and picture, numbered in consumption order |
| ComputationStage.Run | src/fast_body_tracker/data_capture_pipeline.py:53-113 | each queue ends as the pushes of the numbered records or pictures, followed by one sentinel only when the stage finished; the counter is the sum of the three queues' drop counts; when it finished, the front record or picture each full queue hands to its consumer at the sentinel put is returned |
| PipelineTypes.ToReference | src/fast_body_tracker/data_capture_pipeline.py:80-82 | each coordinate is a rotation row times the point plus 1000 times the translation |
| PipelineTypes.QuarterTurnExample | src/fast_body_tracker/data_capture_pipeline.py:80-82 | a quarter turn of (0, 1, 0) with translation (1, 0, 0) m lands at (999, 0, 0) mm |
| Sinks.KnownPrefix | src/fast_body_tracker/data_capture_pipeline.py:227-228 | the items before the first payload from a device without buffers, which is the one that raises |
| Sinks.FinishesOnEnoughSentinels | src/fast_body_tracker/data_capture_pipeline.py:219-225 | with only known devices and at least `n_devices` sentinels a sink finishes right after its `n_devices`-th sentinel |
| Sinks.CrashesAt | src/fast_body_tracker/data_capture_pipeline.py:221-228 | a payload from an unknown device, taken before the last sentinel, ends the sink with KeyError after consuming it |
| Sinks.EndsAt | src/fast_body_tracker/data_capture_pipeline.py:219-225 | a sink that took only known items and ran out of items or reached `n_devices` sentinels has consumed exactly that prefix; it finished iff it counted `n_devices` sentinels, otherwise it waits |
| BodySaver.CoupledFlushes | src/fast_body_tracker/data_capture_pipeline.py:234-250 | slot j of a record is flushed iff the ts buffer flushed or some slot at or before j reached the threshold |
| BodySaver.FlushesOnlyForward | src/fast_body_tracker/data_capture_pipeline.py:238-250 | a slot reaching the threshold forces flushes of every later slot of the record, never of an earlier one |
| BodySaver.LastCoupled | src/fast_body_tracker/data_capture_pipeline.py:248-254 | the flag left after the loop is set iff some buffer of the record was flushed, which is exactly when the file is flushed |
| BodySaver.SlotsShrink | src/fast_body_tracker/data_capture_pipeline.py:238-241 | a later slot never receives more rows than an earlier one, nor more than the device's timestamp rows |
| BodySaver.SlotRowsFromDevice | src/fast_body_tracker/data_capture_pipeline.py:238-246 | every row received for (device, slot) is slot s of some record of that device, with that record's frame index |
| BodySaver.Saver.constructor | src/fast_body_tracker/data_capture_pipeline.py:122-179 | every dataset is created empty and every `idx` is 0 |
| BodySaver.Saver.FlushJointBuffer | src/fast_body_tracker/data_capture_pipeline.py:181-201 | the slot's datasets grow by exactly `idx` rows, the buffered ones, its `idx` becomes 0, and nothing else changes |
| BodySaver.Saver.FlushTsBuffer | src/fast_body_tracker/data_capture_pipeline.py:203-217 | the device's ts and system_ts datasets grow by exactly `idx` rows and its `idx` becomes 0; nothing else changes |
| BodySaver.Saver.BufferTs | src/fast_body_tracker/data_capture_pipeline.py:228-236 | the row is buffered, and the buffer is flushed iff it reached `flush_size`, so `idx` stays below `flush_size` |
| BodySaver.Saver.BufferJoint | src/fast_body_tracker/data_capture_pipeline.py:241-250 | the row is buffered, and the buffer is flushed iff it reached `flush_size` or a flush is pending |
| BodySaver.Saver.BufferBodies | src/fast_body_tracker/data_capture_pipeline.py:238-250 | only the first `n_bodies` bodies are stored, body k in slot k; the flushes are the coupled flushes; other devices' buffers are untouched |
| BodySaver.Saver.Record | src/fast_body_tracker/data_capture_pipeline.py:227-254 | one record adds its timestamp row and one row per stored body; the file is flushed once iff some buffer was; the dataset-plus-buffer invariant holds with every `idx` below `flush_size` |
| BodySaver.Saver.FlushFile | src/fast_body_tracker/data_capture_pipeline.py:252-254 | `h5file.flush()` is counted and changes no data |
| BodySaver.Saver.FlushDevice | src/fast_body_tracker/data_capture_pipeline.py:257-264 | every non-empty buffer of the device is flushed, which empties them all; it reports whether any was non-empty |
| BodySaver.Saver.FinalFlush | src/fast_body_tracker/data_capture_pipeline.py:256-267 | afterwards every dataset holds every row received and the file is closed; it is flushed once iff some buffer was non-empty |
| BodySaver.Saver.Accept | src/fast_body_tracker/data_capture_pipeline.py:227-254 | taking a record keeps the received rows equal to those of all records taken |
| BodySaver.Saver.RejectUnknown | src/fast_body_tracker/data_capture_pipeline.py:227-228 | a record from an unknown device ends the loop with KeyError, after it is taken |
| BodySaver.Saver.Step | src/fast_body_tracker/data_capture_pipeline.py:221-254 | a sentinel counts one finished worker; a record is stored; the loop's invariant is kept |
| BodySaver.Saver.Take | src/fast_body_tracker/data_capture_pipeline.py:221-254 | one pass of the loop either raises on an unknown device or keeps the loop's invariant one item further |
| BodySaver.Saver.Run | src/fast_body_tracker/data_capture_pipeline.py:219-254 | the loop ends as the sink model says: after `n_devices` sentinels, at KeyError, or blocked; the rows received are those of the records taken |
| BodySaver.SaveBodies | src/fast_body_tracker/data_capture_pipeline.py:116-267 | every dataset is a prefix of its rows; after `n_devices` sentinels every joint dataset is exactly its (device, slot) rows and every ts dataset exactly its device's timestamps |
| VideoSaver.RoutingPartitions | src/fast_body_tracker/data_capture_pipeline.py:296-303 | with only known devices, every frame goes to exactly one device's encoder |
| VideoSaver.Saver.constructor | src/fast_body_tracker/data_capture_pipeline.py:273-287 | one container and stream per device, nothing encoded, drained or closed |
| VideoSaver.Saver.Encode | src/fast_body_tracker/data_capture_pipeline.py:296-303 | the frame is appended to its own device's stream only |
| VideoSaver.Saver.Finalize | src/fast_body_tracker/data_capture_pipeline.py:305-308 | every device's stream is drained and its container closed, including one that received no frames |
| VideoSaver.Saver.Accept | src/fast_body_tracker/data_capture_pipeline.py:296-303 | after each frame, every stream holds exactly the frames of its device taken so far |
| VideoSaver.Saver.Step | src/fast_body_tracker/data_capture_pipeline.py:290-303 | a sentinel counts one finished worker; a frame is routed; the loop invariant is kept |
| VideoSaver.Saver.RejectUnknown | src/fast_body_tracker/data_capture_pipeline.py:296-300 | a frame from an unknown device ends the loop with KeyError after it is taken |
| VideoSaver.Saver.Run | src/fast_body_tracker/data_capture_pipeline.py:289-303 | the loop ends as the sink model says and every stream holds its device's frames |
| VideoSaver.SaveVideo | src/fast_body_tracker/data_capture_pipeline.py:270-308 | each device's stream holds exactly its frames in order; every container is drained and closed iff the saver took its `n_devices` sentinels |
| Visualization.TruncDiv | src/fast_body_tracker/data_capture_pipeline.py:325 | `int()` of a quotient truncates toward zero |
| Visualization.FloorDiv | src/fast_body_tracker/data_capture_pipeline.py:324 | `//` rounds toward minus infinity |
| Visualization.Layout | src/fast_body_tracker/data_capture_pipeline.py:314-332 | the window layout raises ZeroDivisionError iff there are no devices or the frame height is 0 |
| Visualization.LayoutFits | src/fast_body_tracker/data_capture_pipeline.py:324-332 | n equal windows stacked from the top against the right edge; their heights fit above the taskbar, and the width is the height scaled by the frame's aspect ratio, truncated |
| Visualization.Visualize | src/fast_body_tracker/data_capture_pipeline.py:334-343 | frames are shown up to the first sentinel, where the loop stops and the windows are destroyed; `q` only sets the stop flag |
| Orchestrator.DeviceCount | src/fast_body_tracker/data_capture_pipeline.py:371-374 | one device without a transform table, otherwise the table's size plus one |
| Orchestrator.InitOrder | src/fast_body_tracker/data_capture_pipeline.py:389 | devices are initialised from `n_devices - 1` down to 0 |
| Orchestrator.InitOrderCovers | src/fast_body_tracker/data_capture_pipeline.py:389 | each device is initialised exactly once, and device 0, the main one, last |
| Orchestrator.ModeName | src/fast_body_tracker/data_capture_pipeline.py:390-396 | "main" for device 0 and "secondary" for the others exactly when syncing more than one device, otherwise "standalone" |
| Orchestrator.ModeOf | src/fast_body_tracker/data_capture_pipeline.py:349-359 | the mode table knows exactly the three names, and any other name raises KeyError |
| Orchestrator.DeviceConfig | src/fast_body_tracker/data_capture_pipeline.py:354-359 | the configuration exists iff the mode name does, with that wired sync mode and synchronised images only |
| Orchestrator.ModesResolve | src/fast_body_tracker/data_capture_pipeline.py:389-398 | every name the pipeline chooses resolves: master for device 0 and subordinate for the others when syncing, standalone otherwise |
| Orchestrator.RigidOf | src/fast_body_tracker/data_capture_pipeline.py:411-412 | the rotation is the upper-left 3×3 block, the translation the first three entries of the last column |
| Orchestrator.TransformFor | src/fast_body_tracker/data_capture_pipeline.py:407-412 | device 0 gets no transform; any other device gets its table entry's transform, or KeyError without one |
| Orchestrator.Setups | src/fast_body_tracker/data_capture_pipeline.py:389-417 | setup succeeds iff every device in the order has its transform, and gives each device its own |
| Orchestrator.SetupSucceedsIff | src/fast_body_tracker/data_capture_pipeline.py:389-412 | the pipeline's setup fails iff a transform table is given that lacks one of the devices 1 .. n-1 |
| Orchestrator.CapturesLast | src/fast_body_tracker/data_capture_pipeline.py:429-434 | in the start order the capture stages are exactly the threads after the two sinks and the `n` computation stages |
| Orchestrator.CreateQueues | src/fast_body_tracker/data_capture_pipeline.py:384-402 | the joints, video and visualisation queues and one capture queue per device start empty with capacity 10; the capture queues are distinct, and so are the video and visualisation queues |
| Orchestrator.ThreadOrders | src/fast_body_tracker/data_capture_pipeline.py:429-442 | every started thread is joined, and every capture stage starts after the sinks and the computation stages |
| Image.HandlerOf | pykinect_azure/k4a/image.py:7-22 | the table covers the nine listed formats, and only MJPG has no row scale |
| Image.ItemSize | pykinect_azure/k4a/image.py:77 | the item size is one byte exactly for uint8 and two bytes for the 16-bit dtypes |
| Image.Reinterpret | pykinect_azure/k4a/image.py:70-72 | bytes stay bytes; `<u2` and `<i2` read each pair of bytes as a little-endian element, low byte first |
| Image.Element | pykinect_azure/k4a/image.py:18-22 | a little-endian 16-bit element lies in the range of its dtype |
| Image.ReinterpretSerialize | pykinect_azure/k4a/image.py:70-72 | reinterpreting the little-endian bytes of 16-bit values gives the values back |
| Image.SerializeReinterpret | pykinect_azure/k4a/image.py:70-72 | serialising the elements of an even-length buffer gives the buffer back |
| Image.Reshape | pykinect_azure/k4a/image.py:79 | `reshape(rows, cols)` gives `rows` rows of `cols` elements |
| Image.ReshapeAt | pykinect_azure/k4a/image.py:79 | element (i, j) of the reshaped buffer is element i·cols + j |
| Image.FlattenReshape | pykinect_azure/k4a/image.py:84 | flattening a reshaped buffer gives the buffer back |
| Image.ReshapeFlatten | pykinect_azure/k4a/image.py:84 | reshaping a flattened grid gives the grid back |
| Image.Crop | pykinect_azure/k4a/image.py:80 | each row keeps its first `width · w_scale` elements |
| Image.Group | pykinect_azure/k4a/image.py:16-17 | `reshape(rows, -1, 4)` cuts every row into groups of four |
| Image.ToNumpy | pykinect_azure/k4a/image.py:65-87 | an unlisted format raises WrongImageFormat before decoding; MJPG goes straight to the decoder; the flag returned is always true |
| Image.KeepRowsOk | pykinect_azure/k4a/image.py:83-85 | reshaping the cropped rows to height × width succeeds iff the rows are as wide as the image, and then changes nothing |
| Image.PlainDecodes | pykinect_azure/k4a/image.py:76-85 | a depth, infrared or custom image decodes iff the buffer is `height` rows of `stride // itemsize` elements at least `width` wide, to the cropped rows |
| Image.PlainPixels | pykinect_azure/k4a/image.py:76-85 | pixel (r, c) is element r·stride_elements + c of the reinterpreted buffer, so the padding is dropped |
| Image.BgraDecodes | pykinect_azure/k4a/image.py:76-82 | a BGRA32 image decodes iff the buffer is `height` rows of `stride` bytes, and the cropped row splits into whole pixels |
| Image.BgraPixels | pykinect_azure/k4a/image.py:16-17 | channel k of pixel (r, c) is byte r·stride + 4c + k of the buffer |
| Image.Nv12Image | pykinect_azure/k4a/image.py:76-82 | an NV12 image needs `int(1.5 · height)` rows of `stride` bytes; the conversion receives them cut to `width` bytes |
| Transformation.StrideBytesPerPixel | pykinect_azure/k4a/transformation.py:8-14 | bytes per pixel are defined exactly for the six listed formats, each positive |
| Transformation.CreateImageHandle | pykinect_azure/k4a/transformation.py:107-120 | a format outside the table fails at the lookup; otherwise the image has stride width × bpp, or the create call's failure raises |
| Transformation.CreatedStride | pykinect_azure/k4a/transformation.py:111 | a created image has the requested format and size, and its stride divided by bpp is its width |
| Transformation.DepthImageToColorCamera | pykinect_azure/k4a/transformation.py:42-51 | the output has the input's format at the colour resolution |
| Transformation.DepthImageToColorCameraCustom | pykinect_azure/k4a/transformation.py:53-71 | both a DEPTH16 image and a custom-format image are created at the colour resolution, and the custom one is returned |
| Transformation.ColorImageToDepthCamera | pykinect_azure/k4a/transformation.py:73-84 | the output is BGRA32 at the depth resolution with stride 4 × width |
| Transformation.DepthImageToPointCloud | pykinect_azure/k4a/transformation.py:86-98 | the output is CUSTOM at the depth image's own size with stride 6 × width |
| Transformation.CustomBytesPerPixel | pykinect_azure/k4a/transformation.py:100-105 | one byte exactly for CUSTOM8, two for every other format |
| Transformation.CustomBytesAgree | pykinect_azure/k4a/transformation.py:100-105 | for the two custom formats it agrees with the stride table |
| FrameRate.FrameRateCalculator.constructor | pykinect_azure/utils/framerate_calculator.py:5-8 | window 600, count 0, no start time |
| FrameRate.FrameRateCalculator.Start | pykinect_azure/utils/framerate_calculator.py:10-11 | the window starts now, and nothing else changes |
| FrameRate.FrameRateCalculator.Update | pykinect_azure/utils/framerate_calculator.py:13-21 | one more frame; at 600 it reports the count over the time elapsed up to its first clock reading and restarts the window at its second reading, or raises when never started or no time passed |
| FrameRate.CountFrames | pykinect_azure/utils/framerate_calculator.py:13-21 | after n updates there were n div 600 positive reports and the count is n mod 600 |
| ImuVisualizer.Slid | src/pykinect_azure/utils/visualizer.py:167-173 | the buffer drops its k oldest rows and ends with the k new ones, in order, keeping its length |
| ImuVisualizer.SlidCompose | src/pykinect_azure/utils/visualizer.py:167-173 | two updates in a row equal one update with both batches |
| ImuVisualizer.SlidFull | src/pykinect_azure/utils/visualizer.py:167-173 | a full-size batch replaces the whole buffer |
| ImuVisualizer.Rolled | src/pykinect_azure/utils/visualizer.py:168-169 | `np.roll(buf, -k)` moves every row k places towards the front, cyclically |
| ImuVisualizer.RollArray | src/pykinect_azure/utils/visualizer.py:168-169 | the new array is the roll of the old one |
| ImuVisualizer.RollThenWrite | src/pykinect_azure/utils/visualizer.py:167-173 | rolling by k and then overwriting the last k rows is the sliding window |
| ImuVisualizer.WriteTail | src/pykinect_azure/utils/visualizer.py:171-173 | the loop writes sample i's vectors to row `-k + i` of both buffers and leaves the other rows alone |
| ImuVisualizer.Visualizer.constructor | src/pykinect_azure/utils/visualizer.py:87-151 | `max_samples` × 3 zero buffers, `x_axis` = 0 .. max_samples - 1, and a frame counter started now |
| ImuVisualizer.Visualizer.UpdateFps | src/pykinect_azure/utils/visualizer.py:183-192 | one more frame; once a second has passed it reports frames per second and restarts the count at 0 |
| ImuVisualizer.Visualizer.Shift | src/pykinect_azure/utils/visualizer.py:167-173 | a non-empty batch of at most `max_samples` samples slides both buffers; a larger one leaves them rolled and raises IndexError; the frame counter is untouched |
| ImuVisualizer.Visualizer.Update | src/pykinect_azure/utils/visualizer.py:161-181 | the counter ticks on every call; no samples leave the buffers alone; k ≤ max_samples samples slide them; more raise IndexError after the roll |
| Initializer.Lower | pykinect_azure/initializer.py:52-53 | `lower()` maps each character and keeps the length |
| Initializer.K4aModulePath | pykinect_azure/initializer.py:51-74 | Linux: the aarch64 or x86_64 library path; Windows: v1.4.2, then v1.4.1, the first that exists, else FileNotFoundError; any other system raises OSError |
| Initializer.K4abtModulePath | pykinect_azure/initializer.py:77-96 | aarch64 raises before the system is looked at; Linux gives "libk4abt.so"; Windows gives the full path if it exists, else "k4abt.dll"; others raise OSError |
| Initializer.ReplaceNothing | pykinect_azure/initializer.py:99-100 | replacing leaves a string without the pattern unchanged |
| Initializer.ReplaceSplits | pykinect_azure/initializer.py:99-100 | replacing distributes over a cut after a character the pattern does not contain |
| Initializer.CopyPrefix | pykinect_azure/initializer.py:99-100 | a prefix without the pattern's first character is copied unchanged |
| Initializer.SwapName | pykinect_azure/initializer.py:99-100 | one occurrence between parts without the pattern's first character becomes the replacement, the rest unchanged |
| Initializer.RenameBeside | pykinect_azure/initializer.py:99-100 | the file name after a folder is renamed independently of the folder |
| Initializer.RecordBesideSo | pykinect_azure/initializer.py:99-100 | the record library of `dir/libk4a.so` is `libk4arecord.so` in the rewritten folder |
| Initializer.LinuxRecordBeside | pykinect_azure/initializer.py:55-100 | on Linux the record library is `libk4arecord.so` in the very folder of `libk4a.so` |
| Initializer.RecordBesideDll | pykinect_azure/initializer.py:99-100 | the record library of `dir\k4a.dll` is `k4arecord.dll` in the rewritten folder |
| Initializer.RecordBesideK4a | pykinect_azure/initializer.py:99-100 | for every resolved k4a path, the record path renames the file to `libk4arecord.so` or `k4arecord.dll` and puts the folder through the same replace; on Linux the folder is unchanged |
| Initializer.InitializeLibraries | pykinect_azure/initializer.py:17-29 | k4a is set up first (the given path or the resolved one), k4abt only when tracking bodies, then the record library from the k4a path used; a failed resolution stops the sequence |
| Body2d.TruncToZero | src/pykinect_azure/k4abt/body2d.py:42 | `astype(np.int32)` truncates toward zero |
| Body2d.VisiblePairs | src/pykinect_azure/k4abt/body2d.py:47-57 | the kept pairs are a sub-list of the segment pairs |
| Body2d.VisiblePairsIff | src/pykinect_azure/k4abt/body2d.py:47-57 | a pair is drawn iff neither end is at (0,0) and both confidences are non-zero |
| Body2d.VisibleJoints | src/pykinect_azure/k4abt/body2d.py:61-65 | the kept joints are joint indices |
| Body2d.VisibleJointsIff | src/pykinect_azure/k4abt/body2d.py:61-65 | joint i gets a circle iff it is not at (0,0) and its confidence is non-zero, in increasing index order |
| Body2d.Lines | src/pykinect_azure/k4abt/body2d.py:57 | one line of thickness 2 per pair, between its truncated ends |
| Body2d.Circles | src/pykinect_azure/k4abt/body2d.py:65 | one circle of radius 3 and thickness 3 per joint, at its truncated position |
| Body2d.SkeletonOpsSeen | src/pykinect_azure/k4abt/body2d.py:42-65 | everything drawn has the body's colour; each line joins a visible pair and each circle marks a visible joint and is absent with `only_segments` |
| Body2d.DrawSkeleton | src/pykinect_azure/k4abt/body2d.py:47-67 | the image gains the visible segments in pair order, then the visible joints in index order unless `only_segments` |
| Body2d.DrawSegments | src/pykinect_azure/k4abt/body2d.py:47-57 | the loop over the pairs draws exactly the visible ones, in order |
| Body2d.DrawJoints | src/pykinect_azure/k4abt/body2d.py:61-65 | the loop over the joints draws exactly the visible ones, in order |
| Body2d.Body2d.constructor | src/pykinect_azure/k4abt/body2d.py:17-29 | entry i of the joint table is joint i projected to 2D with joint i's confidence |
| Body2d.Body2d.Draw | src/pykinect_azure/k4abt/body2d.py:39-67 | the skeleton is drawn in the colour of `id mod 20` |
| Body2dLegacy.Draw | pykinect_azure/k4abt/body2d.py:37-65 | the colour is row `id` of `body_colors`; an id past the table raises IndexError before drawing |

## Left out

- Threads, events and blocking. Each stage is a sequential procedure over
  the trace of items it takes. A blocking `put` on a full queue is modelled
  as the consumer taking the front item at once, and `Put` returns that
  item. Interleavings are not modelled.
- `DroppedFramesAlert` and the pipeline's `FrameRateCalculator` come from
  `utils/performace_calculator.py`, which is not part of this model. A
  stage's drop alert is a natural-number counter, and the stage's frame-rate
  report is left out.
- The `queue.Empty` branch of `get_nowait` after `full()`. It cannot happen
  in a sequential model.
- h5py:
  - the joint datasets are one sequence of rows per (device, slot), so
    `frame_idx`, `positions` and `confidences` grow together by
    construction;
  - the ts and system_ts datasets are likewise one sequence;
  - the `joint_names` and `joint_connections` datasets, group attributes,
    chunking and dtypes are left out;
  - `h5file.flush()` is a counter.
- `BodySaver.Saver.Run`: bounds the number of file flushes by the items
  consumed, rather than giving their exact number. `Record` states the exact
  count for each record.
- `BodySaver.SaveBodies`: requires a positive `flush_size`. With
  `flush_size` 0 the source's first buffer write indexes an empty array.
  That `IndexError` is not modelled.
- `BodySaver.SaveBodies`: gives at most one file flush per item consumed,
  plus one.
- PyAV:
  - an encoder is a per-device list of the frames it received, with drained
    and closed flags;
  - packets, muxing, codec options, the BGR conversion and file names are
    left out.
- cv2 in the visualisation loop:
  - windows, `imshow` and `destroyAllWindows` become the list of frames
    shown and a flag;
  - key presses are a parameter;
  - the tk screen query gives the screen size as a parameter.
- Floating point:
  - joint positions, transforms and frame rates are reals;
  - float32 storage and rounding are left out;
  - the window width is computed on exact rationals, h × width / height
    truncated.
- `Body2d.TruncToZero`: truncates toward zero without int32 wrap-around.
  NaN and out-of-range coordinates are left out.
- SDK constants not shown in the source:
  - the image format codes are a datatype, with `Unlisted` for any other
    code;
  - `K4ABT_JOINT_COUNT` is 32, the number of joints of the body-tracking
    SDK;
  - `K4ABT_SEGMENT_PAIRS` is a parameter;
  - the `body_colors` table is a parameter;
  - matplotlib's `tab20` palette is a parameter.
- cv2's `imdecode`, `cvtColor` for NV12 and YUY2, and the drawing calls are
  oracles or records of draw operations. The native transformation calls
  that fill the created images are left out. The created image is
  described by its format, size and stride.
- `Transformation.__init__` and handle release: a transformation is its
  colour and depth resolutions.
- `initializer.py`:
  - the operating system name, machine name, `PROGRAMFILES` and the file
    existence test are parameters;
  - `lower()` is ASCII lower-casing;
  - `pathlib` joins are concatenations with `\`, without normalisation;
  - the Linux paths are the source's literals built as directory plus
    file name;
  - `start_device`, `start_body_tracker` and `start_playback` call into the
    SDK and are left out.
- `IMUVisualizer`: vispy widgets, lines, legend positions and event
  processing are left out. The clock is a parameter, read once per update.
- Device start, tracker start, output directory naming and `mkdir` in
  `default_pipeline` are left out. The device decisions and thread orders
  are modelled.
- The capture stage without a tracker puts bare captures. The computation
  stage cannot unpack those, so the model treats such an item as one that
  raises and ends the stage. `default_pipeline` always passes a tracker.
