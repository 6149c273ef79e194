# DetectCoral vision loop: result encoding and publishing

This project models the part of `utils/object_detection.py` that acts on the
object detector's answer in each cycle of `main`'s loop. The detector is an
on-device accelerator, and its answer is an ordered list of detections, each with
a class id and a bounding box. For each answer, the loop:

- publishes the number of detections to the `nb_boxes` network-table entry;
- rebuilds two lists from empty: `boxes`, with four coordinates per detection,
  and `names`, with each detection's label from the table
  `{0: "hatch", 1: "cargo"}`;
- draws each box on the frame. After each box it pushes the frame to the `MLOut`
  video stream, so the frame goes out once per detection with one more rectangle
  each time. When there are no detections, the raw frame is pushed once instead;
- publishes `boxes` and then `boxes_names`.

A class id that is missing from the label table raises a KeyError. Nothing
catches it, so the cycle stops there and the program ends. When logging is on,
`log_object` makes the same lookup earlier in each iteration, so it can fail
there instead.

The project has two modules:

- `Detections` (`detections.dfy`) holds the data model and the reference
  semantics. `Cycle` gives what one cycle publishes and how it ends. `Run` gives
  the same for a sequence of cycles. The module also holds the lemmas about them.
- `ObjectDetection` (`object_detection.dfy`) holds the imperative part of the
  model:
  - `Sinks`: the table entries and the video output, kept as one log of publish
    calls;
  - `RunCycle`: the loop body, written as a `for` loop over the detections;
  - `MainLoop`: `main`'s loop, bounded by a finite sequence of detector answers.

  Both methods are proved equal to the reference semantics.

## Model

| member | source | states |
|---|---|---|
| `Detections.FirstMissing` | utils/object_detection.py:91-95 | the index where the label lookup fails: there is none exactly when the table is empty or knows every class id; otherwise it is in range, its id is unknown, and every earlier id is known |
| `Detections.Cycle` | utils/object_detection.py:86 | the first thing a cycle publishes is the count, equal to the number of detections |
| `Detections.FlatBoxesLayout` | utils/object_detection.py:87-97 | `boxes` has 4·n numbers, and numbers 4i..4i+3 are detection i's box as (x1, y1, x2, y2), in engine order |
| `Detections.RectsLayout` | utils/object_detection.py:96-99 | the rectangles drawn are the detections' boxes, one per detection, in order |
| `Detections.NameListLayout` | utils/object_detection.py:94-95 | with a non-empty table that knows every id, `names` has one entry per detection, and entry i is the label of detection i |
| `Detections.AnnotatedFramesLayout` | utils/object_detection.py:90-100 | one frame is put per detection, and the k-th carries the rectangles of the first k detections |
| `Detections.CycleOutcome` | utils/object_detection.py:94-95 | a cycle completes exactly when the table is empty or knows every id; otherwise it ends with the KeyError of an unknown id, and every id before that one is known |
| `Detections.FirstMissingAt` | utils/object_detection.py:91-95 | the lookup fails at the first unknown id and at no other index |
| `Detections.CycleOrder` | utils/object_detection.py:86-107 | when no lookup fails, the cycle publishes the count, then frames only (one frame, or one per detection), then `boxes` of this cycle's detections, then `boxes_names` |
| `Detections.EmptyCycle` | utils/object_detection.py:102-107 | with no detection: the cycle completes, the raw frame is the only frame put, and empty `boxes` and `boxes_names` are published |
| `Detections.CompletedFrames` | utils/object_detection.py:90-100 | with detections and no failing lookup: exactly n frames are put, the k-th with the first k boxes drawn, and never the raw frame |
| `Detections.AbortedFrames` | utils/object_detection.py:91-100 | when the lookup fails at detection i: the frames of the i earlier detections were already put, each with the boxes drawn so far, and the raw frame was not |
| `Detections.AbortedCycle` | utils/object_detection.py:95-107 | a cycle that raises KeyError publishes neither `boxes` nor `boxes_names` |
| `Detections.DeployedTable` | utils/object_detection.py:47-48 | with the deployed table, a cycle completes exactly when every id is 0 or 1, and then name i is "hatch" for id 0 and "cargo" for id 1 |
| `Detections.OneHatch` | utils/object_detection.py:86-107 | one hatch with box (10,10)-(50,50) publishes count 1, one frame with that box, `[10,10,50,50]` and `["hatch"]` |
| `Detections.CargoThenHatch` | utils/object_detection.py:91-95 | ids 1 then 0 publish the names `["cargo", "hatch"]`, in engine order and not sorted |
| `Detections.RunAppend` | utils/object_detection.py:78-111 | nothing carries over between cycles: the output of a later cycle depends only on that cycle's detections, and no cycle runs after a KeyError |
| `ObjectDetection.LogObjectAgrees` | utils/object_detection.py:17-20 | `log_object`'s lookup fails on a detection exactly when the encoder's lookup would, with the same KeyError |
| `ObjectDetection.RunCycle` | utils/object_detection.py:84-107 | the loop body appends exactly the events `Cycle` gives to what was already published, and ends as `Cycle` says, whether logging is on or off |
| `ObjectDetection.MainLoop` | utils/object_detection.py:78-111 | cycles over the deployed table publish exactly what `Run` gives, and stop at the first KeyError |
| `ObjectDetection.Sinks.constructor` | utils/object_detection.py:52-71 | the sinks start with nothing published |
| `ObjectDetection.Sinks.SetNbBoxes` | utils/object_detection.py:86 | appends one count event and changes nothing else |
| `ObjectDetection.Sinks.PutFrame` | utils/object_detection.py:100 | appends one frame event and changes nothing else |
| `ObjectDetection.Sinks.SetBoxes` | utils/object_detection.py:106 | appends one boxes event and changes nothing else |
| `ObjectDetection.Sinks.SetBoxesNames` | utils/object_detection.py:107 | appends one names event and changes nothing else |

## Left out

- Command-line parsing (lines 37-41) is glue. Only the `--logging` flag reaches the model, as a parameter.
- Building the detection engine and running inference (lines 46, 84) is an opaque accelerator call. Its answer is an input sequence of any length. The `top_k = 10` cap and the 0.05 score floor belong to the engine, and the model does not depend on them.
- The network-table client and the entry lookups (lines 52-61) are network I/O. Entry writes appear only as events in the `Sinks` log. The model does not capture that each entry keeps only its latest value.
- The camera server, `grabFrame`, pixel data and `ImageDraw.rectangle` (lines 65-71, 79-81, 99) are hardware and image I/O. A frame is modelled only as raw or as annotated with a list of rectangles. The status returned by `grabFrame` is ignored in the source, and it is not modelled.
- The detection score and the console printing (lines 18-25, 44-76, 104) are left out. This includes the `abs(x1 - x2)` width that `log_object` prints. Only the label lookup in `log_object`, which can raise KeyError, is modelled.
- The frame-rate computation `1 / (time() - start)` (lines 73, 109, 111) uses wall-clock time and floating point. The code has no guard for zero elapsed time, and this is not modelled.
- The distance and angle formulas in the string at lines 28-33 are never executed.
- The `while True` loop (line 78) is modelled by `MainLoop` over a finite sequence of detector answers, not as non-termination.
- Box coordinates are copied as `real`. They are doubles in the source, but nothing is computed with them.
- The code handles a missing class id by raising an uncaught KeyError, which ends the program. The design documents describe a placeholder name or a start-up check instead. The model follows the code. The design also allows the publish calls in any order, but the code has a fixed order, and the model follows that order.
