# PPE compliance fusion, modelled in Dafny

This project models the per-frame compliance logic of a safety monitor. The monitor looks for people, hardhats and faces in a camera frame. Each recognised face gets a status (colour and message), and that message is written to a status log. All of the logic lives in `detector_with_gpu.py`. The model covers four of its pieces:

- **Geometry** (`geometry.dfy`): `calculate_intersection_area`. It computes the overlap of two boxes with inclusive pixel edges, so the box (0,0,10,10) overlaps itself in 121 pixels. It also covers the `> 0.1` test applied to that integer area.
- **Detections** (`detections.dfy`): the loop of `detect_objects` over the detector output. A raw detection is an integer box, a class index into the ten-name vocabulary, and a confidence rounded up to hundredths. Hardhat and NO-Hardhat boxes with more than 50 hundredths go to the labelled hardhat list, and Person boxes go to the person list. Both lists keep detection order. Mask, NO-Mask, the vest classes, Safety Cone, machinery and vehicle are dropped.
- **Gallery** (`gallery.dfy`): `load_known_faces`. Each `.jpg`/`.png` file in the listing gives one encoding and one name. The name follows `os.path.splitext`, so "alice.jpg" gives "alice" and ".jpg" keeps its whole name. Other files are skipped.
- **Compliance** (`compliance.dfy`): the per-face fusion loop of `detect_objects`. It resolves the name from the recogniser's match flags (first match, else "Unknown"). It takes the first person box overlapping the face and scans every hardhat box against that person box and the face. Each qualifying box overwrites the status, so the last one decides. The decision table uses the last QR payload of the frame. One status per face is appended to the log, in face order.

The operations that change state step by step are methods with loops. These are the detection filter, the gallery loader, the QR loop, the person and hardhat loops, and the frame loop that appends to the log. Each method is proved equal to a specification function (`PersonBoxes`/`HardhatBoxes`, `ImageFiles` with `Stem`, `LastOf`, `FaceStatus` with `FaceBox` and `HardhatOutcome`, `FaceStatuses`/`FrameStatuses`), and the lemmas state their properties. The log is the class `StatusLog`, whose `entries` sequence `LogStatus` appends to.

Three behaviours of the code are easy to misread; the model follows the code as written:

- The hardhat loop has no `break`, so the last qualifying hardhat box decides, not the first.
- The QR loop overwrites `barcode_data`, so the last decoded payload counts, not the first.
- An empty QR payload counts as absent, because the code tests it for truthiness.

## Model

| member | source | states |
|---|---|---|
| `Geometry.IntersectionArea` | detector_with_gpu.py:11-21 | the inclusive-pixel intersection area is never negative |
| `Geometry.ExceedsThreshold` | detector_with_gpu.py:116 | the `area > 0.1` test on an integer area holds exactly when the area is at least 1 |
| `Geometry.IntersectionSymmetric` | detector_with_gpu.py:11-21 | the area does not depend on the order of the two boxes |
| `Geometry.OverlapIffSharedPixel` | detector_with_gpu.py:11-21 | the area is positive if and only if some pixel lies in both boxes, edges included |
| `Geometry.ContainedArea` | detector_with_gpu.py:11-21 | a box inside another overlaps it in its whole (x2-x1+1)*(y2-y1+1) area, in either argument order |
| `Geometry.IntersectionExamples` | detector_with_gpu.py:11-21 | (0,0,10,10) with itself gives 121, disjoint boxes give 0, boxes sharing one column give 11 and pass the threshold |
| `Detections.HardhatBoxes` | detector_with_gpu.py:79-80 | every entry of the hardhat list is labelled "Hardhat" or "NO-Hardhat" |
| `Detections.ConfidenceThreshold` | detector_with_gpu.py:60-71 | `conf > 0.5` on the rounded-up confidence holds exactly when the hundredths exceed 50 |
| `Detections.FilterDetections` | detector_with_gpu.py:52-82 | the loop, with its `continue` for mask and vest classes, builds exactly the person list and the hardhat list of the detections (the specification functions `PersonBoxes`, lines 81-82, and `HardhatBoxes`) |
| `Detections.FilterAppend` | detector_with_gpu.py:52-82 | filtering distributes over concatenation, so both lists keep detection order |
| `Detections.PersonBoxesExact` | detector_with_gpu.py:71-82 | a box is in the person list if and only if it comes from a Person detection with more than 50 hundredths |
| `Detections.HardhatBoxesExact` | detector_with_gpu.py:71-80 | a labelled box is in the hardhat list if and only if it comes from a retained Hardhat or NO-Hardhat detection with that label |
| `Detections.DroppedClassesIgnored` | detector_with_gpu.py:66-71 | a detection of any class other than Hardhat, NO-Hardhat and Person changes neither list, whatever its confidence |
| `Gallery.Stem` | detector_with_gpu.py:34 | the name plus the four-character extension gives back the file name, unless only dots precede the extension, in which case the name is the whole file name |
| `Gallery.ImageFiles` | detector_with_gpu.py:28-29 | every selected name has an accepted extension and comes from the listing |
| `Gallery.LoadKnownFaces` | detector_with_gpu.py:23-36 | encodings and names have equal length, one per image file in listing order; each name is the file's stem and each encoding is the first face of that image |
| `Gallery.ImageFilesExact` | detector_with_gpu.py:28-29 | a file is selected if and only if it is in the listing and ends in ".jpg" or ".png" (case-sensitive) |
| `Gallery.ImageFilesAppend` | detector_with_gpu.py:28-29 | selection distributes over concatenation of listings, so listing order is kept |
| `Gallery.StemExamples` | detector_with_gpu.py:29-34 | "alice.jpg" gives "alice", "j.doe.jpg" gives "j.doe", ".jpg" keeps its name, and "carol.JPG" is not an image file |
| `Gallery.ListingExample` | detector_with_gpu.py:28-34 | a text file is skipped, and two images of one person both become entries named "alice", in listing order |
| `Compliance.FirstMatch` | detector_with_gpu.py:105-106 | the result is the smallest index whose flag is true, and there is none exactly when no flag is true |
| `Compliance.ResolveName` | detector_with_gpu.py:102-107 | the name is the gallery name at the first true flag, or "Unknown" when no flag is true |
| `Compliance.Decide` | detector_with_gpu.py:122-148 | the decision table, one colour at a time: green iff known, Hardhat and a non-empty QR equal to the name; orange iff known, Hardhat and not that; yellow iff known and NO-Hardhat; pink iff Unknown, Hardhat and a non-empty QR that is a gallery name; red iff Unknown and not pink. Known texts start with "{name}, ": green is "{name}, All Good!", orange "{name}, Wear Your Own Helmet!!", yellow "{name}, Please Wear Your Helmet"; unknown texts are the two alert texts |
| `Compliance.FirstOverlappingPerson` | detector_with_gpu.py:114-116 | the result is the first person box whose area with the face passes the threshold, and there is none exactly when no box passes |
| `Compliance.LastQualifyingHardhat` | detector_with_gpu.py:117-120 | the result is the last hardhat box overlapping the person box or the face, and there is none exactly when no box does |
| `Compliance.FaceStatus` | detector_with_gpu.py:101-150 | the face box is the recogniser's (top, right, bottom, left) reordered to (left, top, right, bottom) by `FaceBox` (line 109); a face is green only when it is known and the QR payload equals its name, and pink only when it is Unknown and the QR payload is a gallery name; an Unknown face only ever shows "detecting...", the guest alert or the unknown alert |
| `Compliance.EvaluateFace` | detector_with_gpu.py:109-150 | the person loop with its `break` and the overwriting hardhat loop yield exactly the face's status; the hardhat loop's invariant is `HardhatOutcome`, the decision for the last qualifying box so far or the default (lines 117-148) |
| `Compliance.NoPersonMeansDetecting` | detector_with_gpu.py:111-116 | with no person box overlapping the face, the status is red "detecting...", whatever the gallery, hardhats and QR payload |
| `Compliance.NoQualifyingHardhatMeansDetecting` | detector_with_gpu.py:111-120 | when no hardhat box qualifies for the first overlapping person box, the status is red "detecting..." for all other inputs |
| `Compliance.FirstPersonDecides` | detector_with_gpu.py:114-150 | person boxes after the first overlapping one never change the status |
| `Compliance.LastQualifyingAt` | detector_with_gpu.py:117-120 | a qualifying hardhat box followed only by non-qualifying ones is the one the scan ends on |
| `Compliance.LastHardhatDecides` | detector_with_gpu.py:117-148 | the status is the decision for the last qualifying hardhat box, whatever qualifying boxes come before it |
| `Compliance.GalleryEntryNamedUnknown` | detector_with_gpu.py:103-122 | a first-matching gallery entry literally named "Unknown" takes the unknown branch |
| `Compliance.KnownHardhatExamples` | detector_with_gpu.py:122-129 | Alice with a hardhat: QR "Alice" gives green "Alice, All Good!"; no QR, QR "Bob" or an empty QR gives orange "Alice, Wear Your Own Helmet!!" |
| `Compliance.KnownNoHardhatExample` | detector_with_gpu.py:130-132 | Alice without a hardhat gives yellow "Alice, Please Wear Your Helmet" whatever the QR |
| `Compliance.UnknownDecisionExamples` | detector_with_gpu.py:134-148 | an unknown face with a hardhat and QR "Alice" gives the pink guest alert; no QR, a non-gallery QR or no hardhat gives the red unknown alert |
| `Compliance.FilterExample` | detector_with_gpu.py:71-82 | a confident Person detection and a confident Hardhat detection give one entry in each list |
| `Compliance.FaceExample` | detector_with_gpu.py:101-150 | a recognised face under a hardhat inside a person box is orange without the matching QR and green with it |
| `Compliance.FrameExample` | detector_with_gpu.py:52-152 | that whole frame yields exactly one status: "alice, Wear Your Own Helmet!!" without a QR and "alice, All Good!" with QR "alice" |
| `Compliance.BreakExample` | detector_with_gpu.py:114-150 | when the first overlapping person box has no qualifying hardhat, the face stays "detecting..." even though a later person box has one |
| `Compliance.LastPayload` | detector_with_gpu.py:89-92 | the overwriting loop yields `LastOf(payloads)`: absent when nothing was decoded, otherwise the last decoded payload |
| `Compliance.FaceStatuses` | detector_with_gpu.py:101-152 | one status per face, in face order, each the status of that face |
| `Compliance.FrameStatuses` | detector_with_gpu.py:52-152 | one status per face of the frame, against the filtered boxes and `LastOf` the payloads; a face is green only when the frame's last QR payload is present and equals its name |
| `Compliance.StatusLog.LogStatus` | detector_with_gpu.py:152 | one call appends exactly its text to the log |
| `Compliance.DetectObjects` | detector_with_gpu.py:38-158 | the statuses are those of the frame's faces against the filtered boxes and the last QR payload, and the log grows by exactly their texts, one per face, in face order |

## Left out

- Torch device selection, `model.to(device)` and the device print (detector_with_gpu.py:40-42): GPU plumbing with no effect on the result.
- YOLO inference and tensor unpacking (detector_with_gpu.py:47,53,56,63): detections are an input. Boxes are integers, and the confidence arrives already rounded up to hundredths, so no floating point reaches the model.
- The unused width, height and per-class drawing colour computed for each detection (detector_with_gpu.py:57,72-77): nothing reads them.
- face_recognition's image loading, face location, encoding and comparison: these are foreign model calls. The gallery encoder is the parameter `faceEncodings`, with the precondition that every image yields at least one face, because line 32 takes element `[0]`. Per-frame faces and their match flags are inputs, with one flag per gallery name.
- pyzbar decoding and its exception handler (detector_with_gpu.py:90-99): the decoded payloads are an input sequence. A decode failure part-way is the same as a shorter sequence.
- All cv2 drawing (detector_with_gpu.py:93-97,155-156): these are side effects on the image buffer. Colours are kept as BGR triples in each status.
- The database behind `log_status` is not part of this model. The log is an append-only sequence of strings.
- `os.listdir` and file reading: the listing is an input sequence of file names, so its order is whatever the caller passes.
- app_with_gpu.py: Flask routes, webcam capture, JPEG encoding and the MJPEG stream are I/O with no logic of their own.
- Integer width: coordinates are unbounded integers. The source's 32-bit numpy box coordinates could only overflow far outside any image size.
