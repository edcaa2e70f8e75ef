// The per-face compliance fusion of detect_objects: identity from the
// recogniser's match flags, association with the first overlapping person box,
// the hardhat scan, the decision table and the status log.

module Compliance {
  import opened Geometry
  import opened Detections

  datatype Option<T> = None | Some(value: T)

  /** A drawing colour in OpenCV's (blue, green, red) order. */
  datatype Color = Color(b: int, g: int, r: int)

  const Red := Color(0, 0, 255)
  const Green := Color(0, 255, 0)
  const Orange := Color(0, 165, 255)
  const Yellow := Color(0, 255, 255)
  const Pink := Color(255, 0, 255)

  /** The colour and text drawn for one face and the text sent to the log. */
  datatype Status = Status(color: Color, text: string)

  const UnknownName := "Unknown"
  const DetectingText := "detecting..."
  const GuestText := "Guest User Alert!"
  const UnknownText := "Unknown User Alert!!"

  /** The status a face keeps when no person and hardhat box is associated with it. */
  const Detecting := Status(Red, DetectingText)

  /** A face location as the recogniser reports it. */
  datatype FaceLocation = FaceLocation(top: int, right: int, bottom: int, left: int)

  /** One recognised face: its location and, per gallery entry, whether the
      recogniser's comparison accepted it. */
  datatype Face = Face(location: FaceLocation, matches: seq<bool>)

  /** The face as a box, reordered to (left, top, right, bottom). */
  function FaceBox(loc: FaceLocation): Box {
    Box(loc.left, loc.top, loc.right, loc.bottom)
  }

  /** A QR payload counts only when present and non-empty. */
  predicate Present(barcodeData: Option<string>) {
    barcodeData.Some? && barcodeData.value != ""
  }

  /** The index of the first accepted gallery entry, if any. */
  function FirstMatch(matches: seq<bool>): (r: Option<nat>)
    ensures r.Some? ==> r.value < |matches| && matches[r.value] &&
                        forall j :: 0 <= j < r.value ==> !matches[j]
    ensures r.None? <==> forall j :: 0 <= j < |matches| ==> !matches[j]
  {
    if |matches| == 0 then None
    else if matches[0] then Some(0)
    else match FirstMatch(matches[1..])
      case None => None
      case Some(i) => Some(i + 1)
  }

  /** The face's name: the gallery name of the first accepted entry, or "Unknown". */
  function ResolveName(matches: seq<bool>, knownFaceNames: seq<string>): (name: string)
    requires |matches| == |knownFaceNames|
    ensures (forall j :: 0 <= j < |matches| ==> !matches[j]) ==> name == UnknownName
    ensures forall i :: 0 <= i < |matches| && matches[i] && (forall j :: 0 <= j < i ==> !matches[j]) ==>
      name == knownFaceNames[i]
  {
    match FirstMatch(matches)
    case None => UnknownName
    case Some(i) => knownFaceNames[i]
  }

  /** The decision table, for a face with the given name whose associated
      hardhat box has the given class, and the last QR payload of the frame. */
  function Decide(name: string, className: string, barcodeData: Option<string>, knownFaceNames: seq<string>): (s: Status)
    ensures s.color == Green <==>
      name != UnknownName && className == "Hardhat" && Present(barcodeData) && barcodeData.value == name
    ensures s.color == Orange <==>
      name != UnknownName && className == "Hardhat" && !(Present(barcodeData) && barcodeData.value == name)
    ensures s.color == Yellow <==> name != UnknownName && className != "Hardhat"
    ensures s.color == Pink <==>
      name == UnknownName && className == "Hardhat" && Present(barcodeData) && barcodeData.value in knownFaceNames
    ensures s.color == Red <==>
      name == UnknownName && !(className == "Hardhat" && Present(barcodeData) && barcodeData.value in knownFaceNames)
    ensures name != UnknownName ==> |s.text| > |name| + 2 && s.text[..|name| + 2] == name + ", "
    ensures s.color == Green ==> s.text == name + ", All Good!"
    ensures s.color == Orange ==> s.text == name + ", Wear Your Own Helmet!!"
    ensures s.color == Yellow ==> s.text == name + ", Please Wear Your Helmet"
    ensures name == UnknownName ==> s.text == (if s.color == Pink then GuestText else UnknownText)
  {
    if name != UnknownName then
      if className == "Hardhat" then
        if Present(barcodeData) && name == barcodeData.value then
          Status(Green, name + ", All Good!")
        else
          Status(Orange, name + ", Wear Your Own Helmet!!")
      else
        Status(Yellow, name + ", Please Wear Your Helmet")
    else
      if className == "Hardhat" then
        if Present(barcodeData) && barcodeData.value in knownFaceNames then
          Status(Pink, GuestText)
        else
          Status(Red, UnknownText)
      else
        Status(Red, UnknownText)
  }

  /** The index of the first person box overlapping the face, if any. */
  function FirstOverlappingPerson(personBoxes: seq<Box>, faceBox: Box): (r: Option<nat>)
    ensures r.Some? ==> r.value < |personBoxes| &&
                        ExceedsThreshold(IntersectionArea(faceBox, personBoxes[r.value])) &&
                        forall j :: 0 <= j < r.value ==> !ExceedsThreshold(IntersectionArea(faceBox, personBoxes[j]))
    ensures r.None? <==> forall j :: 0 <= j < |personBoxes| ==> !ExceedsThreshold(IntersectionArea(faceBox, personBoxes[j]))
  {
    if |personBoxes| == 0 then None
    else if ExceedsThreshold(IntersectionArea(faceBox, personBoxes[0])) then Some(0)
    else match FirstOverlappingPerson(personBoxes[1..], faceBox)
      case None => None
      case Some(i) => Some(i + 1)
  }

  /** A hardhat box counts for a face when it overlaps the person box or the face. */
  predicate Qualifies(hardhatBox: HardhatBox, personBox: Box, faceBox: Box) {
    ExceedsThreshold(IntersectionArea(hardhatBox.box, personBox)) ||
    ExceedsThreshold(IntersectionArea(hardhatBox.box, faceBox))
  }

  /** The index of the last qualifying hardhat box, if any. */
  function LastQualifyingHardhat(hardhatBoxes: seq<HardhatBox>, personBox: Box, faceBox: Box): (r: Option<nat>)
    ensures r.Some? ==> r.value < |hardhatBoxes| && Qualifies(hardhatBoxes[r.value], personBox, faceBox) &&
                        forall j :: r.value < j < |hardhatBoxes| ==> !Qualifies(hardhatBoxes[j], personBox, faceBox)
    ensures r.None? <==> forall j :: 0 <= j < |hardhatBoxes| ==> !Qualifies(hardhatBoxes[j], personBox, faceBox)
  {
    if |hardhatBoxes| == 0 then None
    else if Qualifies(hardhatBoxes[|hardhatBoxes| - 1], personBox, faceBox) then Some(|hardhatBoxes| - 1)
    else LastQualifyingHardhat(hardhatBoxes[..|hardhatBoxes| - 1], personBox, faceBox)
  }

  /** What the hardhat scan leaves behind for a face with the given name: the
      decision for the last qualifying hardhat box, or the default status. */
  function HardhatOutcome(hardhatBoxes: seq<HardhatBox>, personBox: Box, faceBox: Box, name: string,
                          barcodeData: Option<string>, knownFaceNames: seq<string>): Status
  {
    match LastQualifyingHardhat(hardhatBoxes, personBox, faceBox)
    case None => Detecting
    case Some(h) => Decide(name, hardhatBoxes[h].className, barcodeData, knownFaceNames)
  }

  /** The status of one face: only the first person box overlapping the face
      is considered, and within it the last qualifying hardhat box decides. */
  function FaceStatus(face: Face, personBoxes: seq<Box>, hardhatBoxes: seq<HardhatBox>,
                      barcodeData: Option<string>, knownFaceNames: seq<string>): (s: Status)
    requires |face.matches| == |knownFaceNames|
    ensures s.color == Green ==>
      var name := ResolveName(face.matches, knownFaceNames);
      name != UnknownName && Present(barcodeData) && barcodeData.value == name
    ensures s.color == Pink ==>
      ResolveName(face.matches, knownFaceNames) == UnknownName &&
      Present(barcodeData) && barcodeData.value in knownFaceNames
    ensures ResolveName(face.matches, knownFaceNames) == UnknownName ==>
      s.text == DetectingText || s.text == GuestText || s.text == UnknownText
  {
    var faceBox := FaceBox(face.location);
    match FirstOverlappingPerson(personBoxes, faceBox)
    case None => Detecting
    case Some(p) =>
      HardhatOutcome(hardhatBoxes, personBoxes[p], faceBox, ResolveName(face.matches, knownFaceNames),
                     barcodeData, knownFaceNames)
  }

  /** The body of the per-face loop up to the log call: the person loop with
      its break and the hardhat loop that overwrites colour and text. */
  method EvaluateFace(face: Face, personBoxes: seq<Box>, hardhatBoxes: seq<HardhatBox>,
                      barcodeData: Option<string>, knownFaceNames: seq<string>)
    returns (faceColor: Color, statusText: string)
    requires |face.matches| == |knownFaceNames|
    ensures Status(faceColor, statusText) == FaceStatus(face, personBoxes, hardhatBoxes, barcodeData, knownFaceNames)
  {
    var name := ResolveName(face.matches, knownFaceNames);
    var faceBox := FaceBox(face.location);
    faceColor, statusText := Red, DetectingText;
    for i := 0 to |personBoxes|
      invariant forall j :: 0 <= j < i ==> !ExceedsThreshold(IntersectionArea(faceBox, personBoxes[j]))
      invariant faceColor == Red && statusText == DetectingText
    {
      var personBox := personBoxes[i];
      if ExceedsThreshold(IntersectionArea(faceBox, personBox)) {
        for j := 0 to |hardhatBoxes|
          invariant Status(faceColor, statusText) ==
            HardhatOutcome(hardhatBoxes[..j], personBox, faceBox, name, barcodeData, knownFaceNames)
        {
          assert hardhatBoxes[..j + 1][..j] == hardhatBoxes[..j];
          var hardhatBox := hardhatBoxes[j];
          if ExceedsThreshold(IntersectionArea(hardhatBox.box, personBox)) ||
             ExceedsThreshold(IntersectionArea(hardhatBox.box, faceBox)) {
            var decision := Decide(name, hardhatBox.className, barcodeData, knownFaceNames);
            faceColor, statusText := decision.color, decision.text;
          }
        }
        assert hardhatBoxes[..|hardhatBoxes|] == hardhatBoxes;
        break;
      }
    }
  }

  /** Without a person box overlapping the face the status is the default,
      whatever the gallery, the hardhat boxes and the QR payload. */
  lemma NoPersonMeansDetecting(face: Face, personBoxes: seq<Box>, hardhatBoxes: seq<HardhatBox>,
                               barcodeData: Option<string>, knownFaceNames: seq<string>)
    requires |face.matches| == |knownFaceNames|
    requires forall j :: 0 <= j < |personBoxes| ==> IntersectionArea(FaceBox(face.location), personBoxes[j]) == 0
    ensures FaceStatus(face, personBoxes, hardhatBoxes, barcodeData, knownFaceNames) == Detecting
  {
    assert FirstOverlappingPerson(personBoxes, FaceBox(face.location)).None?;
  }

  /** When no hardhat box qualifies for the first person box overlapping the
      face, the status stays the default, whatever later person boxes hold. */
  lemma NoQualifyingHardhatMeansDetecting(face: Face, personBoxes: seq<Box>, p: nat, hardhatBoxes: seq<HardhatBox>,
                                          barcodeData: Option<string>, knownFaceNames: seq<string>)
    requires |face.matches| == |knownFaceNames|
    requires FirstOverlappingPerson(personBoxes, FaceBox(face.location)) == Some(p)
    requires forall j :: 0 <= j < |hardhatBoxes| ==> !Qualifies(hardhatBoxes[j], personBoxes[p], FaceBox(face.location))
    ensures FaceStatus(face, personBoxes, hardhatBoxes, barcodeData, knownFaceNames) == Detecting
  {
  }

  /** Person boxes after the first one overlapping the face are never looked
      at, even when that first box yields no hardhat decision. */
  lemma FirstPersonDecides(face: Face, personBoxes: seq<Box>, later: seq<Box>, hardhatBoxes: seq<HardhatBox>,
                           barcodeData: Option<string>, knownFaceNames: seq<string>)
    requires |face.matches| == |knownFaceNames|
    requires exists j :: 0 <= j < |personBoxes| && ExceedsThreshold(IntersectionArea(FaceBox(face.location), personBoxes[j]))
    ensures FaceStatus(face, personBoxes + later, hardhatBoxes, barcodeData, knownFaceNames) ==
            FaceStatus(face, personBoxes, hardhatBoxes, barcodeData, knownFaceNames)
  {
    var faceBox := FaceBox(face.location);
    var all := personBoxes + later;
    var p := FirstOverlappingPerson(personBoxes, faceBox).value;
    var q := FirstOverlappingPerson(all, faceBox);
    assert all[p] == personBoxes[p];
    assert forall j :: 0 <= j < |personBoxes| ==> all[j] == personBoxes[j];
  }

  /** The scan settles on a qualifying box that no later box supersedes. */
  lemma {:induction false} LastQualifyingAt(before: seq<HardhatBox>, h: HardhatBox, after: seq<HardhatBox>, personBox: Box, faceBox: Box)
    requires Qualifies(h, personBox, faceBox)
    requires forall j :: 0 <= j < |after| ==> !Qualifies(after[j], personBox, faceBox)
    ensures LastQualifyingHardhat(before + [h] + after, personBox, faceBox) == Some(|before|)
    decreases |after|
  {
    var all := before + [h] + after;
    if |after| == 0 {
      assert all[|all| - 1] == h;
    } else {
      var init := after[..|after| - 1];
      assert all[|all| - 1] == after[|after| - 1];
      assert all[..|all| - 1] == before + [h] + init;
      LastQualifyingAt(before, h, init, personBox, faceBox);
    }
  }

  /** Within the first overlapping person box the last qualifying hardhat box
      in list order decides the status; earlier qualifying boxes are overwritten. */
  lemma LastHardhatDecides(face: Face, personBoxes: seq<Box>, p: nat, before: seq<HardhatBox>, h: HardhatBox,
                           after: seq<HardhatBox>, barcodeData: Option<string>, knownFaceNames: seq<string>)
    requires |face.matches| == |knownFaceNames|
    requires FirstOverlappingPerson(personBoxes, FaceBox(face.location)) == Some(p)
    requires Qualifies(h, personBoxes[p], FaceBox(face.location))
    requires forall j :: 0 <= j < |after| ==> !Qualifies(after[j], personBoxes[p], FaceBox(face.location))
    ensures FaceStatus(face, personBoxes, before + [h] + after, barcodeData, knownFaceNames) ==
            Decide(ResolveName(face.matches, knownFaceNames), h.className, barcodeData, knownFaceNames)
  {
    LastQualifyingAt(before, h, after, personBoxes[p], FaceBox(face.location));
    assert (before + [h] + after)[|before|] == h;
  }

  /** A gallery entry literally named "Unknown" that matches first takes the
      unknown branch of the decision table. */
  lemma GalleryEntryNamedUnknown(face: Face, personBoxes: seq<Box>, hardhatBoxes: seq<HardhatBox>,
                                 barcodeData: Option<string>, knownFaceNames: seq<string>, i: nat)
    requires |face.matches| == |knownFaceNames|
    requires i < |knownFaceNames| && knownFaceNames[i] == UnknownName
    requires face.matches[i] && forall j :: 0 <= j < i ==> !face.matches[j]
    ensures var s := FaceStatus(face, personBoxes, hardhatBoxes, barcodeData, knownFaceNames);
      s.text == DetectingText || s.text == GuestText || s.text == UnknownText
  {
  }

  /** The decision table for a recognised face named Alice wearing a
      hardhat; Bob is another gallery name. */
  lemma KnownHardhatExamples()
    ensures Decide("Alice", "Hardhat", Some("Alice"), ["Alice", "Bob"]) == Status(Green, "Alice, All Good!")
    ensures Decide("Alice", "Hardhat", None, ["Alice", "Bob"]) == Status(Orange, "Alice, Wear Your Own Helmet!!")
    ensures Decide("Alice", "Hardhat", Some("Bob"), ["Alice", "Bob"]).color == Orange
    ensures Decide("Alice", "Hardhat", Some(""), ["Alice", "Bob"]).color == Orange
  {
    assert "Alice" != UnknownName by { assert "Alice"[0] != UnknownName[0]; }
    assert "Bob" != "Alice" by { assert |"Bob"| != |"Alice"|; }
    assert "Alice" + ", All Good!" == "Alice, All Good!";
    assert "Alice" + ", Wear Your Own Helmet!!" == "Alice, Wear Your Own Helmet!!";
  }

  /** Alice without a hardhat is told to wear one whatever the QR payload. */
  lemma KnownNoHardhatExample(barcodeData: Option<string>)
    ensures Decide("Alice", "NO-Hardhat", barcodeData, ["Alice", "Bob"]) == Status(Yellow, "Alice, Please Wear Your Helmet")
  {
    assert "Alice" != UnknownName by { assert "Alice"[0] != UnknownName[0]; }
    assert "NO-Hardhat" != "Hardhat" by { assert |"NO-Hardhat"| != |"Hardhat"|; }
    assert "Alice" + ", Please Wear Your Helmet" == "Alice, Please Wear Your Helmet";
  }

  /** The decision table for an unrecognised face; Mallory is not a gallery name. */
  lemma UnknownDecisionExamples()
    ensures Decide(UnknownName, "Hardhat", Some("Alice"), ["Alice", "Bob"]) == Status(Pink, GuestText)
    ensures Decide(UnknownName, "Hardhat", None, ["Alice", "Bob"]) == Status(Red, UnknownText)
    ensures Decide(UnknownName, "Hardhat", Some("Mallory"), ["Alice", "Bob"]) == Status(Red, UnknownText)
    ensures Decide(UnknownName, "NO-Hardhat", Some("Alice"), ["Alice", "Bob"]) == Status(Red, UnknownText)
  {
    assert "Mallory" !in ["Alice", "Bob"] by {
      assert |"Mallory"| != |"Alice"| && |"Mallory"| != |"Bob"|;
    }
    assert "NO-Hardhat" != "Hardhat" by { assert |"NO-Hardhat"| != |"Hardhat"|; }
  }

  /** The adapter output for a person with a hardhat over the head. */
  lemma FilterExample()
    ensures var dets := [RawDetection(Box(0, 0, 100, 200), 5, 90), RawDetection(Box(20, 0, 80, 40), 0, 80)];
      ValidClasses(dets) &&
      PersonBoxes(dets) == [Box(0, 0, 100, 200)] &&
      HardhatBoxes(dets) == [HardhatBox(Box(20, 0, 80, 40), "Hardhat")]
  {
    var dets := [RawDetection(Box(0, 0, 100, 200), 5, 90), RawDetection(Box(20, 0, 80, 40), 0, 80)];
    assert dets[..1] == [dets[0]] && dets[..1][..0] == [];
  }

  /** A face recognised as alice inside that person box and under that
      hardhat: "Wear Your Own Helmet" without the QR payload "alice", "All
      Good" with it. */
  lemma FaceExample(barcodeData: Option<string>)
    requires barcodeData == None || barcodeData == Some("alice")
    ensures FaceStatus(Face(FaceLocation(10, 70, 60, 30), [true]), [Box(0, 0, 100, 200)],
                       [HardhatBox(Box(20, 0, 80, 40), "Hardhat")], barcodeData, ["alice"]) ==
            if barcodeData == None then Status(Orange, "alice, Wear Your Own Helmet!!")
            else Status(Green, "alice, All Good!")
  {
    var face := Face(FaceLocation(10, 70, 60, 30), [true]);
    var personBoxes := [Box(0, 0, 100, 200)];
    var hardhatBoxes := [HardhatBox(Box(20, 0, 80, 40), "Hardhat")];
    assert ResolveName(face.matches, ["alice"]) == "alice";
    assert FirstOverlappingPerson(personBoxes, FaceBox(face.location)) == Some(0);
    assert LastQualifyingHardhat(hardhatBoxes, personBoxes[0], FaceBox(face.location)) == Some(0);
    assert "alice" != UnknownName by { assert "alice"[0] != UnknownName[0]; }
    assert "alice" + ", All Good!" == "alice, All Good!";
    assert "alice" + ", Wear Your Own Helmet!!" == "alice, Wear Your Own Helmet!!";
  }

  /** The whole frame for that scene: exactly one status, the face's. */
  lemma FrameExample()
    ensures var dets := [RawDetection(Box(0, 0, 100, 200), 5, 90), RawDetection(Box(20, 0, 80, 40), 0, 80)];
      var faces := [Face(FaceLocation(10, 70, 60, 30), [true])];
      FrameStatuses(dets, faces, [], ["alice"]) == [Status(Orange, "alice, Wear Your Own Helmet!!")] &&
      FrameStatuses(dets, faces, ["alice"], ["alice"]) == [Status(Green, "alice, All Good!")]
  {
    FilterExample();
    FaceExample(None);
    FaceExample(Some("alice"));
  }

  /** The first overlapping person box settles the face even when no hardhat
      box qualifies for it: a hardhat on a second, also overlapping, person
      box is never seen. */
  lemma BreakExample()
    ensures FaceStatus(Face(FaceLocation(0, 10, 10, 0), [true]),
                       [Box(5, 5, 20, 20), Box(0, 0, 10, 30)],
                       [HardhatBox(Box(0, 25, 10, 30), "Hardhat")],
                       None, ["alice"]) == Detecting
  {
    var faceBox := FaceBox(FaceLocation(0, 10, 10, 0));
    assert ExceedsThreshold(IntersectionArea(faceBox, Box(5, 5, 20, 20)));
    assert !Qualifies(HardhatBox(Box(0, 25, 10, 30), "Hardhat"), Box(5, 5, 20, 20), faceBox);
  }

  /** The QR loop: every decoded payload overwrites the previous one. */
  method LastPayload(payloads: seq<string>) returns (barcodeData: Option<string>)
    ensures barcodeData == LastOf(payloads)
    ensures |payloads| == 0 ==> barcodeData == None
    ensures |payloads| > 0 ==> barcodeData == Some(payloads[|payloads| - 1])
  {
    barcodeData := None;
    for i := 0 to |payloads|
      invariant i == 0 ==> barcodeData == None
      invariant i > 0 ==> barcodeData == Some(payloads[i - 1])
    {
      barcodeData := Some(payloads[i]);
    }
  }

  /** The QR data a frame ends with: the last decoded payload, if any. */
  function LastOf(payloads: seq<string>): Option<string> {
    if |payloads| == 0 then None else Some(payloads[|payloads| - 1])
  }

  /** Every face carries one match flag per gallery name. */
  predicate FlagsPerName(faces: seq<Face>, knownFaceNames: seq<string>) {
    forall k :: 0 <= k < |faces| ==> |faces[k].matches| == |knownFaceNames|
  }

  /** The statuses of a list of faces against the same boxes, payload and
      gallery: one per face, in face order. */
  function FaceStatuses(faces: seq<Face>, personBoxes: seq<Box>, hardhatBoxes: seq<HardhatBox>,
                        barcodeData: Option<string>, knownFaceNames: seq<string>): (r: seq<Status>)
    requires FlagsPerName(faces, knownFaceNames)
    ensures |r| == |faces|
    ensures forall k :: 0 <= k < |faces| ==>
      r[k] == FaceStatus(faces[k], personBoxes, hardhatBoxes, barcodeData, knownFaceNames)
  {
    if |faces| == 0 then []
    else
      FaceStatuses(faces[..|faces| - 1], personBoxes, hardhatBoxes, barcodeData, knownFaceNames) +
      [FaceStatus(faces[|faces| - 1], personBoxes, hardhatBoxes, barcodeData, knownFaceNames)]
  }

  /** The statuses of a whole frame. */
  function FrameStatuses(dets: seq<RawDetection>, faces: seq<Face>, payloads: seq<string>,
                         knownFaceNames: seq<string>): (r: seq<Status>)
    requires ValidClasses(dets)
    requires FlagsPerName(faces, knownFaceNames)
    ensures |r| == |faces|
    ensures forall k :: 0 <= k < |faces| && r[k].color == Green ==>
      Present(LastOf(payloads)) && LastOf(payloads).value == ResolveName(faces[k].matches, knownFaceNames)
  {
    FaceStatuses(faces, PersonBoxes(dets), HardhatBoxes(dets), LastOf(payloads), knownFaceNames)
  }

  /** The status log behind log_status: an append-only list of texts. */
  class StatusLog {
    var entries: seq<string>

    constructor ()
      ensures entries == []
    {
      entries := [];
    }

    method LogStatus(text: string)
      modifies this
      ensures entries == old(entries) + [text]
    {
      entries := entries + [text];
    }
  }

  /** The texts of a list of statuses, in order. */
  function Texts(statuses: seq<Status>): (r: seq<string>)
  {
    seq(|statuses|, k requires 0 <= k < |statuses| => statuses[k].text)
  }

  /** One more face adds its own status at the end. */
  lemma FaceStatusesStep(faces: seq<Face>, i: nat, personBoxes: seq<Box>, hardhatBoxes: seq<HardhatBox>,
                         barcodeData: Option<string>, knownFaceNames: seq<string>)
    requires FlagsPerName(faces, knownFaceNames) && i < |faces|
    ensures FlagsPerName(faces[..i], knownFaceNames) && FlagsPerName(faces[..i + 1], knownFaceNames)
    ensures FaceStatuses(faces[..i + 1], personBoxes, hardhatBoxes, barcodeData, knownFaceNames) ==
            FaceStatuses(faces[..i], personBoxes, hardhatBoxes, barcodeData, knownFaceNames) +
            [FaceStatus(faces[i], personBoxes, hardhatBoxes, barcodeData, knownFaceNames)]
  {
    assert faces[..i + 1][..i] == faces[..i];
  }

  /** One more status adds its text at the end. */
  lemma TextsStep(statuses: seq<Status>, s: Status)
    ensures Texts(statuses + [s]) == Texts(statuses) + [s.text]
  {
  }

  /** detect_objects without the drawing: filter the detections, keep the last
      QR payload, and for each face compute its status and log its text. */
  method DetectObjects(log: StatusLog, dets: seq<RawDetection>, faces: seq<Face>, payloads: seq<string>,
                       knownFaceNames: seq<string>)
    returns (statuses: seq<Status>)
    requires ValidClasses(dets)
    requires FlagsPerName(faces, knownFaceNames)
    modifies log
    ensures statuses == FrameStatuses(dets, faces, payloads, knownFaceNames)
    ensures log.entries == old(log.entries) + Texts(statuses)
  {
    var personBoxes, hardhatBoxes := FilterDetections(dets);
    var barcodeData := LastPayload(payloads);
    statuses := [];
    for i := 0 to |faces|
      invariant statuses == FaceStatuses(faces[..i], personBoxes, hardhatBoxes, barcodeData, knownFaceNames)
      invariant log.entries == old(log.entries) + Texts(statuses)
    {
      FaceStatusesStep(faces, i, personBoxes, hardhatBoxes, barcodeData, knownFaceNames);
      var faceColor, statusText := EvaluateFace(faces[i], personBoxes, hardhatBoxes, barcodeData, knownFaceNames);
      log.LogStatus(statusText);
      TextsStep(statuses, Status(faceColor, statusText));
      statuses := statuses + [Status(faceColor, statusText)];
    }
    assert faces[..|faces|] == faces;
  }
}
