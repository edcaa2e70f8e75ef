// The detection adapter of detect_objects: raw detector output is sorted into
// the ordered person-box list and the ordered labelled hardhat-box list.

module Detections {
  import opened Geometry

  /** The detector's ten-class vocabulary, indexed by class number. */
  const ClassNames: seq<string> := ["Hardhat", "Mask", "NO-Hardhat", "NO-Mask", "NO-Safety Vest",
                                    "Person", "Safety Cone", "Safety Vest", "machinery", "vehicle"]

  /** Classes the adapter skips before looking at the confidence. */
  const SkippedClasses: seq<string> := ["Mask", "NO-Mask", "Safety Vest", "NO-Safety Vest"]

  /** One raw detection: an integer box, a class index into ClassNames and the
      confidence already rounded up to hundredths (ceil(conf * 100)). */
  datatype RawDetection = RawDetection(box: Box, cls: int, confHundredths: int)

  /** A Hardhat or NO-Hardhat box together with its class name. */
  datatype HardhatBox = HardhatBox(box: Box, className: string)

  predicate ValidClasses(dets: seq<RawDetection>) {
    forall i :: 0 <= i < |dets| ==> 0 <= dets[i].cls < |ClassNames|
  }

  function ClassOf(d: RawDetection): string
    requires 0 <= d.cls < |ClassNames|
  {
    ClassNames[d.cls]
  }

  /** The source's `conf > 0.5`, with conf the rounded-up hundredths over 100. */
  predicate ConfidentEnough(d: RawDetection) {
    (d.confHundredths as real) / 100.0 > 0.5
  }

  /** Which detections reach the output lists: more than 50 hundredths of
      confidence and one of the three classes the fusion uses. */
  predicate Retained(d: RawDetection)
    requires 0 <= d.cls < |ClassNames|
  {
    d.confHundredths > 50 && ClassOf(d) in ["Hardhat", "NO-Hardhat", "Person"]
  }

  predicate IsPersonDetection(d: RawDetection)
    requires 0 <= d.cls < |ClassNames|
  {
    Retained(d) && ClassOf(d) == "Person"
  }

  predicate IsHardhatDetection(d: RawDetection)
    requires 0 <= d.cls < |ClassNames|
  {
    Retained(d) && ClassOf(d) != "Person"
  }

  /** The person boxes the adapter emits for dets, in detection order. */
  function PersonBoxes(dets: seq<RawDetection>): seq<Box>
    requires ValidClasses(dets)
  {
    if |dets| == 0 then []
    else
      var d := dets[|dets| - 1];
      PersonBoxes(dets[..|dets| - 1]) + (if IsPersonDetection(d) then [d.box] else [])
  }

  /** The labelled hardhat boxes the adapter emits for dets, in detection order;
      every label is "Hardhat" or "NO-Hardhat". */
  function HardhatBoxes(dets: seq<RawDetection>): (r: seq<HardhatBox>)
    requires ValidClasses(dets)
    ensures forall k :: 0 <= k < |r| ==> r[k].className == "Hardhat" || r[k].className == "NO-Hardhat"
  {
    if |dets| == 0 then []
    else
      var d := dets[|dets| - 1];
      HardhatBoxes(dets[..|dets| - 1]) + (if IsHardhatDetection(d) then [HardhatBox(d.box, ClassOf(d))] else [])
  }

  /** The confidence test as written agrees with the integer threshold. */
  lemma ConfidenceThreshold(d: RawDetection)
    ensures ConfidentEnough(d) <==> d.confHundredths > 50
  {
  }

  /** The loop body of detect_objects over the detector output. */
  method FilterDetections(dets: seq<RawDetection>) returns (personBoxes: seq<Box>, hardhatBoxes: seq<HardhatBox>)
    requires ValidClasses(dets)
    ensures personBoxes == PersonBoxes(dets)
    ensures hardhatBoxes == HardhatBoxes(dets)
  {
    personBoxes, hardhatBoxes := [], [];
    for i := 0 to |dets|
      invariant personBoxes == PersonBoxes(dets[..i])
      invariant hardhatBoxes == HardhatBoxes(dets[..i])
    {
      assert dets[..i + 1][..i] == dets[..i];
      var d := dets[i];
      var currentClass := ClassNames[d.cls];
      if currentClass in SkippedClasses {
        continue;
      }
      if ConfidentEnough(d) && (currentClass == "Hardhat" || currentClass == "NO-Hardhat" || currentClass == "Person") {
        if currentClass == "Hardhat" || currentClass == "NO-Hardhat" {
          hardhatBoxes := hardhatBoxes + [HardhatBox(d.box, currentClass)];
        }
        if currentClass == "Person" {
          personBoxes := personBoxes + [d.box];
        }
      }
    }
    assert dets[..|dets|] == dets;
  }

  /** Filtering distributes over concatenation: both lists keep detection order. */
  lemma {:induction false} FilterAppend(a: seq<RawDetection>, b: seq<RawDetection>)
    requires ValidClasses(a) && ValidClasses(b)
    ensures ValidClasses(a + b)
    ensures PersonBoxes(a + b) == PersonBoxes(a) + PersonBoxes(b)
    ensures HardhatBoxes(a + b) == HardhatBoxes(a) + HardhatBoxes(b)
    decreases |b|
  {
    if |b| > 0 {
      var b' := b[..|b| - 1];
      assert (a + b)[..|a + b| - 1] == a + b';
      FilterAppend(a, b');
    } else {
      assert a + b == a;
    }
  }

  /** A box is in the person list exactly when it comes from a retained Person detection. */
  lemma {:induction false} PersonBoxesExact(dets: seq<RawDetection>, b: Box)
    requires ValidClasses(dets)
    ensures b in PersonBoxes(dets) <==> exists i :: 0 <= i < |dets| && IsPersonDetection(dets[i]) && dets[i].box == b
  {
    if |dets| > 0 {
      var init := dets[..|dets| - 1];
      PersonBoxesExact(init, b);
      assert forall i :: 0 <= i < |init| ==> init[i] == dets[i];
    }
  }

  /** A labelled box is in the hardhat list exactly when it comes from a
      retained Hardhat or NO-Hardhat detection, carrying that detection's class. */
  lemma {:induction false} HardhatBoxesExact(dets: seq<RawDetection>, h: HardhatBox)
    requires ValidClasses(dets)
    ensures h in HardhatBoxes(dets) <==>
      exists i :: 0 <= i < |dets| && IsHardhatDetection(dets[i]) && HardhatBox(dets[i].box, ClassOf(dets[i])) == h
  {
    if |dets| > 0 {
      var init := dets[..|dets| - 1];
      HardhatBoxesExact(init, h);
      assert forall i :: 0 <= i < |init| ==> init[i] == dets[i];
    }
  }

  /** Mask, NO-Mask, the two vest classes, Safety Cone, machinery and vehicle
      never reach either list, whatever their confidence. */
  lemma DroppedClassesIgnored(dets: seq<RawDetection>, d: RawDetection)
    requires ValidClasses(dets) && 0 <= d.cls < |ClassNames|
    requires ClassOf(d) !in ["Hardhat", "NO-Hardhat", "Person"]
    ensures ValidClasses(dets + [d])
    ensures PersonBoxes(dets + [d]) == PersonBoxes(dets)
    ensures HardhatBoxes(dets + [d]) == HardhatBoxes(dets)
  {
    assert (dets + [d])[..|dets|] == dets;
  }
}
