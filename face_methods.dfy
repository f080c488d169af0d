/** The per-frame pose classifier of the enrollment page (`checkDetections`):
    project the first detection's keypoints into preview space, gate on all six
    lying inside the guide circle, then decide the direction the face is turned. */
module FaceMethods {
  import opened Options
  import opened Vision
  import opened ImageUtils

  datatype FaceDirection = Up | Down | Right | Left | Forward | OutsideOfCircle

  /** One step of the enrollment script: a direction held for `count` frames. */
  datatype FaceAction = FaceAction(name: FaceDirection, count: int)

  /** The six keypoint slots, in the detector's order. */
  const KeypointSlotCount := 6
  const LeftEye := 0
  const RightEye := 1
  const Nose := 2
  const Mouth := 3

  /** The value a slot keeps when the detector supplies no keypoint for it. */
  const MissingPoint := Point(-1.0, -1.0)

  const HorizontalThresholdRatio := 0.3
  const UpThresholdRatio := 0.5
  const DownThresholdRatio := 0.1

  /** Maps a normalised keypoint into preview space. */
  function Project(k: Point, imageSize: Size, sp: ScalePadding): (p: Point)
    ensures imageSize.width * sp.r != 0.0 ==> k.x == (p.x + sp.paddingX) / (imageSize.width * sp.r)
    ensures imageSize.height * sp.r != 0.0 ==> k.y == (p.y + sp.paddingY) / (imageSize.height * sp.r)
  {
    Point(k.x * imageSize.width * sp.r - sp.paddingX, k.y * imageSize.height * sp.r - sp.paddingY)
  }

  /** The image centre lands on the preview centre exactly when the axis that
      received no padding is not overflowing, i.e. the padding went to the axis
      that overflows. */
  lemma ImageCentreOnPreviewCentreIff(cameraSize: Size, imageSize: Size)
    requires imageSize.width > 0.0 && imageSize.height > 0.0
    requires cameraSize.width > 0.0 && cameraSize.height > 0.0
    ensures var sp := CalculateScaleAndPadding(cameraSize, imageSize);
      var c := Project(Point(0.5, 0.5), imageSize, sp);
      (c.x == cameraSize.width / 2.0 && c.y == cameraSize.height / 2.0) <==>
      (if imageSize.height > imageSize.width then imageSize.height * sp.r == cameraSize.height
       else imageSize.width * sp.r == cameraSize.width)
  {
    PaddingFollowsImageAspect(cameraSize, imageSize);
  }

  /** The six slots after the keypoint loop: the i-th keypoint projected when
      the detector supplied one, `MissingPoint` otherwise. */
  function KeypointSlots(keypoints: seq<Point>, imageSize: Size, sp: ScalePadding): (slots: seq<Point>)
    ensures |slots| == KeypointSlotCount
  {
    seq(KeypointSlotCount, i requires 0 <= i < KeypointSlotCount =>
      if i < |keypoints| then Project(keypoints[i], imageSize, sp) else MissingPoint)
  }

  /** The `forEachIndexed` loop that assigns each projected keypoint to its
      slot through the setter list, ignoring keypoints past the sixth. */
  method FillKeypoints(keypoints: seq<Point>, imageSize: Size, sp: ScalePadding) returns (slots: seq<Point>)
    ensures |slots| == KeypointSlotCount
    ensures forall i :: 0 <= i < KeypointSlotCount && i < |keypoints| ==> slots[i] == Project(keypoints[i], imageSize, sp)
    ensures forall i :: |keypoints| <= i < KeypointSlotCount ==> slots[i] == MissingPoint
    ensures slots == KeypointSlots(keypoints, imageSize, sp)
  {
    slots := [MissingPoint, MissingPoint, MissingPoint, MissingPoint, MissingPoint, MissingPoint];
    for index := 0 to |keypoints|
      invariant |slots| == KeypointSlotCount
      invariant forall i :: 0 <= i < KeypointSlotCount ==>
        slots[i] == if i < index then Project(keypoints[i], imageSize, sp) else MissingPoint
    {
      if index < |slots| {
        slots := slots[index := Project(keypoints[index], imageSize, sp)];
      }
    }
  }

  /** Keypoints beyond the sixth never reach a slot. */
  lemma ExtraKeypointsIgnored(keypoints: seq<Point>, imageSize: Size, sp: ScalePadding)
    requires |keypoints| >= KeypointSlotCount
    ensures KeypointSlots(keypoints, imageSize, sp) == KeypointSlots(keypoints[..KeypointSlotCount], imageSize, sp)
  {
  }

  /** The on-screen guide circle, centred in the preview. */
  datatype Circle = Circle(centerX: real, centerY: real, radius: real)

  function Min(a: real, b: real): (m: real)
    ensures m <= a && m <= b && (m == a || m == b)
  {
    if a <= b then a else b
  }

  function GuideCircle(cameraSize: Size): Circle
  {
    Circle(cameraSize.width / 2.0, cameraSize.height / 2.0, Min(cameraSize.width, cameraSize.height) / 2.5)
  }

  /** The squared-distance test; a point on the circle counts as inside. */
  predicate InCircle(p: Point, c: Circle)
  {
    (p.x - c.centerX) * (p.x - c.centerX) + (p.y - c.centerY) * (p.y - c.centerY) <= c.radius * c.radius
  }

  function Abs(x: real): real
  {
    if x < 0.0 then -x else x
  }

  /** The direction decision from the face centre's offsets to the circle
      centre. The horizontal rule applies only when the horizontal offset is
      strictly the larger; ties go to the vertical rule, whose up and down
      thresholds differ. */
  function Decide(hOff: real, vOff: real, faceWidth: real, faceHeight: real): (d: FaceDirection)
    ensures d != OutsideOfCircle
    ensures d == Right <==>
      Abs(hOff) > Abs(vOff) && Abs(hOff) > faceWidth * HorizontalThresholdRatio && hOff > 0.0
    ensures d == Left <==>
      Abs(hOff) > Abs(vOff) && Abs(hOff) > faceWidth * HorizontalThresholdRatio && hOff <= 0.0
    ensures d == Up <==>
      Abs(hOff) <= Abs(vOff) && vOff < 0.0 && Abs(vOff) > faceHeight * UpThresholdRatio
    ensures d == Down <==>
      Abs(hOff) <= Abs(vOff) && vOff > 0.0 && Abs(vOff) > faceHeight * DownThresholdRatio
  {
    var horizontalThreshold := faceWidth * HorizontalThresholdRatio;
    var upThreshold := faceHeight * UpThresholdRatio;
    var downThreshold := faceHeight * DownThresholdRatio;
    if Abs(hOff) > Abs(vOff) then
      if Abs(hOff) > horizontalThreshold then
        if hOff > 0.0 then Right else Left
      else Forward
    else
      if vOff < 0.0 && Abs(vOff) > upThreshold then Up
      else if vOff > 0.0 && Abs(vOff) > downThreshold then Down
      else Forward
  }

  function Mirror(d: FaceDirection): FaceDirection
  {
    match d
    case Left => Right
    case Right => Left
    case _ => d
  }

  /** Reflecting the face left-to-right swaps LEFT and RIGHT and keeps every
      other outcome. */
  lemma DecideMirrorsHorizontally(hOff: real, vOff: real, faceWidth: real, faceHeight: real)
    ensures Decide(-hOff, vOff, faceWidth, faceHeight) == Mirror(Decide(hOff, vOff, faceWidth, faceHeight))
  {
  }

  /** Up and down are not symmetric: an offset between a tenth and a half of
      the face height below the centre reads as DOWN, the same offset above the
      centre as FORWARD. */
  lemma UpDownAsymmetry(hOff: real, v: real, faceWidth: real, faceHeight: real)
    requires faceHeight > 0.0
    requires faceHeight * DownThresholdRatio < v <= faceHeight * UpThresholdRatio
    requires Abs(hOff) <= v
    ensures Decide(hOff, v, faceWidth, faceHeight) == Down
    ensures Decide(hOff, -v, faceWidth, faceHeight) == Forward
  {
  }

  /** The face centre: the mean of the eyes and the nose. */
  function FaceCentre(slots: seq<Point>): Point
    requires |slots| == KeypointSlotCount
  {
    Point((slots[LeftEye].x + slots[RightEye].x + slots[Nose].x) / 3.0,
          (slots[LeftEye].y + slots[RightEye].y + slots[Nose].y) / 3.0)
  }

  /** The classification of one frame from its six preview-space slots. */
  function Classify(slots: seq<Point>, cameraSize: Size): (d: FaceDirection)
    requires |slots| == KeypointSlotCount
    ensures d == OutsideOfCircle <==>
      exists i :: 0 <= i < KeypointSlotCount && !InCircle(slots[i], GuideCircle(cameraSize))
  {
    var circle := GuideCircle(cameraSize);
    if exists i :: 0 <= i < KeypointSlotCount && !InCircle(slots[i], circle) then OutsideOfCircle
    else
      var leftEye, rightEye, mouth := slots[LeftEye], slots[RightEye], slots[Mouth];
      var faceWidth := Abs(rightEye.x - leftEye.x);
      var faceHeight := Abs(mouth.y - (leftEye.y + rightEye.y) / 2.0);
      var centre := FaceCentre(slots);
      Decide(centre.x - circle.centerX, centre.y - circle.centerY, faceWidth, faceHeight)
  }

  /** The ears only gate: once all six points are inside the circle, the
      direction depends on the eyes, the nose and the mouth alone. */
  lemma EarsOnlyGate(slots: seq<Point>, other: seq<Point>, cameraSize: Size)
    requires |slots| == KeypointSlotCount && |other| == KeypointSlotCount
    requires slots[..4] == other[..4]
    requires forall i :: 0 <= i < KeypointSlotCount ==> InCircle(slots[i], GuideCircle(cameraSize))
    requires forall i :: 0 <= i < KeypointSlotCount ==> InCircle(other[i], GuideCircle(cameraSize))
    ensures Classify(slots, cameraSize) == Classify(other, cameraSize)
  {
    assert slots[LeftEye] == other[LeftEye] && slots[RightEye] == other[RightEye];
    assert slots[Nose] == other[Nose] && slots[Mouth] == other[Mouth];
  }

  /** The placeholder (-1, -1) lies outside the guide circle of any preview of
      positive size. */
  lemma MissingPointOutsideCircle(cameraSize: Size)
    requires cameraSize.width > 0.0 && cameraSize.height > 0.0
    ensures !InCircle(MissingPoint, GuideCircle(cameraSize))
  {
  }

  /** A detection with fewer than six keypoints is always outside the circle. */
  lemma FewKeypointsAreOutside(keypoints: seq<Point>, cameraSize: Size, imageSize: Size, sp: ScalePadding)
    requires |keypoints| < KeypointSlotCount
    requires cameraSize.width > 0.0 && cameraSize.height > 0.0
    ensures Classify(KeypointSlots(keypoints, imageSize, sp), cameraSize) == OutsideOfCircle
  {
    var slots := KeypointSlots(keypoints, imageSize, sp);
    MissingPointOutsideCircle(cameraSize);
    assert !InCircle(slots[KeypointSlotCount - 1], GuideCircle(cameraSize));
  }

  /** What one frame hands to `onAction`: nothing when no face was detected,
      otherwise exactly one direction, computed from the first detection. */
  function DetectedDirection(detections: seq<Detection>, cameraSize: Size, imageSize: Size): (d: Option<FaceDirection>)
    requires imageSize.width > 0.0 && imageSize.height > 0.0
    ensures d.None? <==> |detections| == 0
    ensures (|detections| > 0 && |detections[0].keypoints| < KeypointSlotCount &&
             cameraSize.width > 0.0 && cameraSize.height > 0.0) ==> d == Some(OutsideOfCircle)
  {
    if |detections| == 0 then None
    else
      var sp := CalculateScaleAndPadding(cameraSize, imageSize);
      var keypoints := detections[0].keypoints;
      assert |keypoints| < KeypointSlotCount && cameraSize.width > 0.0 && cameraSize.height > 0.0 ==>
        Classify(KeypointSlots(keypoints, imageSize, sp), cameraSize) == OutsideOfCircle by {
        if |keypoints| < KeypointSlotCount && cameraSize.width > 0.0 && cameraSize.height > 0.0 {
          FewKeypointsAreOutside(keypoints, cameraSize, imageSize, sp);
        }
      }
      Some(Classify(KeypointSlots(keypoints, imageSize, sp), cameraSize))
  }

  /** Only the first detection decides the frame's direction. */
  lemma DirectionUsesFirstDetection(detections: seq<Detection>, cameraSize: Size, imageSize: Size)
    requires imageSize.width > 0.0 && imageSize.height > 0.0
    requires |detections| > 0
    ensures DetectedDirection(detections, cameraSize, imageSize) == DetectedDirection([detections[0]], cameraSize, imageSize)
  {
  }

  /** `checkDetections`, with the `onAction` callback modelled as its result:
      `None` means the callback is not called, `Some(d)` that it is called once
      with `d`. */
  method CheckDetections(detections: seq<Detection>, cameraSize: Size, imageSize: Size)
    returns (action: Option<FaceDirection>)
    requires imageSize.width > 0.0 && imageSize.height > 0.0
    ensures action.None? <==> |detections| == 0
    ensures action == DetectedDirection(detections, cameraSize, imageSize)
  {
    if |detections| == 0 {
      return None;
    }
    var detection := detections[0];
    var sp := CalculateScaleAndPadding(cameraSize, imageSize);
    var slots := FillKeypoints(detection.keypoints, imageSize, sp);
    action := Some(Classify(slots, cameraSize));
  }
}
