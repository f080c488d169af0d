/** The records the decision core receives from its collaborators: Compose sizes,
    and face detections as produced by the on-device face detector. The detector
    itself is not part of this model; its output is an input here. */
module Vision {

  /** A width and height (Compose `Size`: the camera preview, or the camera image). */
  datatype Size = Size(width: real, height: real)

  /** A point; keypoints arrive normalised to [0, 1] relative to the image,
      projected points are in preview space. */
  datatype Point = Point(x: real, y: real)

  /** A bounding box in image pixels (`RectF`). */
  datatype Box = Box(left: real, top: real, right: real, bottom: real)

  /** One detected face: its box and its keypoints in the detector's order
      (left eye, right eye, nose, mouth, left ear, right ear). */
  datatype Detection = Detection(boundingBox: Box, keypoints: seq<Point>)
}
