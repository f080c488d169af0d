/** Aspect-fill scale and padding between the camera image and the preview, and
    the crop rectangle of the detected face (`ImageUtils` companion object). */
module ImageUtils {
  import opened Options
  import opened Vision

  function Max(a: real, b: real): (m: real)
    ensures m >= a && m >= b && (m == a || m == b)
  {
    if a >= b then a else b
  }

  /** The scale `r` that makes the image cover the preview and the offsets that
      the projection subtracts on each axis. */
  datatype ScalePadding = ScalePadding(r: real, paddingX: real, paddingY: real)

  lemma MulMonotone(a: real, b: real, c: real)
    requires a > 0.0 && b >= c
    ensures a * b >= a * c
  {
  }

  /** Aspect-fill: the scale is the larger of the two axis ratios, so the
      scaled image covers the preview on both axes. Only one axis receives a
      centring padding, chosen by comparing the scaled image's own height and
      width. */
  function CalculateScaleAndPadding(cameraSize: Size, imageSize: Size): (sp: ScalePadding)
    requires imageSize.width > 0.0 && imageSize.height > 0.0
    ensures sp.r >= cameraSize.width / imageSize.width
    ensures sp.r >= cameraSize.height / imageSize.height
    ensures sp.r == cameraSize.width / imageSize.width || sp.r == cameraSize.height / imageSize.height
    ensures imageSize.width * sp.r >= cameraSize.width
    ensures imageSize.height * sp.r >= cameraSize.height
    ensures sp.paddingX >= 0.0 && sp.paddingY >= 0.0
    ensures sp.paddingX == 0.0 || sp.paddingY == 0.0
  {
    var rx := cameraSize.width / imageSize.width;
    var ry := cameraSize.height / imageSize.height;
    var r := Max(rx, ry);
    var resizedImageWidth := imageSize.width * r;
    var resizedImageHeight := imageSize.height * r;
    MulMonotone(imageSize.width, r, rx);
    MulMonotone(imageSize.height, r, ry);
    if resizedImageHeight > resizedImageWidth then
      ScalePadding(r, (resizedImageWidth - cameraSize.width) / 2.0, 0.0)
    else
      ScalePadding(r, 0.0, (resizedImageHeight - cameraSize.height) / 2.0)
  }

  /** For a preview of positive size, the padded axis is decided by the image's
      aspect alone: a portrait image is centred horizontally, any other image
      vertically. */
  lemma PaddingFollowsImageAspect(cameraSize: Size, imageSize: Size)
    requires imageSize.width > 0.0 && imageSize.height > 0.0
    requires cameraSize.width > 0.0 && cameraSize.height > 0.0
    ensures var sp := CalculateScaleAndPadding(cameraSize, imageSize);
      if imageSize.height > imageSize.width then
        sp.paddingY == 0.0 && sp.paddingX == (imageSize.width * sp.r - cameraSize.width) / 2.0
      else
        sp.paddingX == 0.0 && sp.paddingY == (imageSize.height * sp.r - cameraSize.height) / 2.0
  {
    var sp := CalculateScaleAndPadding(cameraSize, imageSize);
    assert sp.r > 0.0 by {
      assert cameraSize.width / imageSize.width > 0.0;
    }
    if imageSize.height > imageSize.width {
      MulMonotone(sp.r, imageSize.height, imageSize.width);
      assert imageSize.height * sp.r > imageSize.width * sp.r;
    } else {
      MulMonotone(sp.r, imageSize.width, imageSize.height);
    }
  }

  /** A landscape (or square) image whose scale comes from the height ratio
      overflows horizontally, yet receives no padding on either axis. */
  lemma LandscapeByHeightIsUnpadded(cameraSize: Size, imageSize: Size)
    requires imageSize.width > 0.0 && imageSize.height > 0.0
    requires cameraSize.width > 0.0 && cameraSize.height > 0.0
    requires imageSize.width >= imageSize.height
    requires cameraSize.height / imageSize.height >= cameraSize.width / imageSize.width
    ensures var sp := CalculateScaleAndPadding(cameraSize, imageSize);
      sp.paddingX == 0.0 && sp.paddingY == 0.0
  {
    PaddingFollowsImageAspect(cameraSize, imageSize);
    var sp := CalculateScaleAndPadding(cameraSize, imageSize);
    assert sp.r == cameraSize.height / imageSize.height;
    assert imageSize.height * (cameraSize.height / imageSize.height) == cameraSize.height;
  }

  /** A 640x480 camera image on a 1080x1920 preview: the height ratio 4.0
      wins, the scaled image is 2560 wide, and neither axis is padded. */
  lemma ProjectionExample()
    ensures CalculateScaleAndPadding(Size(1080.0, 1920.0), Size(640.0, 480.0)) == ScalePadding(4.0, 0.0, 0.0)
  {
  }

  /** Kotlin's `Float.toInt()`: truncation toward zero. */
  function TruncateToInt(x: real): (n: int)
    ensures x >= 0.0 ==> n as real <= x < n as real + 1.0
    ensures x < 0.0 ==> x <= n as real < x + 1.0
  {
    if x >= 0.0 then x.Floor else -((-x).Floor)
  }

  /** The box edges clamped to the bitmap: left and top at least 0, right and
      bottom at most the bitmap's width and height, each then truncated. */
  datatype Edges = Edges(left: int, top: int, right: int, bottom: int)

  /** The arguments of `Bitmap.createBitmap(bitmap, left, top, width, height)`. */
  datatype CropRect = CropRect(left: int, top: int, width: int, height: int)

  function ClampedEdges(box: Box, bitmapWidth: int, bitmapHeight: int): (e: Edges)
    ensures e.left >= 0 && e.top >= 0
    ensures e.right <= bitmapWidth && e.bottom <= bitmapHeight
    ensures e.left as real <= Max(box.left, 0.0) < e.left as real + 1.0
    ensures e.top as real <= Max(box.top, 0.0) < e.top as real + 1.0
    ensures var rr := if box.right <= bitmapWidth as real then box.right else bitmapWidth as real;
      (rr >= 0.0 ==> e.right as real <= rr < e.right as real + 1.0) &&
      (rr < 0.0 ==> rr <= e.right as real < rr + 1.0)
    ensures var bb := if box.bottom <= bitmapHeight as real then box.bottom else bitmapHeight as real;
      (bb >= 0.0 ==> e.bottom as real <= bb < e.bottom as real + 1.0) &&
      (bb < 0.0 ==> bb <= e.bottom as real < bb + 1.0)
  {
    var right := if box.right <= bitmapWidth as real then box.right else bitmapWidth as real;
    var bottom := if box.bottom <= bitmapHeight as real then box.bottom else bitmapHeight as real;
    Edges(TruncateToInt(Max(box.left, 0.0)), TruncateToInt(Max(box.top, 0.0)),
          TruncateToInt(right), TruncateToInt(bottom))
  }

  /** The rectangle cropped out of the camera bitmap around the first
      detection; `None` (the source's `null`) when nothing was detected. */
  function GetCroppedFaceImage(detections: seq<Detection>, bitmapWidth: int, bitmapHeight: int): (crop: Option<CropRect>)
    ensures crop.None? <==> |detections| == 0
    ensures crop.Some? ==> crop.value.left >= 0 && crop.value.top >= 0
    ensures crop.Some? ==> crop.value.width >= 1 && crop.value.height >= 1
    ensures crop.Some? ==>
      var e := ClampedEdges(detections[0].boundingBox, bitmapWidth, bitmapHeight);
      crop.value.left == e.left && crop.value.top == e.top &&
      (crop.value.width == e.right - e.left || (e.right - e.left < 1 && crop.value.width == 1)) &&
      (crop.value.height == e.bottom - e.top || (e.bottom - e.top < 1 && crop.value.height == 1))
  {
    if |detections| == 0 then None
    else
      var e := ClampedEdges(detections[0].boundingBox, bitmapWidth, bitmapHeight);
      var width := if e.right - e.left >= 1 then e.right - e.left else 1;
      var height := if e.bottom - e.top >= 1 then e.bottom - e.top else 1;
      Some(CropRect(e.left, e.top, width, height))
  }

  /** Only the first detection decides the crop. */
  lemma CropUsesFirstDetection(detections: seq<Detection>, bitmapWidth: int, bitmapHeight: int)
    requires |detections| > 0
    ensures GetCroppedFaceImage(detections, bitmapWidth, bitmapHeight)
         == GetCroppedFaceImage([detections[0]], bitmapWidth, bitmapHeight)
  {
  }

  /** The crop stays inside the bitmap horizontally exactly when its left edge
      lies left of the bitmap's right edge, and likewise vertically. */
  lemma CropWithinBitmapIff(detections: seq<Detection>, bitmapWidth: int, bitmapHeight: int)
    requires |detections| > 0
    ensures var c := GetCroppedFaceImage(detections, bitmapWidth, bitmapHeight).value;
      (c.left + c.width <= bitmapWidth <==> c.left < bitmapWidth) &&
      (c.top + c.height <= bitmapHeight <==> c.top < bitmapHeight)
  {
  }
}
