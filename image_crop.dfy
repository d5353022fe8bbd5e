/**
 * The pixel rectangle that cropFaceToThumbnail cuts out of an image (lib/analysis/imageCrop.ts,
 * lines 18-51): the normalised face box is widened to at least 12% of the image, padded by 20% on
 * each side, centred on the box, clamped to the image and rounded to whole pixels. Decoding,
 * rotating, extracting and resizing the image are not modelled; the metadata's width and height
 * are parameters.
 */
module ImageCrop {
  import opened Js

  datatype NormalizedBox = NormalizedBox(x: real, y: real, w: real, h: real)

  /** The rectangle passed to `extract`. */
  datatype Rect = Rect(left: int, top: int, width: int, height: int)

  const MinSize: real := 0.12
  const Padding: real := 0.2

  /** The padded size along one axis: `Math.min(1, Math.max(size, minSize) * (1 + PADDING * 2))`. */
  function Padded(size: real): real {
    MinR(1.0, MaxR(size, MinSize) * (1.0 + Padding * 2.0))
  }

  /** A stretch along one axis, in pixels. */
  datatype Span = Span(start: real, length: real)

  /** The window along one axis before clamping. */
  function Window(center: real, padded: real, pixels: int): Span {
    Span((center - padded / 2.0) * pixels as real, padded * pixels as real)
  }

  /** The clamp statements along one axis, then the rounding of lines 48-51: the origin and the
      length of the crop. */
  function Place(start: real, length: real, pixels: int): (int, int)
    requires pixels >= 1
  {
    var length1 := if start < 0.0 then length + start else length;
    var start1 := if start < 0.0 then 0.0 else start;
    var length2 := if start1 + length1 > pixels as real then pixels as real - start1 else length1;
    var origin := Round(MaxR(0.0, MinR(start1, (pixels - 1) as real)));
    (origin, Max(1, Round(MinR(length2, (pixels - origin) as real))))
  }

  /** Missing metadata dimensions count as 1. */
  function Dimension(meta: Option<int>): int {
    meta.GetOr(1)
  }

  /** The crop along one axis. */
  function AxisCrop(position: real, size: real, pixels: int): (int, int)
    requires pixels >= 1
  {
    var window := Window(position + size / 2.0, Padded(size), pixels);
    Place(window.start, window.length, pixels)
  }

  /** The crop of `box` from an image of the given metadata dimensions. */
  function Crop(box: NormalizedBox, metaW: Option<int>, metaH: Option<int>): Rect
    requires Dimension(metaW) >= 1 && Dimension(metaH) >= 1
  {
    var (x, w) := AxisCrop(box.x, box.w, Dimension(metaW));
    var (y, h) := AxisCrop(box.y, box.h, Dimension(metaH));
    Rect(x, y, w, h)
  }

  /** cropFaceToThumbnail's arithmetic. The source interleaves the statements of the two axes,
      which do not depend on each other; here each axis goes through CropAxis. The crop lies
      inside the image and is at least one pixel each way. */
  method CropRectangle(box: NormalizedBox, metaW: Option<int>, metaH: Option<int>)
    returns (x: int, y: int, w: int, h: int)
    requires metaW.Some? ==> metaW.value >= 1
    requires metaH.Some? ==> metaH.value >= 1
    ensures Rect(x, y, w, h) == Crop(box, metaW, metaH)
    ensures 0 <= x <= Dimension(metaW) - 1 && 0 <= y <= Dimension(metaH) - 1
    ensures 1 <= w && 1 <= h && x + w <= Dimension(metaW) && y + h <= Dimension(metaH)
  {
    var imgW := metaW.GetOr(1);
    var imgH := metaH.GetOr(1);
    x, w := CropAxis(box.x, box.w, imgW);
    y, h := CropAxis(box.y, box.h, imgH);
    CropInside(box, metaW, metaH);
  }

  /** Lines 21-51 along one axis, on `let` variables as in the source. */
  method CropAxis(position: real, size: real, pixels: int) returns (origin: int, length: int)
    requires pixels >= 1
    ensures (origin, length) == AxisCrop(position, size, pixels)
  {
    var center := position + size / 2.0;
    var raw := MaxR(size, MinSize);
    var padded := MinR(1.0, raw * (1.0 + Padding * 2.0));
    var half := padded / 2.0;

    var start := (center - half) * pixels as real;
    var extent := padded * pixels as real;
    assert Span(start, extent) == Window(center, Padded(size), pixels);

    if start < 0.0 {
      extent := extent + start;
      start := 0.0;
    }
    if start + extent > pixels as real {
      extent := pixels as real - start;
    }

    origin := Round(MaxR(0.0, MinR(start, (pixels - 1) as real)));
    length := Max(1, Round(MinR(extent, (pixels - origin) as real)));
  }

  /** Rounding a value between two integers stays between them. */
  lemma RoundBetween(v: real, lo: int, hi: int)
    requires lo as real <= v <= hi as real
    ensures lo <= Round(v) <= hi
  {
  }

  /** Along either axis, whatever the box: the origin is a pixel of the image, the length is at
      least one pixel, and the crop ends inside the image. */
  lemma PlaceInside(start: real, length: real, pixels: int)
    requires pixels >= 1
    ensures var (origin, size) := Place(start, length, pixels);
      0 <= origin <= pixels - 1 && 1 <= size && origin + size <= pixels
  {
    var length1 := if start < 0.0 then length + start else length;
    var start1 := if start < 0.0 then 0.0 else start;
    var length2 := if start1 + length1 > pixels as real then pixels as real - start1 else length1;
    var origin := Round(MaxR(0.0, MinR(start1, (pixels - 1) as real)));
    RoundBetween(MaxR(0.0, MinR(start1, (pixels - 1) as real)), 0, pixels - 1);
    var r := Round(MinR(length2, (pixels - origin) as real));
    assert r <= pixels - origin by {
      RoundOfInt(pixels - origin);
    }
  }

  /** The crop of any box lies inside the image: 0 <= x <= imgW - 1, w >= 1 and x + w <= imgW,
      and likewise vertically. */
  lemma CropInside(box: NormalizedBox, metaW: Option<int>, metaH: Option<int>)
    requires Dimension(metaW) >= 1 && Dimension(metaH) >= 1
    ensures var r := Crop(box, metaW, metaH);
      && 0 <= r.left <= Dimension(metaW) - 1 && 1 <= r.width && r.left + r.width <= Dimension(metaW)
      && 0 <= r.top <= Dimension(metaH) - 1 && 1 <= r.height && r.top + r.height <= Dimension(metaH)
  {
    var windowX := Window(box.x + box.w / 2.0, Padded(box.w), Dimension(metaW));
    var windowY := Window(box.y + box.h / 2.0, Padded(box.h), Dimension(metaH));
    PlaceInside(windowX.start, windowX.length, Dimension(metaW));
    PlaceInside(windowY.start, windowY.length, Dimension(metaH));
  }

  /** The padded size is 1.4 times the size widened to 12%, capped at the whole image, so it lies
      in [0.168, 1]; the unclamped window is centred on the box's centre. */
  lemma WindowProperties(center: real, size: real, pixels: int)
    requires pixels >= 1
    ensures 0.168 <= Padded(size) <= 1.0
    ensures Padded(size) == MinR(1.0, 1.4 * MaxR(size, 0.12))
    ensures var window := Window(center, Padded(size), pixels);
      window.start + window.length / 2.0 == center * pixels as real && window.length == Padded(size) * pixels as real
  {
  }
}
