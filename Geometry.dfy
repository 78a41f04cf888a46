/**
  The fit geometry of the image resizer: `resize` scales an image down into a
  target box, keeping its aspect ratio and never scaling up, and centres it;
  `resizeImage` turns that placement into a canvas size, a background fill and
  a draw rectangle. Numbers are exact rationals; the pixels themselves, the
  canvas calls and the encoding are not modelled.
*/
module Geometry {
  import opened Wrappers

  /** The object `resize` returns: content size `w` by `h` at offset `x`, `y` in the box. */
  datatype Dimensions = Dimensions(w: real, h: real, x: real, y: real)

  /** A rectangle on the canvas, as passed to `fillRect` or `drawImage`. */
  datatype Rect = Rect(x: real, y: real, w: real, h: real)

  /** What `resizeImage` does to its canvas, apart from the pixels it draws. */
  datatype Rendering = Rendering(
    canvasWidth: nat,
    canvasHeight: nat,
    fill: Option<Rect>,
    draw: Rect,
    dimensions: Dimensions)

  /** The background value that suppresses the fill. */
  const Transparent: string := "transparent"

  /** `Math.max` on two numbers that are not NaN. */
  function Max(a: real, b: real): (m: real)
    ensures m >= a && m >= b
    ensures m == a || m == b
  {
    if a >= b then a else b
  }

  /** The image already fits inside the box on both axes. */
  predicate Fits(imageWidth: real, imageHeight: real, thumbWidth: real, thumbHeight: real)
  {
    imageWidth <= thumbWidth && imageHeight <= thumbHeight
  }

  /** `resize(imagewidth, imageheight, thumbwidth, thumbheight)`. */
  function Resize(imageWidth: real, imageHeight: real, thumbWidth: real, thumbHeight: real): Dimensions
    requires imageWidth >= 0.0 && imageHeight >= 0.0
    requires thumbWidth > 0.0 && thumbHeight > 0.0
  {
    var widthRatio := imageWidth / thumbWidth;
    var heightRatio := imageHeight / thumbHeight;
    var maxRatio := Max(widthRatio, heightRatio);
    var w := if maxRatio > 1.0 then imageWidth / maxRatio else imageWidth;
    var h := if maxRatio > 1.0 then imageHeight / maxRatio else imageHeight;
    Dimensions(w, h, (thumbWidth - w) / 2.0, (thumbHeight - h) / 2.0)
  }

  /** The larger ratio exceeds one exactly when the image does not fit. */
  lemma {:induction false} MaxRatioExceedsOne(imageWidth: real, imageHeight: real, thumbWidth: real, thumbHeight: real)
    requires imageWidth >= 0.0 && imageHeight >= 0.0
    requires thumbWidth > 0.0 && thumbHeight > 0.0
    ensures Max(imageWidth / thumbWidth, imageHeight / thumbHeight) > 1.0
            <==> !Fits(imageWidth, imageHeight, thumbWidth, thumbHeight)
  {
    var widthRatio := imageWidth / thumbWidth;
    var heightRatio := imageHeight / thumbHeight;
    assert widthRatio * thumbWidth == imageWidth;
    assert heightRatio * thumbHeight == imageHeight;
    assert widthRatio > 1.0 <==> imageWidth > thumbWidth;
    assert heightRatio > 1.0 <==> imageHeight > thumbHeight;
  }

  /** Scaling divides both sides by the same ratio `m`, which is above one. */
  lemma {:induction false} ResizeScale(imageWidth: real, imageHeight: real, thumbWidth: real, thumbHeight: real)
    returns (m: real)
    requires imageWidth >= 0.0 && imageHeight >= 0.0
    requires thumbWidth > 0.0 && thumbHeight > 0.0
    requires !Fits(imageWidth, imageHeight, thumbWidth, thumbHeight)
    ensures m > 1.0
    ensures m * thumbWidth >= imageWidth && m * thumbHeight >= imageHeight
    ensures m * thumbWidth == imageWidth || m * thumbHeight == imageHeight
    ensures Resize(imageWidth, imageHeight, thumbWidth, thumbHeight).w * m == imageWidth
    ensures Resize(imageWidth, imageHeight, thumbWidth, thumbHeight).h * m == imageHeight
  {
    MaxRatioExceedsOne(imageWidth, imageHeight, thumbWidth, thumbHeight);
    var widthRatio := imageWidth / thumbWidth;
    var heightRatio := imageHeight / thumbHeight;
    assert widthRatio * thumbWidth == imageWidth;
    assert heightRatio * thumbHeight == imageHeight;
    m := Max(widthRatio, heightRatio);
    assert m * thumbWidth >= widthRatio * thumbWidth;
    assert m * thumbHeight >= heightRatio * thumbHeight;
  }

  /** A side divided by a factor above one that brings it within a target. */
  lemma ScaledBounds(x: real, m: real, side: real, target: real)
    requires m > 1.0 && side >= 0.0 && x * m == side && m * target >= side
    ensures 0.0 <= x <= target && x <= side
  {
    assert x == side / m;
    assert target - x == (m * target - side) / m;
    assert side - x == x * (m - 1.0);
  }

  /** The content never leaves the box and is never larger than the image. */
  lemma {:induction false} ResizeFitsBox(imageWidth: real, imageHeight: real, thumbWidth: real, thumbHeight: real)
    requires imageWidth >= 0.0 && imageHeight >= 0.0
    requires thumbWidth > 0.0 && thumbHeight > 0.0
    ensures var d := Resize(imageWidth, imageHeight, thumbWidth, thumbHeight);
      0.0 <= d.w <= thumbWidth && 0.0 <= d.h <= thumbHeight &&
      d.w <= imageWidth && d.h <= imageHeight
  {
    var d := Resize(imageWidth, imageHeight, thumbWidth, thumbHeight);
    if !Fits(imageWidth, imageHeight, thumbWidth, thumbHeight) {
      var m := ResizeScale(imageWidth, imageHeight, thumbWidth, thumbHeight);
      ScaledBounds(d.w, m, imageWidth, thumbWidth);
      ScaledBounds(d.h, m, imageHeight, thumbHeight);
    } else {
      MaxRatioExceedsOne(imageWidth, imageHeight, thumbWidth, thumbHeight);
    }
  }

  /** The image is kept at its own size exactly when it already fits: no upscaling. */
  lemma {:induction false} ResizeKeepsFittingImage(imageWidth: real, imageHeight: real, thumbWidth: real, thumbHeight: real)
    requires imageWidth >= 0.0 && imageHeight >= 0.0
    requires thumbWidth > 0.0 && thumbHeight > 0.0
    ensures var d := Resize(imageWidth, imageHeight, thumbWidth, thumbHeight);
      (d.w == imageWidth && d.h == imageHeight) <==> Fits(imageWidth, imageHeight, thumbWidth, thumbHeight)
  {
    var d := Resize(imageWidth, imageHeight, thumbWidth, thumbHeight);
    if !Fits(imageWidth, imageHeight, thumbWidth, thumbHeight) {
      var m := ResizeScale(imageWidth, imageHeight, thumbWidth, thumbHeight);
      if imageWidth > thumbWidth {
        assert d.w * m == imageWidth && imageWidth > 0.0;
        assert d.w < imageWidth;
      } else {
        assert d.h * m == imageHeight && imageHeight > 0.0;
        assert d.h < imageHeight;
      }
    } else {
      MaxRatioExceedsOne(imageWidth, imageHeight, thumbWidth, thumbHeight);
    }
  }

  /** Comparing two ratios by cross-multiplying. */
  lemma RatioOrder(a: real, p: real, b: real, q: real)
    requires p > 0.0 && q > 0.0
    requires a * q >= b * p
    ensures a / p >= b / q
  {
    assert a / p - b / q == (a * q - b * p) / (p * q);
  }

  /** Dividing a positive side by its own ratio to the target gives the target. */
  lemma DivideByOwnRatio(side: real, target: real)
    requires side > 0.0 && target > 0.0
    ensures side / (side / target) == target
  {
    var ratio := side / target;
    assert ratio * target == side;
    assert ratio > 0.0;
    assert (side / ratio) * ratio == side;
    assert (side / ratio - target) * ratio == 0.0;
  }

  /**
    When the image is scaled down, the axis with the larger ratio to its
    target (compared by cross-multiplying) fills that target exactly.
  */
  lemma {:induction false} ResizeFillsDominantAxis(imageWidth: real, imageHeight: real, thumbWidth: real, thumbHeight: real)
    requires imageWidth >= 0.0 && imageHeight >= 0.0
    requires thumbWidth > 0.0 && thumbHeight > 0.0
    requires !Fits(imageWidth, imageHeight, thumbWidth, thumbHeight)
    ensures var d := Resize(imageWidth, imageHeight, thumbWidth, thumbHeight);
      (imageWidth * thumbHeight >= imageHeight * thumbWidth ==> d.w == thumbWidth) &&
      (imageHeight * thumbWidth >= imageWidth * thumbHeight ==> d.h == thumbHeight)
  {
    MaxRatioExceedsOne(imageWidth, imageHeight, thumbWidth, thumbHeight);
    var widthRatio := imageWidth / thumbWidth;
    var heightRatio := imageHeight / thumbHeight;
    var m := Max(widthRatio, heightRatio);
    assert m > 1.0;
    var d := Resize(imageWidth, imageHeight, thumbWidth, thumbHeight);
    assert d.w == imageWidth / m && d.h == imageHeight / m;
    if imageWidth * thumbHeight >= imageHeight * thumbWidth {
      RatioOrder(imageWidth, thumbWidth, imageHeight, thumbHeight);
      assert m == widthRatio;
      assert imageWidth > 0.0 by {
        assert imageWidth == widthRatio * thumbWidth;
      }
      DivideByOwnRatio(imageWidth, thumbWidth);
    }
    if imageHeight * thumbWidth >= imageWidth * thumbHeight {
      RatioOrder(imageHeight, thumbHeight, imageWidth, thumbWidth);
      assert m == heightRatio;
      assert imageHeight > 0.0 by {
        assert imageHeight == heightRatio * thumbHeight;
      }
      DivideByOwnRatio(imageHeight, thumbHeight);
    }
  }

  /** Both branches keep the aspect ratio exactly: `w / h == imagewidth / imageheight`. */
  lemma {:induction false} ResizeKeepsAspect(imageWidth: real, imageHeight: real, thumbWidth: real, thumbHeight: real)
    requires imageWidth >= 0.0 && imageHeight >= 0.0
    requires thumbWidth > 0.0 && thumbHeight > 0.0
    ensures var d := Resize(imageWidth, imageHeight, thumbWidth, thumbHeight);
      d.w * imageHeight == d.h * imageWidth
  {
    var d := Resize(imageWidth, imageHeight, thumbWidth, thumbHeight);
    if !Fits(imageWidth, imageHeight, thumbWidth, thumbHeight) {
      var m := ResizeScale(imageWidth, imageHeight, thumbWidth, thumbHeight);
      assert d.w * m * imageHeight == imageWidth * imageHeight;
      assert d.h * m * imageWidth == imageHeight * imageWidth;
      assert (d.w * imageHeight) * m == (d.h * imageWidth) * m;
    } else {
      MaxRatioExceedsOne(imageWidth, imageHeight, thumbWidth, thumbHeight);
    }
  }

  /** The offsets centre the content: both margins on an axis are equal and not negative. */
  lemma {:induction false} ResizeCentres(imageWidth: real, imageHeight: real, thumbWidth: real, thumbHeight: real)
    requires imageWidth >= 0.0 && imageHeight >= 0.0
    requires thumbWidth > 0.0 && thumbHeight > 0.0
    ensures var d := Resize(imageWidth, imageHeight, thumbWidth, thumbHeight);
      d.x >= 0.0 && d.y >= 0.0 &&
      d.x + d.w + d.x == thumbWidth && d.y + d.h + d.y == thumbHeight
  {
    ResizeFitsBox(imageWidth, imageHeight, thumbWidth, thumbHeight);
  }

  /** A 4000 by 2000 image in a 500 by 500 box becomes 500 by 250 at (0, 125). */
  lemma ResizeExample()
    ensures Resize(4000.0, 2000.0, 500.0, 500.0) == Dimensions(500.0, 250.0, 0.0, 125.0)
  {
    ResizeFillsDominantAxis(4000.0, 2000.0, 500.0, 500.0);
    ResizeKeepsAspect(4000.0, 2000.0, 500.0, 500.0);
  }

  /** The largest value a reflected `unsigned long` attribute accepts on setting. */
  const MaxReflected: nat := 0x7FFF_FFFF

  /** The defaults of the canvas `width` and `height` attributes. */
  const DefaultCanvasWidth: nat := 300
  const DefaultCanvasHeight: nat := 150

  /**
    The Web IDL `unsigned long` conversion of a finite number: truncation
    toward zero, then reduction modulo 2^32.
  */
  function ToUnsignedLong(v: real): (n: nat)
    ensures n < 0x1_0000_0000
    ensures 0.0 <= v < 4294967296.0 ==> n as real <= v < n as real + 1.0
    ensures -1.0 < v <= 0.0 ==> n == 0
  {
    var t := if v >= 0.0 then v.Floor else -((-v).Floor);
    t % 0x1_0000_0000
  }

  /**
    Assigning a number to `canvas.width` or `canvas.height`: the converted
    value is kept when it is at most 2^31 - 1, and otherwise the attribute
    falls back to its default (300 for the width, 150 for the height).
  */
  function CanvasSize(v: real, default: nat): (n: nat)
    ensures 0.0 <= v < 2147483648.0 ==> n as real <= v < n as real + 1.0
    ensures 2147483648.0 <= v < 4294967296.0 ==> n == default
  {
    var u := ToUnsignedLong(v);
    if u <= MaxReflected then u else default
  }

  /** A whole number of pixels up to 2^31 - 1 is kept as it is. */
  lemma CanvasSizeOfWhole(n: nat, default: nat)
    requires n <= MaxReflected
    ensures CanvasSize(n as real, default) == n
  {
  }

  /** `Math.round`: the nearest integer, halves rounded up. */
  function JsRound(x: real): (r: int)
    ensures r as real - 0.5 <= x < r as real + 0.5
  {
    (x + 0.5).Floor
  }

  /** An integer rounds to itself, and a number below an integer never rounds above it. */
  lemma JsRoundBelow(x: real, n: int)
    requires x <= n as real
    ensures JsRound(x) <= n
    ensures x == n as real ==> JsRound(x) == n
  {
  }

  /**
    `resizeImage(img, thumbwidth, thumbheight, crop, background, type)`,
    leaving out the pixels and the data URL it returns.
  */
  function ResizeImage(imageWidth: real, imageHeight: real, thumbWidth: real, thumbHeight: real,
                       crop: bool, background: string): Rendering
    requires imageWidth >= 0.0 && imageHeight >= 0.0
    requires thumbWidth > 0.0 && thumbHeight > 0.0
  {
    var fitted := Resize(imageWidth, imageHeight, thumbWidth, thumbHeight);
    var d := if crop then fitted.(x := 0.0, y := 0.0) else fitted;
    Rendering(
      if crop then CanvasSize(fitted.w, DefaultCanvasWidth) else CanvasSize(thumbWidth, DefaultCanvasWidth),
      if crop then CanvasSize(fitted.h, DefaultCanvasHeight) else CanvasSize(thumbHeight, DefaultCanvasHeight),
      if background != Transparent then Some(Rect(0.0, 0.0, thumbWidth, thumbHeight)) else None,
      Rect(d.x, d.y, d.w, d.h),
      d)
  }

  /**
    Whatever `crop` says, the image is drawn at the size `resize` fitted,
    and the dimensions returned are the drawn rectangle, so what
    ResizeFitsBox and ResizeKeepsAspect say of `resize` holds for the drawing.
  */
  lemma {:induction false} ResizeImageDrawsFittedContent(imageWidth: real, imageHeight: real,
                                                        thumbWidth: real, thumbHeight: real,
                                                        crop: bool, background: string)
    requires imageWidth >= 0.0 && imageHeight >= 0.0
    requires thumbWidth > 0.0 && thumbHeight > 0.0
    ensures var r := ResizeImage(imageWidth, imageHeight, thumbWidth, thumbHeight, crop, background);
      var fitted := Resize(imageWidth, imageHeight, thumbWidth, thumbHeight);
      r.draw.w == fitted.w && r.draw.h == fitted.h &&
      r.draw == Rect(r.dimensions.x, r.dimensions.y, r.dimensions.w, r.dimensions.h) &&
      (!crop ==> r.dimensions == fitted)
  {
  }

  /**
    With `crop` the canvas shrinks to the content (truncated to whole
    pixels) and the content is drawn from the corner, so the drawn image
    covers the whole canvas and no padding remains; the returned offsets
    are zero.
  */
  lemma {:induction false} ResizeImageCropTrimsPadding(imageWidth: real, imageHeight: real,
                                                      thumbWidth: real, thumbHeight: real, background: string)
    requires imageWidth >= 0.0 && imageHeight >= 0.0
    requires thumbWidth > 0.0 && thumbHeight > 0.0
    requires thumbWidth < 2147483648.0 && thumbHeight < 2147483648.0
    ensures var r := ResizeImage(imageWidth, imageHeight, thumbWidth, thumbHeight, true, background);
      r.draw.x == 0.0 && r.draw.y == 0.0 &&
      r.dimensions.x == 0.0 && r.dimensions.y == 0.0 &&
      r.canvasWidth as real <= r.draw.w < r.canvasWidth as real + 1.0 &&
      r.canvasHeight as real <= r.draw.h < r.canvasHeight as real + 1.0
  {
    ResizeFitsBox(imageWidth, imageHeight, thumbWidth, thumbHeight);
  }

  /**
    Without `crop` the canvas is the whole box and the content is drawn
    centred inside it, with equal margins on both sides of each axis.
  */
  lemma {:induction false} ResizeImageLetterboxes(imageWidth: real, imageHeight: real,
                                                 thumbWidth: real, thumbHeight: real, background: string)
    requires imageWidth >= 0.0 && imageHeight >= 0.0
    requires thumbWidth > 0.0 && thumbHeight > 0.0
    ensures var r := ResizeImage(imageWidth, imageHeight, thumbWidth, thumbHeight, false, background);
      r.canvasWidth == CanvasSize(thumbWidth, DefaultCanvasWidth) &&
      r.canvasHeight == CanvasSize(thumbHeight, DefaultCanvasHeight) &&
      r.draw.x >= 0.0 && r.draw.y >= 0.0 &&
      r.draw.x + r.draw.w + r.draw.x == thumbWidth &&
      r.draw.y + r.draw.h + r.draw.y == thumbHeight
  {
    ResizeCentres(imageWidth, imageHeight, thumbWidth, thumbHeight);
  }

  /** The background is painted over the whole box unless it is "transparent". */
  lemma ResizeImageFill(imageWidth: real, imageHeight: real, thumbWidth: real, thumbHeight: real,
                        crop: bool, background: string)
    requires imageWidth >= 0.0 && imageHeight >= 0.0
    requires thumbWidth > 0.0 && thumbHeight > 0.0
    ensures var r := ResizeImage(imageWidth, imageHeight, thumbWidth, thumbHeight, crop, background);
      (r.fill.None? <==> background == Transparent) &&
      (r.fill.Some? ==> r.fill.value == Rect(0.0, 0.0, thumbWidth, thumbHeight))
  {
  }
}
