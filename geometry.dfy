/**
 * Image-space geometry of the annotator: the box a drag commits, and the
 * mapping between canvas coordinates and image pixels under zoom and pan
 * (label_dendritic_spines.py, on_canvas_click / on_canvas_drag / save_annotation).
 */
module Geometry {

  /** The size of one frame as the imaging library reports it: (width, height). */
  datatype ImageSize = ImageSize(width: nat, height: nat)

  /** An axis-aligned box in image pixels, stored as the tuple (x1, y1, x2, y2). */
  datatype Box = Box(x1: int, y1: int, x2: int, y2: int)

  function Min(a: int, b: int): int { if a <= b then a else b }

  function Max(a: int, b: int): int { if a <= b then b else a }

  /** Python's int() applied to a float: truncation toward zero (not the floor). */
  function Trunc(x: real): (r: int)
    ensures 0.0 <= x ==> r as real <= x < r as real + 1.0
    ensures x < 0.0 ==> r as real - 1.0 < x <= r as real
  {
    if 0.0 <= x then x.Floor else -((-x).Floor)
  }

  /**
   * Canvas coordinate to image pixel: int((c - pan) / zoom). At or past the pan
   * offset a point falls in the on-screen square of its pixel; before it, the
   * truncation toward zero makes the square reach one step the other way, so
   * that pixel 0 covers the points less than one zoom step on either side.
   */
  function ToImage(c: real, pan: int, zoom: real): (r: int)
    requires zoom > 0.0
    ensures pan as real <= c ==> 0 <= r && ToScreen(r, pan, zoom) <= c < ToScreen(r + 1, pan, zoom)
    ensures c < pan as real ==> r <= 0 && ToScreen(r - 1, pan, zoom) < c <= ToScreen(r, pan, zoom)
  {
    var d := c - pan as real;
    var q := d / zoom;
    DivTimes(d, zoom);
    if 0.0 <= d then
      ScaleLe(0.0, q, zoom);
      PixelSpan(d, q, zoom, Trunc(q));
      Trunc(q)
    else
      PixelSpanBelow(d, q, zoom, Trunc(q));
      Trunc(q)
  }

  /** Image pixel to canvas coordinate, as the drag preview draws it: pan + i * zoom. */
  function ToScreen(i: int, pan: int, zoom: real): (r: real)
    ensures zoom > 0.0 ==> (pan as real <= r <==> 0 <= i)
  {
    if zoom > 0.0 && 0 <= i then
      ScaleLe(0.0, i as real, zoom);
      pan as real + i as real * zoom
    else if zoom > 0.0 then
      ScaleLt(i as real, 0.0, zoom);
      pan as real + i as real * zoom
    else
      pan as real + i as real * zoom
  }

  /** Mapping a pixel to the canvas and back gives the same pixel, for every zoom and pan. */
  lemma ToImageOfToScreen(i: int, pan: int, zoom: real)
    requires zoom > 0.0
    ensures ToImage(ToScreen(i, pan, zoom), pan, zoom) == i
  {
    var q := (ToScreen(i, pan, zoom) - pan as real) / zoom;
    assert q * zoom == i as real * zoom;
    assert q == i as real;
  }

  /**
   * The pixel under a canvas point is drawn back at a canvas position that
   * maps to the same pixel and, right of (below) the pan offset, lies at most
   * one zoom step before the point.
   */
  lemma PointerPixel(c: real, pan: int, zoom: real)
    requires zoom > 0.0
    ensures var i := ToImage(c, pan, zoom);
      && ToImage(ToScreen(i, pan, zoom), pan, zoom) == i
      && (pan as real <= c ==> ToScreen(i, pan, zoom) <= c < ToScreen(i, pan, zoom) + zoom)
  {
    var i := ToImage(c, pan, zoom);
    ToImageOfToScreen(i, pan, zoom);
    if pan as real <= c {
      assert ToScreen(i + 1, pan, zoom) == ToScreen(i, pan, zoom) + zoom;
    }
  }

  /** Dividing by a positive factor and multiplying back is the identity on reals. */
  lemma DivTimes(a: real, z: real)
    requires z > 0.0
    ensures (a / z) * z == a
  {
  }

  /** If d = q * zoom and pixel i holds q, then d lies in the span of pixel i scaled by zoom. */
  lemma PixelSpan(d: real, q: real, zoom: real, i: int)
    requires zoom > 0.0 && q * zoom == d && i as real <= q < (i + 1) as real
    ensures i as real * zoom <= d < (i + 1) as real * zoom
  {
    ScaleLe(i as real, q, zoom);
    ScaleLt(q, (i + 1) as real, zoom);
  }

  /** If d = q * zoom and q lies in (i - 1, i], then d lies in the matching span scaled by zoom. */
  lemma PixelSpanBelow(d: real, q: real, zoom: real, i: int)
    requires zoom > 0.0 && q * zoom == d && (i - 1) as real < q <= i as real
    ensures (i - 1) as real * zoom < d <= i as real * zoom
  {
    ScaleLt((i - 1) as real, q, zoom);
    ScaleLe(q, i as real, zoom);
  }

  /** Multiplying both sides of a <= b by a positive factor keeps the order. */
  lemma ScaleLe(a: real, b: real, zoom: real)
    requires zoom > 0.0 && a <= b
    ensures a * zoom <= b * zoom
  {
    assert (b - a) * zoom >= 0.0;
  }

  /** Multiplying both sides of a < b by a positive factor keeps the order. */
  lemma ScaleLt(a: real, b: real, zoom: real)
    requires zoom > 0.0 && a < b
    ensures a * zoom < b * zoom
  {
    assert (b - a) * zoom > 0.0;
  }

  /** A point lies on the frame, borders included. */
  predicate InFrame(x: int, y: int, size: ImageSize)
  {
    0 <= x <= size.width && 0 <= y <= size.height
  }

  /** r is v clamped to [0, hi]: 0 below the range, hi above it, v itself inside it. */
  predicate ClampedTo(r: int, v: int, hi: int)
  {
    && (v < 0 ==> r == 0)
    && (0 <= v <= hi ==> r == v)
    && (hi < v ==> r == hi)
  }

  /** max(0, min(v, hi)). */
  function Clamp(v: int, hi: int): int
  {
    Max(0, Min(v, hi))
  }

  /**
   * The box committed for a drag from (x1, y1) to (x2, y2) on a frame of the
   * given size: corners put in order, then each coordinate clamped to the frame.
   */
  function NormalizeBox(x1: int, y1: int, x2: int, y2: int, size: ImageSize): (b: Box)
    ensures b.x1 <= b.x2 && b.y1 <= b.y2
    ensures 0 <= b.x1 && b.x2 <= size.width && 0 <= b.y1 && b.y2 <= size.height
    ensures ClampedTo(b.x1, Min(x1, x2), size.width) && ClampedTo(b.x2, Max(x1, x2), size.width)
    ensures ClampedTo(b.y1, Min(y1, y2), size.height) && ClampedTo(b.y2, Max(y1, y2), size.height)
    ensures InFrame(x1, y1, size) && InFrame(x2, y2, size) ==>
      b == Box(Min(x1, x2), Min(y1, y2), Max(x1, x2), Max(y1, y2))
  {
    Box(Clamp(Min(x1, x2), size.width), Clamp(Min(y1, y2), size.height),
        Clamp(Max(x1, x2), size.width), Clamp(Max(y1, y2), size.height))
  }

  /** The committed box does not depend on the direction of the drag. */
  lemma NormalizeBoxDirectionFree(x1: int, y1: int, x2: int, y2: int, size: ImageSize)
    ensures NormalizeBox(x2, y2, x1, y1, size) == NormalizeBox(x1, y1, x2, y2, size)
    ensures NormalizeBox(x1, y2, x2, y1, size) == NormalizeBox(x1, y1, x2, y2, size)
    ensures NormalizeBox(x2, y1, x1, y2, size) == NormalizeBox(x1, y1, x2, y2, size)
  {
  }

  /** Normalising a committed box again leaves it as it is. */
  lemma NormalizeBoxIdempotent(x1: int, y1: int, x2: int, y2: int, size: ImageSize)
    ensures var b := NormalizeBox(x1, y1, x2, y2, size);
      NormalizeBox(b.x1, b.y1, b.x2, b.y2, size) == b
  {
  }
}
