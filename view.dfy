/**
 * View state of the annotator: the zoom factor with its clamps and the frame
 * index kept inside the loaded stack (label_dendritic_spines.py, zoom_in,
 * zoom_out, reset_view, prev_image, next_image). Zoom is an exact real.
 */
module View {

  const MinZoom: real := 0.1
  const MaxZoom: real := 10.0
  const ZoomStep: real := 1.2

  /** min(zoom * 1.2, 10.0): one 20% step up, clamped at 10x. */
  function ZoomedIn(zoom: real): (r: real)
    ensures r <= MaxZoom
    ensures MinZoom <= zoom ==> MinZoom <= r
    ensures 0.0 < zoom <= MaxZoom ==> zoom <= r
    ensures r <= zoom * ZoomStep
    ensures r == MaxZoom || r == zoom * ZoomStep
  {
    if zoom * ZoomStep <= MaxZoom then zoom * ZoomStep else MaxZoom
  }

  /** max(zoom / 1.2, 0.1): one step of 1.2 down, clamped at 0.1x. */
  function ZoomedOut(zoom: real): (r: real)
    ensures MinZoom <= r
    ensures zoom <= MaxZoom ==> r <= MaxZoom
    ensures MinZoom <= zoom ==> r <= zoom
    ensures zoom / ZoomStep <= r
    ensures r == MinZoom || r == zoom / ZoomStep
  {
    if zoom / ZoomStep >= MinZoom then zoom / ZoomStep else MinZoom
  }

  /** Zooming out undoes a zoom in that did not hit the upper clamp. */
  lemma ZoomOutUndoesZoomIn(zoom: real)
    requires MinZoom <= zoom && zoom * ZoomStep <= MaxZoom
    ensures ZoomedOut(ZoomedIn(zoom)) == zoom
  {
  }

  /** Zooming in undoes a zoom out that did not hit the lower clamp. */
  lemma ZoomInUndoesZoomOut(zoom: real)
    requires zoom <= MaxZoom && MinZoom <= zoom / ZoomStep
    ensures ZoomedIn(ZoomedOut(zoom)) == zoom
  {
  }

  /** The frame before `idx`, staying put on the first frame or with no frames loaded. */
  function PrevIndex(idx: nat, count: nat): (r: nat)
    ensures idx < count ==> r < count
    ensures r == idx || r + 1 == idx
    ensures r == idx <==> count == 0 || idx == 0
  {
    if count > 0 && idx > 0 then idx - 1 else idx
  }

  /** The frame after `idx`, staying put on the last frame or with no frames loaded. */
  function NextIndex(idx: nat, count: nat): (r: nat)
    ensures idx < count ==> r < count
    ensures r == idx || r == idx + 1
    ensures r == idx <==> count == 0 || idx >= count - 1
  {
    if count > 0 && idx < count - 1 then idx + 1 else idx
  }

  /** Stepping forward then back returns to the same frame, unless already on the last one. */
  lemma PrevAfterNext(idx: nat, count: nat)
    requires idx + 1 < count
    ensures PrevIndex(NextIndex(idx, count), count) == idx
  {
  }

  /** Stepping back then forward returns to the same frame, unless already on the first one. */
  lemma NextAfterPrev(idx: nat, count: nat)
    requires 0 < idx < count
    ensures NextIndex(PrevIndex(idx, count), count) == idx
  {
  }
}
