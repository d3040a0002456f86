/** The decision rules that bound the display scale factor. The scale is a real number;
    the rounding of the doubles the window really multiplies is not modelled. */
module Zoom {

  /** zoomIn multiplies the scale by this ... */
  const ZoomInFactor: real := 1.25
  /** ... but only while the scale is below this. */
  const ZoomInLimit: real := 6.0
  /** zoomOut multiplies the scale by this ... */
  const ZoomOutFactor: real := 0.8
  /** ... but only while the scale is above this. */
  const ZoomOutLimit: real := 0.2
  /** zoomToRegion never zooms past this scale. */
  const RegionLimit: real := 7.5

  /** The scale after zoomIn without a selection: one zoom step while the scale is
      below 6, otherwise the request is ignored. */
  function ZoomedIn(scale: real): (r: real)
    ensures scale >= ZoomInLimit ==> r == scale
    ensures scale < ZoomInLimit ==> r == scale * ZoomInFactor && r < RegionLimit
    ensures scale <= RegionLimit ==> r <= RegionLimit
    ensures scale > 0.0 ==> r >= scale && (r == scale <==> scale >= ZoomInLimit)
  {
    if scale < ZoomInLimit then scale * ZoomInFactor else scale
  }

  /** The scale after zoomOut: one step down while the scale is above 0.2, otherwise
      the request is ignored. */
  function ZoomedOut(scale: real): (r: real)
    ensures scale <= ZoomOutLimit ==> r == scale
    ensures scale > ZoomOutLimit ==> r == scale * ZoomOutFactor && r > ZoomOutLimit * ZoomOutFactor
    ensures scale > 0.0 ==> 0.0 < r <= scale && (r == scale <==> scale <= ZoomOutLimit)
  {
    if scale > ZoomOutLimit then scale * ZoomOutFactor else scale
  }

  /** The scale after a zoom to a selected region, given the current scale and the
      geometry-derived ratio `s`: it multiplies by 1/s when that stays below 7.5 and
      otherwise by whatever lands exactly on 7.5. */
  function RegionScale(scale: real, s: real): (r: real)
    requires scale > 0.0 && s > 0.0
    ensures 0.0 < r <= RegionLimit
    ensures scale / s < RegionLimit ==> r == scale / s
    ensures scale / s >= RegionLimit ==> r == RegionLimit
  {
    if scale / s < RegionLimit then scale * (1.0 / s) else scale * (RegionLimit / scale)
  }

  /** A zoom-in that acted is undone by one zoom-out, provided the zoomed-in scale is
      above zoomOut's floor. */
  lemma ZoomOutUndoesZoomIn(scale: real)
    requires scale < ZoomInLimit && scale * ZoomInFactor > ZoomOutLimit
    ensures ZoomedOut(ZoomedIn(scale)) == scale
  {
  }

  /** A zoom-out that acted is undone by one zoom-in, provided the zoomed-out scale is
      below zoomIn's ceiling. */
  lemma ZoomInUndoesZoomOut(scale: real)
    requires scale > ZoomOutLimit && scale * ZoomOutFactor < ZoomInLimit
    ensures ZoomedIn(ZoomedOut(scale)) == scale
  {
  }

  /** Applied `n` times, zoomIn. */
  function ZoomedInTimes(scale: real, n: nat): real
  {
    if n == 0 then scale else ZoomedIn(ZoomedInTimes(scale, n - 1))
  }

  /** However often zoomIn is pressed, a scale that started at or below 7.5 stays at
      or below 7.5. */
  lemma {:induction false} ZoomInNeverPassesRegionLimit(scale: real, n: nat)
    requires scale <= RegionLimit
    ensures ZoomedInTimes(scale, n) <= RegionLimit
  {
    if n > 0 {
      ZoomInNeverPassesRegionLimit(scale, n - 1);
    }
  }
}
