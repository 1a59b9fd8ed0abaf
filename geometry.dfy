/**
 * Knob geometry of the switch: where the knob rests, where its bitmap is
 * drawn, how opaque the widget is and how large it measures itself.
 */
module Geometry {

  /** `expandY`: extra touch area, in pixels, above and below the drawn track. */
  const ExpandY: int := 15

  /**
   * `getBtnTopLeftX`: left edge of the knob bitmap when the knob is centred
   * at `x`: the bitmap, drawn from there, spans `x` with as much of it on
   * either side.
   */
  function TopLeft(btnWidth: real, x: real): (edge: real)
    ensures btnWidth >= 0.0 ==> edge <= x <= edge + btnWidth
    ensures x - edge == (edge + btnWidth) - x
  {
    x - btnWidth / 2.0
  }

  /**
   * `btnRightX`: the knob centre at rest while the switch is off. The knob
   * bitmap is then drawn flush with the left edge of the mask.
   */
  function OffX(btnWidth: real): (x: real)
    ensures TopLeft(btnWidth, x) == 0.0
  {
    btnWidth / 2.0
  }

  /**
   * `btnLeftX`: the knob centre at rest while the switch is on. The knob
   * bitmap then ends flush with the right edge of the mask, so despite its
   * name this position lies to the right of `OffX` exactly when the mask is
   * wider than the knob.
   */
  function OnX(btnWidth: real, maskWidth: real): (x: real)
    ensures TopLeft(btnWidth, x) + btnWidth == maskWidth
    ensures x > OffX(btnWidth) <==> maskWidth > btnWidth
  {
    maskWidth - btnWidth / 2.0
  }

  /** The resting knob centre for a checked state, given the two rest positions. */
  function RestX(checked: bool, left: real, right: real): real
  {
    if checked then left else right
  }

  /**
   * At rest, on or off, a knob no wider than the mask is drawn wholly inside
   * the mask.
   */
  lemma RestingKnobInsideMask(checked: bool, btnWidth: real, maskWidth: real)
    requires 0.0 <= btnWidth <= maskWidth
    ensures var edge := TopLeft(btnWidth, RestX(checked, OnX(btnWidth, maskWidth), OffX(btnWidth)));
      0.0 <= edge && edge + btnWidth <= maskWidth
  {
  }

  /** `setEnabled`: the alpha the whole widget is drawn with. */
  function Alpha(enabled: bool): (a: int)
    ensures 0 < a <= 255
    ensures a == 255 <==> enabled
    ensures !enabled ==> 2 * a == 256
  {
    if enabled then 255 else 128
  }

  /**
   * `onMeasure`: the widget is as wide as the mask and as high as the mask
   * plus the touch margin above and below it (the mask is drawn at row
   * `ExpandY`).
   */
  function MeasuredSize(maskWidth: nat, maskHeight: nat): (size: (int, int))
    ensures size.0 == maskWidth
    ensures size.1 - (ExpandY + maskHeight) == ExpandY
  {
    (maskWidth, maskHeight + 2 * ExpandY)
  }
}
