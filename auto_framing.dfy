/**
 * Auto-framing of one panel for a viewport (createFramedPanel in
 * src/utils/autoFraming.ts): the crop is the panel's box re-clamped to the
 * page, the crop is scaled to the full viewport width and centred vertically,
 * and the background is suppressed unless the panel is a splash panel that
 * fills the viewport height.
 *
 * JavaScript division by a zero crop width yields Infinity or NaN; those
 * values are kept as JsNumber so the zero-width case is modelled, not excluded.
 */
module AutoFraming {
  import opened Types

  /** cropCoordinates: x and y raised to 0, width and height capped by what is left of the page. */
  function Crop(b: BoundingBox, pageWidth: real, pageHeight: real): BoundingBox
  {
    BoundingBox(
      MaxReal(0.0, b.x),
      MaxReal(0.0, b.y),
      MinReal(pageWidth - b.x, b.width),
      MinReal(pageHeight - b.y, b.height))
  }

  /** scale: the factor that makes the crop as wide as the viewport. */
  function FitScale(crop: BoundingBox, viewportWidth: real): JsNumber
  {
    Div(viewportWidth, crop.width)
  }

  /** scaledHeight: the crop's height at that scale. */
  function ScaledHeight(crop: BoundingBox, viewportWidth: real): JsNumber
  {
    Mul(FitScale(crop, viewportWidth), crop.height)
  }

  /** needsSuppression */
  predicate NeedsSuppression(panel: Panel, crop: BoundingBox, viewportWidth: real, viewportHeight: real)
  {
    Less(ScaledHeight(crop, viewportWidth), viewportHeight) || !panel.isSplash
  }

  /**
   * createFramedPanel. The panel's own fields are carried over unchanged; the
   * scaling mode is always contain, the transform never shifts horizontally, and
   * the suppression kind is combined exactly when suppression applies, blur
   * otherwise.
   */
  function CreateFramedPanel(panel: Panel, pageWidth: real, pageHeight: real,
                             viewportWidth: real, viewportHeight: real): (f: FramedPanel)
    ensures f.panel == panel && f.scalingMode == Contain
    ensures f.viewportTransform.offsetX == 0.0
    ensures f.backgroundSuppression.kind == (if f.backgroundSuppression.applied then Combined else Blur)
  {
    var crop := Crop(panel.boundingBox, pageWidth, pageHeight);
    var scale := FitScale(crop, viewportWidth);
    var scaledHeight := ScaledHeight(crop, viewportWidth);
    var offsetY := HalfGap(viewportHeight, scaledHeight);
    var needsSuppression := NeedsSuppression(panel, crop, viewportWidth, viewportHeight);
    FramedPanel(
      panel,
      crop,
      Contain,
      BackgroundSuppression(needsSuppression, if needsSuppression then Combined else Blur),
      ViewportTransform(scale, 0.0, offsetY))
  }

  /**
   * For a box that starts on the page, the crop starts where the box does and
   * ends on the page; a box lying wholly on the page is its own crop.
   */
  lemma CropWithinPage(b: BoundingBox, pageWidth: real, pageHeight: real)
    requires 0.0 <= b.x && 0.0 <= b.y
    ensures var c := Crop(b, pageWidth, pageHeight);
      && c.x == b.x && c.y == b.y
      && c.x + c.width <= pageWidth && c.y + c.height <= pageHeight
      && c.width <= b.width && c.height <= b.height
      && (b.x + b.width <= pageWidth && b.y + b.height <= pageHeight ==> c == b)
  {
  }

  /**
   * With a crop of non-zero width the transform is finite: the crop scaled by
   * it is exactly the viewport wide, the scaled crop is centred vertically (the
   * two gaps sum to the viewport height), the offset is negative exactly when
   * the scaled crop is taller than the viewport, and suppression applies exactly
   * when the scaled crop is shorter than the viewport or the panel is no splash.
   */
  lemma FramingFitsWidth(panel: Panel, pageWidth: real, pageHeight: real,
                         viewportWidth: real, viewportHeight: real)
    requires Crop(panel.boundingBox, pageWidth, pageHeight).width != 0.0
    ensures var f := CreateFramedPanel(panel, pageWidth, pageHeight, viewportWidth, viewportHeight);
      var c, t := f.cropCoordinates, f.viewportTransform;
      && t.scale.Finite? && t.offsetY.Finite?
      && c.width * t.scale.value == viewportWidth
      && 2.0 * t.offsetY.value + c.height * t.scale.value == viewportHeight
      && (t.offsetY.value < 0.0 <==> c.height * t.scale.value > viewportHeight)
      && (f.backgroundSuppression.applied <==> c.height * t.scale.value < viewportHeight || !panel.isSplash)
  {
    var c := Crop(panel.boundingBox, pageWidth, pageHeight);
    var s := viewportWidth / c.width;
    assert FitScale(c, viewportWidth) == Finite(s);
    assert c.width * s == viewportWidth;
    assert ScaledHeight(c, viewportWidth) == Finite(s * c.height);
  }

  /**
   * With a crop of zero width and a viewport of positive width the scale is
   * Infinity, the vertical offset is not a finite number, and suppression
   * applies exactly to non-splash panels, whatever the viewport height.
   */
  lemma FramingZeroWidth(panel: Panel, pageWidth: real, pageHeight: real,
                         viewportWidth: real, viewportHeight: real)
    requires viewportWidth > 0.0
    requires var c := Crop(panel.boundingBox, pageWidth, pageHeight); c.width == 0.0 && c.height >= 0.0
    ensures var f := CreateFramedPanel(panel, pageWidth, pageHeight, viewportWidth, viewportHeight);
      && f.viewportTransform.scale == PosInfinity
      && (f.viewportTransform.offsetY == NegInfinity || f.viewportTransform.offsetY == NaN)
      && (f.backgroundSuppression.applied <==> !panel.isSplash)
  {
  }

  /**
   * Framing depends on the panel and the sizes only: framing the panel of an
   * already framed panel for a new viewport gives what framing the original
   * panel for that viewport gives. This holds because a framed panel carries
   * the panel it was made from unchanged (CreateFramedPanel's first ensures),
   * which is what the resize recompute relies on when it frames each framed
   * panel again.
   */
  lemma ReframeIgnoresOldFrame(panel: Panel, pageWidth: real, pageHeight: real,
                               w1: real, h1: real, w2: real, h2: real)
    ensures var f := CreateFramedPanel(panel, pageWidth, pageHeight, w1, h1);
      CreateFramedPanel(f.panel, pageWidth, pageHeight, w2, h2) == CreateFramedPanel(panel, pageWidth, pageHeight, w2, h2)
  {
  }
}
