/**
 * The layout of the focused panel in the panel viewer (the second effect of
 * src/components/PanelViewer.tsx): the page is fitted into the container as a
 * background (object-contain), and the panel canvas, kept at the crop's aspect
 * ratio, is sized by a chain of caps and centred in the container.
 */
module PanelViewer {
  import opened Types

  /** The stored layout state (setLayout). */
  datatype Layout = Layout(
    canvasWidth: real,
    canvasHeight: real,
    finalOffsetX: real,
    finalOffsetY: real,
    startTranslateX: real,
    startTranslateY: real,
    startScale: real)

  /** minWidthRatio: the panel should be at least this share of the background's width. */
  const MinWidthRatio: real := 0.75

  /** The share of the container the panel may take at most in each direction. */
  const MaxViewportShare: real := 0.9

  /**
   * The background placement: the page drawn object-contain in the container.
   * It fills the container in one direction, keeps the page's aspect ratio,
   * and is centred.
   */
  method FitBackground(pageWidth: real, pageHeight: real, containerWidth: real, containerHeight: real)
    returns (background: BoundingBox)
    requires pageWidth > 0.0 && pageHeight > 0.0 && containerWidth > 0.0 && containerHeight > 0.0
    ensures 0.0 <= background.x && 0.0 <= background.y
    ensures 0.0 < background.width <= containerWidth && 0.0 < background.height <= containerHeight
    ensures background.width == containerWidth || background.height == containerHeight
    ensures background.width * pageHeight == background.height * pageWidth
    ensures 2.0 * background.x + background.width == containerWidth
    ensures 2.0 * background.y + background.height == containerHeight
    ensures ContainFit(background, pageWidth, pageHeight, containerWidth, containerHeight)
  {
    var pageAspectRatio := pageWidth / pageHeight;
    var containerAspectRatio := containerWidth / containerHeight;
    var bgWidth := containerWidth;
    var bgHeight := containerHeight;
    var bgX := 0.0;
    var bgY := 0.0;
    if pageAspectRatio > containerAspectRatio {
      bgHeight := containerWidth / pageAspectRatio;
      bgY := (containerHeight - bgHeight) / 2.0;
      WiderFit(pageWidth, pageHeight, containerWidth, containerHeight);
    } else {
      bgWidth := containerHeight * pageAspectRatio;
      bgX := (containerWidth - bgWidth) / 2.0;
      TallerFit(pageWidth, pageHeight, containerWidth, containerHeight);
    }
    background := BoundingBox(bgX, bgY, bgWidth, bgHeight);
  }

  /**
   * The canvas height the chain of caps arrives at, in closed form: the
   * container's height capped at the background's, raised to the height at
   * which the panel is 75% of the background wide (still capped at the
   * background's height), then capped so that the panel takes at most 90% of
   * the container each way.
   */
  function CanvasHeight(ratio: real, bgWidth: real, bgHeight: real, containerWidth: real, containerHeight: real): real
    requires ratio > 0.0
  {
    var capped := MinReal(containerHeight, bgHeight);
    var widened := MaxReal(capped, MinReal(bgWidth * MinWidthRatio / ratio, bgHeight));
    MinReal(MinReal(widened, containerWidth * MaxViewportShare / ratio), containerHeight * MaxViewportShare)
  }

  /**
   * The canvas size for a panel of aspect ratio `ratio` over a background of
   * `bgWidth` by `bgHeight`: start at the container's height, cap at the
   * background's height, widen to 75% of the background's width without
   * exceeding its height, then cap each side at 90% of the container. The
   * height is CanvasHeight, the width follows from the aspect ratio, and the
   * result is no taller than the background and no larger than 90% of the
   * container in either direction.
   */
  method SizeCanvas(ratio: real, bgWidth: real, bgHeight: real, containerWidth: real, containerHeight: real)
    returns (canvasWidth: real, canvasHeight: real)
    requires ratio > 0.0 && bgWidth > 0.0 && bgHeight > 0.0 && containerWidth > 0.0 && containerHeight > 0.0
    ensures canvasHeight == CanvasHeight(ratio, bgWidth, bgHeight, containerWidth, containerHeight)
    ensures canvasWidth == canvasHeight * ratio
    ensures 0.0 < canvasHeight <= bgHeight
    ensures 0.0 < canvasWidth <= containerWidth * MaxViewportShare
    ensures canvasHeight <= containerHeight * MaxViewportShare
  {
    canvasWidth, canvasHeight := CapToBackground(ratio, bgHeight, containerHeight);
    canvasWidth, canvasHeight := WidenToBackground(canvasWidth, canvasHeight, ratio, bgWidth, bgHeight);
    canvasWidth, canvasHeight := CapToViewport(canvasWidth, canvasHeight, ratio, containerWidth, containerHeight);
  }

  /** Start at the container's height and cap the panel at the background's height. */
  method CapToBackground(ratio: real, bgHeight: real, containerHeight: real)
    returns (canvasWidth: real, canvasHeight: real)
    requires ratio > 0.0 && bgHeight > 0.0 && containerHeight > 0.0
    ensures canvasHeight == MinReal(containerHeight, bgHeight)
    ensures canvasWidth == canvasHeight * ratio
    ensures 0.0 < canvasHeight <= bgHeight && canvasHeight <= containerHeight
  {
    canvasHeight := containerHeight;
    canvasWidth := canvasHeight * ratio;
    var maxPanelHeight := bgHeight;
    if canvasHeight > maxPanelHeight {
      canvasHeight := maxPanelHeight;
      canvasWidth := canvasHeight * ratio;
    }
  }

  /**
   * Widen a panel narrower than 75% of the background to that width, then cap
   * it at the background's height again; the aspect ratio is kept throughout.
   */
  method WidenToBackground(w: real, h: real, ratio: real, bgWidth: real, bgHeight: real)
    returns (canvasWidth: real, canvasHeight: real)
    requires ratio > 0.0 && bgWidth > 0.0 && bgHeight > 0.0
    requires w == h * ratio && 0.0 < h <= bgHeight
    ensures canvasHeight == MaxReal(h, MinReal(bgWidth * MinWidthRatio / ratio, bgHeight))
    ensures canvasWidth == canvasHeight * ratio
    ensures 0.0 < canvasHeight <= bgHeight
    ensures w >= bgWidth * MinWidthRatio ==> canvasWidth == w && canvasHeight == h
    ensures w < bgWidth * MinWidthRatio ==> canvasHeight == MinReal(bgWidth * MinWidthRatio / ratio, bgHeight)
  {
    canvasWidth, canvasHeight := w, h;
    var maxPanelHeight := bgHeight;
    if canvasWidth < bgWidth * MinWidthRatio {
      canvasWidth := bgWidth * MinWidthRatio;
      canvasHeight := canvasWidth / ratio;
      DivPositive(canvasWidth, ratio);
      DivMul(canvasWidth, ratio);
      if canvasHeight > maxPanelHeight {
        canvasHeight := maxPanelHeight;
        canvasWidth := canvasHeight * ratio;
      }
    }
  }

  /**
   * Cap the width, then the height, at 90% of the container, keeping the
   * aspect ratio; neither cap makes the panel taller.
   */
  method CapToViewport(w: real, h: real, ratio: real, containerWidth: real, containerHeight: real)
    returns (canvasWidth: real, canvasHeight: real)
    requires ratio > 0.0 && containerWidth > 0.0 && containerHeight > 0.0
    requires w == h * ratio && 0.0 < h
    ensures canvasHeight == MinReal(MinReal(h, containerWidth * MaxViewportShare / ratio), containerHeight * MaxViewportShare)
    ensures canvasWidth == canvasHeight * ratio
    ensures 0.0 < canvasHeight <= h
    ensures 0.0 < canvasWidth <= containerWidth * MaxViewportShare
    ensures canvasHeight <= containerHeight * MaxViewportShare
  {
    canvasWidth, canvasHeight := w, h;
    var maxCanvasWidth := containerWidth * MaxViewportShare;
    var maxCanvasHeight := containerHeight * MaxViewportShare;
    if canvasWidth > maxCanvasWidth {
      ShrinkWidth(canvasWidth, canvasHeight, maxCanvasWidth, ratio);
      canvasWidth := maxCanvasWidth;
      canvasHeight := canvasWidth / ratio;
    }
    assert canvasWidth == canvasHeight * ratio && 0.0 < canvasHeight <= h;
    assert canvasWidth <= maxCanvasWidth;
    if canvasHeight > maxCanvasHeight {
      ShrinkHeight(canvasHeight, maxCanvasHeight, ratio);
      canvasHeight := maxCanvasHeight;
      canvasWidth := canvasHeight * ratio;
    }
    MulPositive(canvasHeight, ratio);
  }

  /**
   * The layout effect for a crop of `cropWidth` by `cropHeight`, a page of
   * `pageWidth` by `pageHeight` and a container of `containerWidth` by
   * `containerHeight`; it also returns the background placement it computes.
   * The canvas keeps the crop's aspect ratio, is no taller than the background,
   * no larger than 90% of the container in either direction, and is centred,
   * leaving at least 5% of the container on each side; the entry animation
   * starts untranslated at scale 0.96.
   */
  method ComputeLayout(cropWidth: real, cropHeight: real, pageWidth: real, pageHeight: real,
                       containerWidth: real, containerHeight: real)
    returns (layout: Layout, background: BoundingBox)
    requires cropWidth > 0.0 && cropHeight > 0.0 && pageWidth > 0.0 && pageHeight > 0.0
    requires containerWidth > 0.0 && containerHeight > 0.0
    ensures background.width * pageHeight == background.height * pageWidth
    ensures 0.0 < background.width <= containerWidth && 0.0 < background.height <= containerHeight
    ensures background.width == containerWidth || background.height == containerHeight
    ensures 2.0 * background.x + background.width == containerWidth
    ensures 2.0 * background.y + background.height == containerHeight
    ensures ContainFit(background, pageWidth, pageHeight, containerWidth, containerHeight)
    ensures layout.canvasHeight
      == CanvasHeight(cropWidth / cropHeight, background.width, background.height, containerWidth, containerHeight)
    ensures layout.canvasWidth == layout.canvasHeight * (cropWidth / cropHeight)
    ensures 0.0 < layout.canvasHeight <= background.height
    ensures 0.0 < layout.canvasWidth <= containerWidth * MaxViewportShare
    ensures layout.canvasHeight <= containerHeight * MaxViewportShare
    ensures 2.0 * layout.finalOffsetX + layout.canvasWidth == containerWidth
    ensures 2.0 * layout.finalOffsetY + layout.canvasHeight == containerHeight
    ensures layout.finalOffsetX >= containerWidth * 0.05 && layout.finalOffsetY >= containerHeight * 0.05
    ensures layout.startTranslateX == 0.0 && layout.startTranslateY == 0.0 && layout.startScale == 0.96
  {
    var panelAspectRatio := cropWidth / cropHeight;
    DivPositive(cropWidth, cropHeight);
    background := FitBackground(pageWidth, pageHeight, containerWidth, containerHeight);
    var canvasWidth, canvasHeight := SizeCanvas(panelAspectRatio, background.width, background.height,
                                                containerWidth, containerHeight);
    var finalOffsetX := (containerWidth - canvasWidth) / 2.0;
    var finalOffsetY := (containerHeight - canvasHeight) / 2.0;
    layout := Layout(canvasWidth, canvasHeight, finalOffsetX, finalOffsetY, 0.0, 0.0, 0.96);
  }

  /** The contain fit: inside the container, filling it one way, at the page's ratio, centred. */
  predicate ContainFit(b: BoundingBox, pageWidth: real, pageHeight: real, containerWidth: real, containerHeight: real)
  {
    && 0.0 < b.width <= containerWidth && 0.0 < b.height <= containerHeight
    && (b.width == containerWidth || b.height == containerHeight)
    && b.width * pageHeight == b.height * pageWidth
    && 2.0 * b.x + b.width == containerWidth && 2.0 * b.y + b.height == containerHeight
  }

  /**
   * There is only one contain fit of a page in a container, so the background
   * FitBackground and ComputeLayout return, and the canvas sized from it, are
   * determined by the page and container sizes alone.
   */
  lemma ContainFitUnique(a: BoundingBox, b: BoundingBox, pageWidth: real, pageHeight: real,
                         containerWidth: real, containerHeight: real)
    requires pageWidth > 0.0 && pageHeight > 0.0
    requires ContainFit(a, pageWidth, pageHeight, containerWidth, containerHeight)
    requires ContainFit(b, pageWidth, pageHeight, containerWidth, containerHeight)
    ensures a == b
  {
  }

  lemma DivPositive(a: real, b: real)
    requires a > 0.0 && b > 0.0
    ensures a / b > 0.0
  {
  }

  lemma MulPositive(a: real, b: real)
    requires a > 0.0 && b > 0.0
    ensures a * b > 0.0
  {
  }

  lemma DivMul(a: real, b: real)
    requires b != 0.0
    ensures a / b * b == a
  {
  }

  /**
   * A page wider than the container, relative to their heights, fills the
   * container's width: its fitted height is positive, no more than the
   * container's, and keeps the page's aspect ratio.
   */
  lemma WiderFit(pageWidth: real, pageHeight: real, containerWidth: real, containerHeight: real)
    requires pageWidth > 0.0 && pageHeight > 0.0 && containerWidth > 0.0 && containerHeight > 0.0
    requires pageWidth / pageHeight > containerWidth / containerHeight
    ensures var bgHeight := containerWidth / (pageWidth / pageHeight);
      0.0 < bgHeight <= containerHeight && containerWidth * pageHeight == bgHeight * pageWidth
  {
    var par := pageWidth / pageHeight;
    var bgHeight := containerWidth / par;
    assert par * pageHeight == pageWidth;
    assert bgHeight * par == containerWidth;
    assert bgHeight * pageWidth == bgHeight * par * pageHeight;
    DivPositive(containerWidth, par);
    var car := containerWidth / containerHeight;
    assert car * containerHeight == containerWidth;
    assert bgHeight * par == car * containerHeight;
    assert car < par;
  }

  /**
   * A page no wider than the container, relative to their heights, fills the
   * container's height: its fitted width is positive, no more than the
   * container's, and keeps the page's aspect ratio.
   */
  lemma TallerFit(pageWidth: real, pageHeight: real, containerWidth: real, containerHeight: real)
    requires pageWidth > 0.0 && pageHeight > 0.0 && containerWidth > 0.0 && containerHeight > 0.0
    requires pageWidth / pageHeight <= containerWidth / containerHeight
    ensures var bgWidth := containerHeight * (pageWidth / pageHeight);
      0.0 < bgWidth <= containerWidth && bgWidth * pageHeight == containerHeight * pageWidth
  {
    var par := pageWidth / pageHeight;
    var car := containerWidth / containerHeight;
    assert par * pageHeight == pageWidth;
    assert car * containerHeight == containerWidth;
    DivPositive(pageWidth, pageHeight);
    MulPositive(containerHeight, par);
    assert containerHeight * par <= containerHeight * car;
  }

  /** Narrowing a box of fixed positive aspect ratio lowers it. */
  lemma ShrinkWidth(w: real, h: real, w': real, ratio: real)
    requires ratio > 0.0 && w == h * ratio && 0.0 < w' < w
    ensures 0.0 < w' / ratio < h && w' / ratio * ratio == w'
  {
    DivMul(w', ratio);
    DivPositive(w', ratio);
  }

  /** Lowering the height of a box of fixed positive aspect ratio narrows it. */
  lemma ShrinkHeight(h: real, h': real, ratio: real)
    requires ratio > 0.0 && h' < h
    ensures h' * ratio < h * ratio
  {
  }
}
