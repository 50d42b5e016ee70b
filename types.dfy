/**
 * The records the panel pipeline passes around (src/types.ts), the JavaScript
 * number values the pipeline can produce when a divisor is zero, and the two
 * numeric conventions every component shares: `Math.round` and the decimal
 * text of a panel id.
 */
module Types {

  datatype Option<T> = None | Some(value: T)

  /** An axis-aligned rectangle in page pixel coordinates. */
  datatype BoundingBox = BoundingBox(x: real, y: real, width: real, height: real)

  /** A detected panel. `imageData` is never set by the pipeline and is not modelled. */
  datatype Panel = Panel(
    id: string,
    pageIndex: nat,
    boundingBox: BoundingBox,
    isNested: bool,
    isSplash: bool,
    area: real)

  datatype Direction = Ltr | Rtl

  datatype ScalingMode = Contain | Cover

  datatype SuppressionType = Blur | Dim | Vignette | Combined

  datatype BackgroundSuppression = BackgroundSuppression(applied: bool, kind: SuppressionType)

  /**
   * A JavaScript number as far as the pipeline needs one: a finite value, or
   * one of the non-finite results of dividing by zero.
   */
  datatype JsNumber = Finite(value: real) | PosInfinity | NegInfinity | NaN

  datatype ViewportTransform = ViewportTransform(scale: JsNumber, offsetX: real, offsetY: JsNumber)

  /** A panel annotated with the geometry to show it in a viewport (FramedPanel extends Panel). */
  datatype FramedPanel = FramedPanel(
    panel: Panel,
    cropCoordinates: BoundingBox,
    scalingMode: ScalingMode,
    backgroundSuppression: BackgroundSuppression,
    viewportTransform: ViewportTransform)

  /**
   * One rasterised page. `raster` stands for the decoded image: the channel-0
   * samples, row-major, of the page drawn at detection size (see
   * PanelDetection.DetectSize); decoding and drawing are not part of this model.
   */
  datatype PageData = PageData(
    pageIndex: nat,
    width: nat,
    height: nat,
    raster: seq<int>,
    panels: seq<Panel>,
    sequencedPanels: seq<Panel>)

  /** The ElevenLabs voice settings: stability and similarity_boost. */
  datatype VoiceSettings = VoiceSettings(stability: real, similarityBoost: real)

  /** `Math.min` and `Math.max` of two finite numbers. */
  function MinReal(a: real, b: real): real { if a <= b then a else b }

  function MaxReal(a: real, b: real): real { if a >= b then a else b }

  /** `Math.round`: the nearest integer, halves rounded up. */
  function Round(v: real): (r: int)
    ensures r as real - 0.5 <= v < r as real + 0.5
  {
    (v + 0.5).Floor
  }

  // ---- IEEE results of the few operations that can meet a zero divisor ----

  /** `a / b` */
  function Div(a: real, b: real): (r: JsNumber)
    ensures b != 0.0 ==> r == Finite(a / b)
    ensures b == 0.0 ==> (r == NaN <==> a == 0.0) && (r == PosInfinity <==> a > 0.0) && (r == NegInfinity <==> a < 0.0)
  {
    if b != 0.0 then Finite(a / b)
    else if a > 0.0 then PosInfinity
    else if a < 0.0 then NegInfinity
    else NaN
  }

  /** `n * b` for a real `b` */
  function Mul(n: JsNumber, b: real): (r: JsNumber)
    ensures n.Finite? <==> r.Finite?
    ensures n.Finite? ==> r.value == n.value * b
  {
    match n
    case Finite(a) => Finite(a * b)
    case PosInfinity => if b > 0.0 then PosInfinity else if b < 0.0 then NegInfinity else NaN
    case NegInfinity => if b > 0.0 then NegInfinity else if b < 0.0 then PosInfinity else NaN
    case NaN => NaN
  }

  /** `(a - n) / 2` */
  function HalfGap(a: real, n: JsNumber): (r: JsNumber)
    ensures n.Finite? ==> r == Finite((a - n.value) / 2.0)
    ensures n == NaN ==> r == NaN
  {
    match n
    case Finite(v) => Finite((a - v) / 2.0)
    case PosInfinity => NegInfinity
    case NegInfinity => PosInfinity
    case NaN => NaN
  }

  /** `n < b`; every comparison with NaN is false. */
  predicate Less(n: JsNumber, b: real)
  {
    match n
    case Finite(a) => a < b
    case PosInfinity => false
    case NegInfinity => true
    case NaN => false
  }

  // ---- panel ids: `page-<pageIndex>-panel-<n>` ----

  function DigitChar(d: nat): (c: char)
    requires d < 10
    ensures '0' <= c <= '9' && (c as int) - ('0' as int) == d
  {
    ('0' as int + d) as char
  }

  /** The decimal text of a non-negative integer, as JavaScript prints it. */
  function Decimal(n: nat): (s: string)
    ensures |s| >= 1 && (n < 10 <==> |s| == 1)
    ensures forall i :: 0 <= i < |s| ==> '0' <= s[i] <= '9'
    ensures s[|s| - 1] == DigitChar(n % 10)
  {
    if n < 10 then [DigitChar(n)] else Decimal(n / 10) + [DigitChar(n % 10)]
  }

  lemma {:induction false} DecimalInjective(a: nat, b: nat)
    requires Decimal(a) == Decimal(b)
    ensures a == b
  {
    var s := Decimal(a);
    assert DigitChar(a % 10) == s[|s| - 1] == DigitChar(b % 10);
    if a >= 10 {
      assert b >= 10;
      assert Decimal(a / 10) == s[..|s| - 1] == Decimal(b / 10);
      DecimalInjective(a / 10, b / 10);
    }
  }

  function PanelId(pageIndex: nat, n: nat): string
  {
    "page-" + Decimal(pageIndex) + "-panel-" + Decimal(n)
  }

  /** Ids of one page are distinct: the panel number is recoverable from the id. */
  lemma PanelIdInjective(p: nat, i: nat, j: nat)
    requires PanelId(p, i) == PanelId(p, j)
    ensures i == j
  {
    var prefix := "page-" + Decimal(p) + "-panel-";
    assert PanelId(p, i) == prefix + Decimal(i) && PanelId(p, j) == prefix + Decimal(j);
    assert Decimal(i) == PanelId(p, i)[|prefix|..];
    assert Decimal(j) == PanelId(p, j)[|prefix|..];
    DecimalInjective(i, j);
  }
}
