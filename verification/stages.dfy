/** The worker's operator table: each stage call handed to the raster
    operator it names. JavaScript numbers are converted to the operators'
    parameter types: `i32` for brightness, `u8` for the two level points.
    The library routines outside this model are the engine's fields. */
module Stages {
  import opened Numeric
  import opened Raster
  import opened Pipeline
  import opened Color
  import opened Tone
  import Filters

  /** The library routines the operators delegate to. */
  datatype Engine = Engine(
    lib: Library,
    pow: (real, real) -> real,
    exp2: real -> real,
    blur: (Image, real) -> Image,
    falloff: (Image, real, real) -> Image,
    bilateral: (Image, real) -> Image)

  /** The module function a call names, applied to the raster. */
  function Operate(c: Call, img: Image, e: Engine): Image
    requires Valid(img)
  {
    match c
    case BrightnessCall(v) => AdjustBrightness(img, ToInt32(v), e.lib.brighten)
    case ContrastCall(v) => AdjustContrast(img, v, e.lib.contrast)
    case SaturationCall(v) => AdjustSaturation(img, v, e.lib.huerotate)
    case WhiteBalanceCall(v) => AdjustWhiteBalance(img, v)
    case HueCall(v) => AdjustHue(img, v)
    case ExposureCall(v) => AdjustExposure(img, v, e.exp2)
    case VibranceCall(v) => AdjustVibrance(img, v, e.pow)
    case HighlightsCall(v) => AdjustHighlights(img, v)
    case ShadowsCall(v) => AdjustShadows(img, v)
    case CurvesCall(r, g, b) => AdjustCurves(img, r, g, b, e.pow)
    case LevelsCall(lo, hi, m) => AdjustLevels(img, ToUint8(lo), ToUint8(hi), m, e.pow)
    case BlurCall(v) => Filters.GaussianBlur(img, v, e.blur)
    case SharpenCall(v) => Filters.Sharpen(img, v)
    case VignetteCall(v, r) => Filters.Vignette(img, v, r, e.falloff)
    case NoiseCall(v) => Filters.ReduceNoise(img, v, e.bilateral)
  }

  /** Skipping a stage is sound: had the worker made the call of a stage it
      skips, the operator would have returned the raster unchanged. The one
      exception is a negative vignette strength, which the worker skips
      although `apply_vignette` would still apply the falloff. */
  lemma SkippedStageIsNeutral(a: Adjustments, s: Stage, img: Image, e: Engine)
    requires Valid(img) && NeutralAtZero(e.lib) && !Active(a, s)
    ensures s != Pipeline.Vignette ==> Operate(CallFor(a, s), img, e) == img
    ensures s == Pipeline.Vignette && !Truthy(a.vignetteStrength) ==> Operate(CallFor(a, s), img, e) == img
    ensures s == Pipeline.Vignette && Truthy(a.vignetteStrength) ==>
              a.vignetteStrength.value < 0.0 &&
              Operate(CallFor(a, s), img, e) ==
                e.falloff(img, a.vignetteStrength.value, OrElse(a.vignetteRadius, 0.8))
  {
    match s
    case Brightness => assert ToInt32(0.0) == 0;
    case Saturation => assert CastI32(0.0 * 0.1) == 0;
    case Levels =>
      LevelsSkippedIffNeutralCall(a);
      assert ToUint8(0.0) == 0 && ToUint8(255.0) == 255;
    case Curves => CurvesSkippedIffNeutralCall(a);
    case _ =>
  }

  /** The curve stage as the worker calls it: skipped settings pass three
      gammas of 1.0, for which the operator returns its input. */
  lemma SkippedCurvesKeepImage(a: Adjustments, img: Image, e: Engine)
    requires Valid(img) && !NeedsCurves(a)
    ensures AdjustCurves(img, OrElse(a.redGamma, 1.0), OrElse(a.greenGamma, 1.0),
                         OrElse(a.blueGamma, 1.0), e.pow) == img
  {
  }

  /** The levels stage as the worker calls it: skipped settings pass
      (0, 255, 1.0), for which the operator returns its input. */
  lemma SkippedLevelsKeepImage(a: Adjustments, img: Image, e: Engine)
    requires Valid(img) && !NeedsLevels(a)
    ensures AdjustLevels(img, ToUint8(OrElse(a.blackPoint, 0.0)), ToUint8(OrElse(a.whitePoint, 255.0)),
                         OrElse(a.gamma, 1.0), e.pow) == img
  {
    assert ToUint8(0.0) == 0 && ToUint8(255.0) == 255;
  }
}
