/** The single-page application's own state: the reducer of the editor page
    and `applyChanges`, which runs the four basic operators in a fixed order
    on the original image. Object URLs are strings the caller supplies. */
module App {
  import opened Numeric
  import opened Raster
  import opened Pipeline
  import opened Color

  datatype Params = Params(brightness: real, contrast: real, saturation: real, temperature: real)

  datatype ParamKey = BrightnessParam | ContrastParam | SaturationParam | TemperatureParam

  /** The decoded original image and its object URL. */
  datatype Loaded = Loaded(data: Image, url: string)

  datatype State = State(originalImage: Option<Loaded>, processedImageUrl: Option<string>,
                         isLoading: bool, params: Params)

  datatype Action =
    | SetImage(image: Loaded)
    | SetParam(key: ParamKey, value: real)
    | StartLoading
    | SetProcessedImage(url: string)
    | ResetParams
    | UnknownAction

  const ZeroParams: Params := Params(0.0, 0.0, 0.0, 0.0)

  const InitialState: State := State(None, None, true, ZeroParams)

  function Param(p: Params, key: ParamKey): real
  {
    match key
    case BrightnessParam => p.brightness
    case ContrastParam => p.contrast
    case SaturationParam => p.saturation
    case TemperatureParam => p.temperature
  }

  /** `{ ...params, [key]: value }`. */
  function WithParam(p: Params, key: ParamKey, value: real): (r: Params)
    ensures Param(r, key) == value
    ensures forall k :: k != key ==> Param(r, k) == Param(p, k)
  {
    match key
    case BrightnessParam => p.(brightness := value)
    case ContrastParam => p.(contrast := value)
    case SaturationParam => p.(saturation := value)
    case TemperatureParam => p.(temperature := value)
  }

  /** `reducer`. */
  function Reduce(s: State, a: Action): State
  {
    match a
    case SetImage(image) =>
      InitialState.(isLoading := false, originalImage := Some(image), processedImageUrl := Some(image.url))
    case SetParam(key, value) => s.(params := WithParam(s.params, key, value))
    case StartLoading => s.(isLoading := true)
    case SetProcessedImage(url) => s.(isLoading := false, processedImageUrl := Some(url))
    case ResetParams => s.(params := InitialState.params)
    case UnknownAction => s
  }

  function ReduceAll(s: State, actions: seq<Action>): State
    decreases |actions|
  {
    if |actions| == 0 then s else ReduceAll(Reduce(s, actions[0]), actions[1..])
  }

  // ------------------------------------------------------ reducer lemmas

  /** Loading an image starts over from the initial state, whatever came
      before: not loading, zero parameters, and the original shown. */
  lemma SetImageStartsOver(s: State, t: State, image: Loaded)
    ensures Reduce(s, SetImage(image)) == Reduce(t, SetImage(image))
    ensures var r := Reduce(s, SetImage(image));
            && r.originalImage == Some(image) && r.processedImageUrl == Some(image.url)
            && !r.isLoading
            && forall k :: Param(r.params, k) == 0.0
  {
  }

  /** Setting a parameter changes that parameter only. */
  lemma SetParamChangesOnlyKey(s: State, key: ParamKey, value: real)
    ensures var r := Reduce(s, SetParam(key, value));
            && Param(r.params, key) == value
            && (forall k :: k != key ==> Param(r.params, k) == Param(s.params, k))
            && r.originalImage == s.originalImage && r.processedImageUrl == s.processedImageUrl
            && r.isLoading == s.isLoading
  {
  }

  /** Two settings of different parameters commute, and the later of two
      settings of one parameter wins. */
  lemma SetParamOrder(s: State, k1: ParamKey, v1: real, k2: ParamKey, v2: real)
    ensures k1 != k2 ==>
              Reduce(Reduce(s, SetParam(k1, v1)), SetParam(k2, v2)) ==
              Reduce(Reduce(s, SetParam(k2, v2)), SetParam(k1, v1))
    ensures k1 == k2 ==>
              Reduce(Reduce(s, SetParam(k1, v1)), SetParam(k2, v2)) == Reduce(s, SetParam(k2, v2))
  {
  }

  /** `START_LOADING` raises the flag and touches nothing else;
      `SET_PROCESSED_IMAGE` lowers it and replaces only the shown URL. */
  lemma LoadingFlag(s: State, url: string)
    ensures var r := Reduce(s, StartLoading);
            r.isLoading && r.originalImage == s.originalImage && r.params == s.params
            && r.processedImageUrl == s.processedImageUrl
    ensures var r := Reduce(s, SetProcessedImage(url));
            !r.isLoading && r.processedImageUrl == Some(url)
            && r.originalImage == s.originalImage && r.params == s.params
  {
  }

  /** `RESET_PARAMS` zeroes every parameter, keeps the image and URLs, and
      undoes any earlier `SET_PARAM`; an unknown action changes nothing. */
  lemma ResetParamsRestoresZero(s: State, key: ParamKey, value: real)
    ensures var r := Reduce(s, ResetParams);
            && (forall k :: Param(r.params, k) == 0.0)
            && r.originalImage == s.originalImage && r.processedImageUrl == s.processedImageUrl
            && r.isLoading == s.isLoading
    ensures Reduce(Reduce(s, SetParam(key, value)), ResetParams) == Reduce(s, ResetParams)
    ensures Reduce(s, UnknownAction) == s
  {
  }

  /** Once an image is loaded there is always a URL to show. */
  predicate Displayable(s: State)
  {
    s.originalImage.Some? ==> s.processedImageUrl.Some?
  }

  lemma {:induction false} AlwaysDisplayable(s: State, actions: seq<Action>)
    requires Displayable(s)
    ensures Displayable(ReduceAll(s, actions))
    decreases |actions|
  {
    if |actions| > 0 {
      assert Displayable(Reduce(s, actions[0]));
      AlwaysDisplayable(Reduce(s, actions[0]), actions[1..]);
    }
  }

  // -------------------------------------------------------- applyChanges

  /** The four operators in `applyChanges`' order: brightness as an `i32`,
      contrast and saturation scaled by 0.1, and white balance last. */
  function ApplyOperators(img: Image, p: Params, lib: Library): (out: Image)
    requires Valid(img) && KeepsValid(lib)
    ensures Valid(out)
  {
    var b := AdjustBrightness(img, ToInt32(p.brightness), lib.brighten);
    var c := AdjustContrast(b, p.contrast * 0.1, lib.contrast);
    var s := AdjustSaturation(c, p.saturation * 0.1, lib.huerotate);
    AdjustWhiteBalance(s, p.temperature)
  }

  /** Zero parameters leave the original image unchanged. */
  lemma ZeroParamsKeepImage(img: Image, lib: Library)
    requires Valid(img) && KeepsValid(lib) && NeutralAtZero(lib)
    ensures ApplyOperators(img, ZeroParams, lib) == img
  {
    assert ToInt32(0.0) == 0;
    assert CastI32(0.0 * 0.1) == 0;
  }

  /** Because the saturation slider is scaled by 0.1 and then truncated to
      whole degrees, any setting strictly between -10 and 10 has no effect. */
  lemma SmallSaturationIgnored(img: Image, p: Params, lib: Library)
    requires Valid(img) && KeepsValid(lib) && NeutralAtZero(lib)
    requires -10.0 < p.saturation < 10.0
    ensures ApplyOperators(img, p, lib) == ApplyOperators(img, p.(saturation := 0.0), lib)
  {
    assert -1.0 < p.saturation * 0.1 < 1.0;
    assert CastI32(0.0 * 0.1) == 0;
  }

  /** The white-balance stage runs last: with a neutral temperature the
      result is whatever the library stages produced, and the temperature
      then shifts each pixel of that result on its own. */
  lemma WhiteBalanceRunsLast(img: Image, p: Params, lib: Library)
    requires Valid(img) && KeepsValid(lib)
    ensures var staged := ApplyOperators(img, p.(temperature := 0.0), lib);
            var out := ApplyOperators(img, p, lib);
            && SameSize(out, staged)
            && (p.temperature == 0.0 ==> out == staged)
            && (p.temperature != 0.0 ==>
                  forall y, x :: 0 <= y < staged.height && 0 <= x < staged.width ==>
                    out.rows[y][x] == WhiteBalancePixel(staged.rows[y][x], p.temperature / 100.0))
  {
  }

  /** `applyChanges`: nothing without an image or before the module is ready;
      otherwise `START_LOADING` at once and, later, the URL of the processed
      original, both computed from the state the callback captured. */
  function ApplyChanges(s: State, wasmReady: bool, lib: Library, makeUrl: Image -> string): (actions: seq<Action>)
    requires s.originalImage.Some? ==> Valid(s.originalImage.value.data)
    requires KeepsValid(lib)
  {
    if s.originalImage.None? || !wasmReady then []
    else [StartLoading, SetProcessedImage(makeUrl(ApplyOperators(s.originalImage.value.data, s.params, lib)))]
  }

  /** Applying changes shows the processed original, clears the loading flag
      and keeps the image and parameters. Applying again from the resulting
      state hands the URL factory the same processed image and ends in the
      same displayed state up to that URL, because it always starts from
      the original rather than from the last result. */
  lemma ApplyChangesIsStable(s: State, lib: Library, makeUrl: Image -> string)
    requires s.originalImage.Some? && Valid(s.originalImage.value.data) && KeepsValid(lib)
    ensures var r := ReduceAll(s, ApplyChanges(s, true, lib, makeUrl));
            var shown := ApplyOperators(s.originalImage.value.data, s.params, lib);
            && !r.isLoading && r.originalImage == s.originalImage && r.params == s.params
            && r.processedImageUrl == Some(makeUrl(shown))
            && r.originalImage.Some?
            && ApplyOperators(r.originalImage.value.data, r.params, lib) == shown
            && ApplyChanges(r, true, lib, makeUrl) == [StartLoading, SetProcessedImage(makeUrl(shown))]
            && var r2 := ReduceAll(r, ApplyChanges(r, true, lib, makeUrl));
               !r2.isLoading && r2.originalImage == s.originalImage && r2.params == s.params
  {
    var acts := ApplyChanges(s, true, lib, makeUrl);
    ReduceTwo(s, acts);
    var r := ReduceAll(s, acts);
    ReduceTwo(r, ApplyChanges(r, true, lib, makeUrl));
  }

  lemma ReduceTwo(s: State, acts: seq<Action>)
    requires |acts| == 2
    ensures ReduceAll(s, acts) == Reduce(Reduce(s, acts[0]), acts[1])
  {
    var s1 := Reduce(s, acts[0]);
    assert acts[1..][0] == acts[1];
    assert acts[1..][1..] == [];
    assert ReduceAll(s1, acts[1..]) == ReduceAll(Reduce(s1, acts[1]), []);
  }

  /** Without an image or before the module is ready nothing is dispatched. */
  lemma ApplyChangesNeedsImage(s: State, wasmReady: bool, lib: Library, makeUrl: Image -> string)
    requires s.originalImage.Some? ==> Valid(s.originalImage.value.data)
    requires KeepsValid(lib)
    ensures ApplyChanges(s, wasmReady, lib, makeUrl) == [] <==> s.originalImage.None? || !wasmReady
  {
  }
}
