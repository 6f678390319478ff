/** The worker's processing pipeline for one task: which stages an
    adjustment record switches on, the fixed order they run in, the step
    count, the progress percentages reported on the way and the single
    terminal message at the end. */
module Pipeline {
  import opened Numeric
  import opened Raster

  datatype Option<T> = None | Some(value: T)

  /** The adjustment record a task carries. The nine tone and colour fields
      are always numbers; the others may be missing, which JavaScript treats
      like 0 in a condition. */
  datatype Adjustments = Adjustments(
    brightness: real, contrast: real, saturation: real, temperature: real,
    hue: real, exposure: real, vibrance: real, highlights: real, shadows: real,
    redGamma: Option<real>, greenGamma: Option<real>, blueGamma: Option<real>,
    blackPoint: Option<real>, whitePoint: Option<real>, gamma: Option<real>,
    blur: Option<real>, sharpen: Option<real>,
    vignetteStrength: Option<real>, vignetteRadius: Option<real>,
    noiseReduction: Option<real>)

  /** JavaScript truthiness of an optional number: present and not 0. */
  predicate Truthy(o: Option<real>)
  {
    o.Some? && o.value != 0.0
  }

  /** `o || fallback` on an optional number. */
  function OrElse(o: Option<real>, fallback: real): real
  {
    if Truthy(o) then o.value else fallback
  }

  /** A present value that is truthy and differs from its neutral value. */
  predicate SetAwayFrom(o: Option<real>, neutral: real)
  {
    Truthy(o) && o.value != neutral
  }

  /** `needsCurveAdjustments`. */
  predicate NeedsCurves(a: Adjustments)
  {
    SetAwayFrom(a.redGamma, 1.0) || SetAwayFrom(a.greenGamma, 1.0) || SetAwayFrom(a.blueGamma, 1.0)
  }

  /** `needsLevelsAdjustments`. */
  predicate NeedsLevels(a: Adjustments)
  {
    SetAwayFrom(a.blackPoint, 0.0) || SetAwayFrom(a.whitePoint, 255.0) || SetAwayFrom(a.gamma, 1.0)
  }

  /** A truthy, positive filter strength. */
  predicate PositiveSetting(o: Option<real>)
  {
    Truthy(o) && o.value > 0.0
  }

  /** The fifteen stages, in the order the worker runs them. */
  datatype Stage =
    | Brightness | Contrast | Saturation | Temperature
    | Hue | Exposure | Vibrance | Highlights | Shadows
    | Curves | Levels | Blur | Sharpen | Vignette | Noise

  const StageOrder: seq<Stage> :=
    [Brightness, Contrast, Saturation, Temperature, Hue, Exposure, Vibrance,
     Highlights, Shadows, Curves, Levels, Blur, Sharpen, Vignette, Noise]

  /** The first four stages form the basic group, announced together. */
  predicate IsBasic(s: Stage)
  {
    s == Brightness || s == Contrast || s == Saturation || s == Temperature
  }

  /** Whether a stage runs for these adjustments; the same test decides
      whether it is counted as a step. */
  predicate Active(a: Adjustments, s: Stage)
  {
    match s
    case Brightness => a.brightness != 0.0
    case Contrast => a.contrast != 0.0
    case Saturation => a.saturation != 0.0
    case Temperature => a.temperature != 0.0
    case Hue => a.hue != 0.0
    case Exposure => a.exposure != 0.0
    case Vibrance => a.vibrance != 0.0
    case Highlights => a.highlights != 0.0
    case Shadows => a.shadows != 0.0
    case Curves => NeedsCurves(a)
    case Levels => NeedsLevels(a)
    case Blur => PositiveSetting(a.blur)
    case Sharpen => PositiveSetting(a.sharpen)
    case Vignette => PositiveSetting(a.vignetteStrength)
    case Noise => PositiveSetting(a.noiseReduction)
  }

  // ------------------------------------------------------ operator calls

  /** The operator call a stage makes, with its arguments as the worker
      passes them to the module. */
  datatype Call =
    | BrightnessCall(value: real)
    | ContrastCall(value: real)
    | SaturationCall(value: real)
    | WhiteBalanceCall(value: real)
    | HueCall(value: real)
    | ExposureCall(value: real)
    | VibranceCall(value: real)
    | HighlightsCall(value: real)
    | ShadowsCall(value: real)
    | CurvesCall(red: real, green: real, blue: real)
    | LevelsCall(black: real, white: real, midtone: real)
    | BlurCall(value: real)
    | SharpenCall(value: real)
    | VignetteCall(value: real, radius: real)
    | NoiseCall(value: real)

  /** The call of each stage: contrast and saturation scaled by 0.1, the
      curve gammas and the level settings through `||` with their neutral
      values, and the vignette radius through `|| 0.8`. A filter stage runs
      only with its setting truthy, where `o || 0` is the setting itself. */
  function CallFor(a: Adjustments, s: Stage): Call
  {
    match s
    case Brightness => BrightnessCall(a.brightness)
    case Contrast => ContrastCall(a.contrast * 0.1)
    case Saturation => SaturationCall(a.saturation * 0.1)
    case Temperature => WhiteBalanceCall(a.temperature)
    case Hue => HueCall(a.hue)
    case Exposure => ExposureCall(a.exposure)
    case Vibrance => VibranceCall(a.vibrance)
    case Highlights => HighlightsCall(a.highlights)
    case Shadows => ShadowsCall(a.shadows)
    case Curves => CurvesCall(OrElse(a.redGamma, 1.0), OrElse(a.greenGamma, 1.0), OrElse(a.blueGamma, 1.0))
    case Levels => LevelsCall(OrElse(a.blackPoint, 0.0), OrElse(a.whitePoint, 255.0), OrElse(a.gamma, 1.0))
    case Blur => BlurCall(OrElse(a.blur, 0.0))
    case Sharpen => SharpenCall(OrElse(a.sharpen, 0.0))
    case Vignette => VignetteCall(OrElse(a.vignetteStrength, 0.0), OrElse(a.vignetteRadius, 0.8))
    case Noise => NoiseCall(OrElse(a.noiseReduction, 0.0))
  }

  /** Running a stage of one task: its call handed to the module. */
  function Bind(a: Adjustments, invoke: (Call, Image) -> Option<Image>): (Stage, Image) -> Option<Image>
  {
    (s: Stage, d: Image) => invoke(CallFor(a, s), d)
  }

  /** The curve stage is skipped exactly when its call would pass three
      gammas of 1.0. */
  lemma CurvesSkippedIffNeutralCall(a: Adjustments)
    ensures !NeedsCurves(a) <==> CallFor(a, Curves) == CurvesCall(1.0, 1.0, 1.0)
  {
  }

  /** The levels stage is skipped exactly when its call would pass the
      neutral setting (0, 255, 1.0). */
  lemma LevelsSkippedIffNeutralCall(a: Adjustments)
    ensures !NeedsLevels(a) <==> CallFor(a, Levels) == LevelsCall(0.0, 255.0, 1.0)
  {
  }

  /** An active filter stage passes its own setting, which is positive. */
  lemma FilterCallsCarrySettings(a: Adjustments)
    ensures Active(a, Blur) ==> CallFor(a, Blur) == BlurCall(a.blur.value) && a.blur.value > 0.0
    ensures Active(a, Sharpen) ==> CallFor(a, Sharpen) == SharpenCall(a.sharpen.value) && a.sharpen.value > 0.0
    ensures Active(a, Noise) ==> CallFor(a, Noise) == NoiseCall(a.noiseReduction.value) && a.noiseReduction.value > 0.0
    ensures Active(a, Vignette) ==> CallFor(a, Vignette).value == a.vignetteStrength.value && a.vignetteStrength.value > 0.0
  {
  }

  /** `needsBasicAdjustments`. */
  predicate NeedsBasic(a: Adjustments)
  {
    a.brightness != 0.0 || a.contrast != 0.0 || a.saturation != 0.0 || a.temperature != 0.0
  }

  /** The active stages of `ss`, in order. */
  function ActiveStages(a: Adjustments, ss: seq<Stage>): (r: seq<Stage>)
    ensures |r| <= |ss|
  {
    if |ss| == 0 then []
    else ActiveStages(a, ss[..|ss| - 1]) + (if Active(a, ss[|ss| - 1]) then [ss[|ss| - 1]] else [])
  }

  /** A stage is kept exactly when it occurs and is active. */
  lemma {:induction false} ActiveStagesMembers(a: Adjustments, ss: seq<Stage>)
    ensures forall s :: s in ActiveStages(a, ss) <==> s in ss && Active(a, s)
    decreases |ss|
  {
    if |ss| > 0 {
      var init := ss[..|ss| - 1];
      ActiveStagesMembers(a, init);
      assert ss == init + [ss[|ss| - 1]];
    }
  }

  /** `calculateTotalSteps`: one step per active stage, and at least one so
      that the percentage is always defined. */
  method CalculateTotalSteps(a: Adjustments) returns (steps: nat)
    ensures steps >= 1
    ensures |ActiveStages(a, StageOrder)| > 0 ==> steps == |ActiveStages(a, StageOrder)|
    ensures |ActiveStages(a, StageOrder)| == 0 ==> steps == 1
  {
    steps := 0;
    var i := 0;
    while i < |StageOrder|
      invariant 0 <= i <= |StageOrder|
      invariant steps == |ActiveStages(a, StageOrder[..i])|
    {
      assert StageOrder[..i + 1][..i] == StageOrder[..i];
      if Active(a, StageOrder[i]) {
        steps := steps + 1;
      }
      i := i + 1;
    }
    assert StageOrder[..i] == StageOrder;
    if steps < 1 {
      steps := 1;
    }
  }

  /** The step count as a function, for use in contracts. */
  function TotalSteps(a: Adjustments): (t: nat)
    ensures t >= 1
  {
    var n := |ActiveStages(a, StageOrder)|;
    if n < 1 then 1 else n
  }

  /** The percentage reported after `step` of `total` steps. */
  function Percent(step: nat, total: nat): int
    requires total >= 1
  {
    JsRound(step as real / total as real * 100.0)
  }

  /** Percentages lie in [0, 100], grow with the step and reach 100 at the
      last step. */
  lemma PercentBounds(step: nat, total: nat)
    requires total >= 1 && step <= total
    ensures 0 <= Percent(step, total) <= 100
    ensures step == total ==> Percent(step, total) == 100
  {
    FractionBounds(step as real, total as real);
    var f := step as real / total as real;
    assert 0.0 <= f * 100.0 <= 100.0;
    if step == total {
      DivideBySelf(total as real);
    }
  }

  lemma PercentMonotone(s1: nat, s2: nat, total: nat)
    requires total >= 1 && s1 <= s2
    ensures Percent(s1, total) <= Percent(s2, total)
  {
    var t := total as real;
    QuotientBounds(s1 as real, t);
    QuotientBounds(s2 as real, t);
    QuotientBounds((s2 - s1) as real, t);
    assert (s2 as real) / t == (s1 as real) / t + ((s2 - s1) as real) / t;
    JsRoundMonotone(s1 as real / t * 100.0, s2 as real / t * 100.0);
  }

  // -------------------------------------------------------------- messages

  /** What the worker posts to the page. */
  datatype WorkerMessage =
    | Progress(taskId: nat, percent: int)
    | Complete(taskId: nat, result: Image)
    | Failed(taskId: nat)
    | Cancelled(taskId: nat)

  predicate Terminal(m: WorkerMessage)
  {
    m.Complete? || m.Failed?
  }

  /** The progress percentages of a message log never go down. */
  predicate ProgressNonDecreasing(msgs: seq<WorkerMessage>)
  {
    forall i, j :: 0 <= i < j < |msgs| && msgs[i].Progress? && msgs[j].Progress? ==>
      msgs[i].percent <= msgs[j].percent
  }

  /** Running stages one after another; `None` is an exception thrown by a
      stage, which ends the run. */
  function RunStages(ss: seq<Stage>, img: Image, apply: (Stage, Image) -> Option<Image>): Option<Image>
  {
    if |ss| == 0 then Some(img)
    else
      match RunStages(ss[..|ss| - 1], img, apply)
      case None => None
      case Some(d) => apply(ss[|ss| - 1], d)
  }

  /** A log of progress messages for one task, every percentage in
      [0, bound], in non-decreasing order. */
  predicate ProgressLog(msgs: seq<WorkerMessage>, taskId: nat, bound: int)
  {
    && (forall k :: 0 <= k < |msgs| ==> msgs[k].Progress? && msgs[k].taskId == taskId)
    && (forall k :: 0 <= k < |msgs| ==> 0 <= msgs[k].percent <= bound)
    && ProgressNonDecreasing(msgs)
  }

  /** Appending a percentage no smaller than the bound keeps the log
      ordered. */
  lemma ProgressLogAppend(msgs: seq<WorkerMessage>, taskId: nat, bound: int, v: int)
    requires ProgressLog(msgs, taskId, bound) && 0 <= bound <= v
    ensures ProgressLog(msgs + [Progress(taskId, v)], taskId, v)
  {
    var m := msgs + [Progress(taskId, v)];
    forall i, j | 0 <= i < j < |m| && m[i].Progress? && m[j].Progress?
      ensures m[i].percent <= m[j].percent
    {
      if j < |msgs| {
        assert m[i] == msgs[i] && m[j] == msgs[j];
      } else {
        assert m[i] == msgs[i];
      }
    }
  }

  /** Unfolding the active stages and the run by one more stage. */
  lemma ExtendRun(a: Adjustments, done: seq<Stage>, s: Stage, img: Image,
                  apply: (Stage, Image) -> Option<Image>)
    ensures !Active(a, s) ==> ActiveStages(a, done + [s]) == ActiveStages(a, done)
    ensures Active(a, s) ==> ActiveStages(a, done + [s]) == ActiveStages(a, done) + [s]
    ensures Active(a, s) ==>
              RunStages(ActiveStages(a, done + [s]), img, apply) ==
                match RunStages(ActiveStages(a, done), img, apply)
                case None => None
                case Some(d) => apply(s, d)
  {
    var after := done + [s];
    assert after[..|after| - 1] == done;
    if Active(a, s) {
      var run := ActiveStages(a, done) + [s];
      assert run[..|run| - 1] == ActiveStages(a, done);
    }
  }

  /** Where the run stands after a prefix of the stage order. */
  datatype RunState = RunState(step: nat, data: Image, failed: bool, msgs: seq<WorkerMessage>)

  predicate RunInvariant(st: RunState, a: Adjustments, done: seq<Stage>, total: nat, taskId: nat,
                         img: Image, apply: (Stage, Image) -> Option<Image>)
    requires total >= 1
  {
    var run := RunStages(ActiveStages(a, done), img, apply);
    && st.step == |ActiveStages(a, done)| <= total
    && (st.failed <==> run.None?)
    && (!st.failed ==> run == Some(st.data))
    && ProgressLog(st.msgs, taskId, Percent(st.step, total))
    && (!st.failed && st.step > 0 ==>
          |st.msgs| > 0 && st.msgs[|st.msgs| - 1] == Progress(taskId, Percent(st.step, total)))
  }

  /** A stage that is not active changes nothing. */
  lemma SkipInactive(st: RunState, s: Stage, a: Adjustments, done: seq<Stage>, total: nat,
                     taskId: nat, img: Image, apply: (Stage, Image) -> Option<Image>)
    requires total >= 1 && !Active(a, s)
    requires RunInvariant(st, a, done, total, taskId, img, apply)
    ensures RunInvariant(st, a, done + [s], total, taskId, img, apply)
  {
    ExtendRun(a, done, s, img, apply);
  }

  /** The messages before an active stage runs: a stage outside the basic
      group announces itself at the current step, unless the run has
      already thrown. */
  function Announce(st: RunState, s: Stage, total: nat, taskId: nat): seq<WorkerMessage>
    requires total >= 1
  {
    if !st.failed && !IsBasic(s) then st.msgs + [Progress(taskId, Percent(st.step, total))] else st.msgs
  }

  lemma AnnounceKeepsLog(st: RunState, s: Stage, total: nat, taskId: nat)
    requires total >= 1 && st.step <= total
    requires ProgressLog(st.msgs, taskId, Percent(st.step, total))
    ensures ProgressLog(Announce(st, s, total, taskId), taskId, Percent(st.step, total))
  {
    if !st.failed && !IsBasic(s) {
      PercentBounds(st.step, total);
      ProgressLogAppend(st.msgs, taskId, Percent(st.step, total), Percent(st.step, total));
    }
  }

  /** An active stage after a throw, or one that throws, counts its step
      and posts nothing more. */
  lemma CountThrownStage(st: RunState, s: Stage, a: Adjustments, done: seq<Stage>, total: nat,
                         taskId: nat, img: Image, apply: (Stage, Image) -> Option<Image>)
    requires total >= 1 && Active(a, s) && |ActiveStages(a, done + [s])| <= total
    requires RunInvariant(st, a, done, total, taskId, img, apply)
    requires st.failed || apply(s, st.data).None?
    ensures RunInvariant(RunState(st.step + 1, st.data, true, Announce(st, s, total, taskId)),
                         a, done + [s], total, taskId, img, apply)
  {
    ExtendRun(a, done, s, img, apply);
    AnnounceKeepsLog(st, s, total, taskId);
    PercentMonotone(st.step, st.step + 1, total);
  }

  /** An active stage that succeeds counts its step and reports it. */
  lemma CountAppliedStage(st: RunState, s: Stage, a: Adjustments, done: seq<Stage>, total: nat,
                          taskId: nat, img: Image, apply: (Stage, Image) -> Option<Image>)
    requires total >= 1 && Active(a, s) && |ActiveStages(a, done + [s])| <= total
    requires RunInvariant(st, a, done, total, taskId, img, apply)
    requires !st.failed && apply(s, st.data).Some?
    ensures RunInvariant(RunState(st.step + 1, apply(s, st.data).value, false,
                                  Announce(st, s, total, taskId) + [Progress(taskId, Percent(st.step + 1, total))]),
                         a, done + [s], total, taskId, img, apply)
  {
    ExtendRun(a, done, s, img, apply);
    AnnounceKeepsLog(st, s, total, taskId);
    PercentMonotone(st.step, st.step + 1, total);
    PercentBounds(st.step, total);
    ProgressLogAppend(Announce(st, s, total, taskId), taskId, Percent(st.step, total), Percent(st.step + 1, total));
  }

  /** One stage of `processImage`: an active stage outside the basic group
      announces itself, every active stage applies its operator and reports
      the new step, and after a throw nothing more runs. */
  method AdvanceStage(st: RunState, s: Stage, a: Adjustments, done: seq<Stage>, total: nat,
                      taskId: nat, img: Image, apply: (Stage, Image) -> Option<Image>)
    returns (next: RunState)
    requires total >= 1 && |ActiveStages(a, done + [s])| <= total
    requires RunInvariant(st, a, done, total, taskId, img, apply)
    ensures RunInvariant(next, a, done + [s], total, taskId, img, apply)
  {
    if !Active(a, s) {
      SkipInactive(st, s, a, done, total, taskId, img, apply);
      return st;
    }
    var msgs := Announce(st, s, total, taskId);
    if st.failed || apply(s, st.data).None? {
      CountThrownStage(st, s, a, done, total, taskId, img, apply);
      next := RunState(st.step + 1, st.data, true, msgs);
    } else {
      CountAppliedStage(st, s, a, done, total, taskId, img, apply);
      next := RunState(st.step + 1, apply(s, st.data).value, false,
                       msgs + [Progress(taskId, Percent(st.step + 1, total))]);
    }
  }

  /** The stage loop of `processImage`, over a stage order. */
  method RunStageOrder(st0: RunState, a: Adjustments, order: seq<Stage>, total: nat, taskId: nat,
                       img: Image, apply: (Stage, Image) -> Option<Image>)
    returns (st: RunState)
    requires total >= 1 && |ActiveStages(a, order)| <= total
    requires RunInvariant(st0, a, [], total, taskId, img, apply)
    ensures RunInvariant(st, a, order, total, taskId, img, apply)
  {
    st := st0;
    var i := 0;
    while i < |order|
      invariant 0 <= i <= |order|
      invariant RunInvariant(st, a, order[..i], total, taskId, img, apply)
    {
      var s := order[i];
      ActiveStagesMonotone(a, order, i + 1);
      assert order[..i + 1] == order[..i] + [s];
      st := AdvanceStage(st, s, a, order[..i], total, taskId, img, apply);
      i := i + 1;
    }
    assert order[..i] == order;
  }

  /** The messages after the stage loop: its log and one terminal
      message. */
  function Finish(st: RunState, taskId: nat): seq<WorkerMessage>
  {
    st.msgs + [if st.failed then Failed(taskId) else Complete(taskId, st.data)]
  }

  /** After the whole stage order, the log ends in one terminal message that
      reports the run; a successful run with at least one step reports 100
      just before it. */
  lemma FinishRun(st: RunState, a: Adjustments, total: nat, taskId: nat, img: Image,
                  apply: (Stage, Image) -> Option<Image>)
    requires total == TotalSteps(a)
    requires RunInvariant(st, a, StageOrder, total, taskId, img, apply)
    ensures var msgs := Finish(st, taskId);
            var run := RunStages(ActiveStages(a, StageOrder), img, apply);
            && Terminal(msgs[|msgs| - 1])
            && (forall k :: 0 <= k < |msgs| - 1 ==> msgs[k].Progress?)
            && (forall k :: 0 <= k < |msgs| ==> msgs[k].taskId == taskId)
            && (forall k :: 0 <= k < |msgs| && msgs[k].Progress? ==> 0 <= msgs[k].percent <= 100)
            && ProgressNonDecreasing(msgs)
            && (msgs[|msgs| - 1] == Failed(taskId) <==> run.None?)
            && (run.Some? ==> msgs[|msgs| - 1] == Complete(taskId, run.value))
            && (run.Some? && |ActiveStages(a, StageOrder)| > 0 ==>
                  |msgs| >= 2 && msgs[|msgs| - 2] == Progress(taskId, 100))
  {
    PercentBounds(st.step, total);
    var msgs := Finish(st, taskId);
    assert msgs[..|msgs| - 1] == st.msgs;
    forall i, j | 0 <= i < j < |msgs| && msgs[i].Progress? && msgs[j].Progress?
      ensures msgs[i].percent <= msgs[j].percent
    {
      assert msgs[i] == st.msgs[i] && msgs[j] == st.msgs[j];
    }
  }

  /** `processImage` for one task. Without an initialised module it throws
      before posting anything; otherwise it posts progress for each active
      stage in order and then exactly one terminal message: the result of
      the whole run, or a failure if a stage threw. Each stage's call goes
      to the module through `invoke`. */
  method ProcessImage(img: Image, a: Adjustments, taskId: nat, initialised: bool,
                      invoke: (Call, Image) -> Option<Image>)
    returns (threw: bool, msgs: seq<WorkerMessage>)
    ensures threw <==> !initialised
    ensures threw ==> msgs == []
    ensures !threw ==> |msgs| >= 1 && Terminal(msgs[|msgs| - 1])
    ensures forall k :: 0 <= k < |msgs| - 1 ==> msgs[k].Progress?
    ensures forall k :: 0 <= k < |msgs| ==> msgs[k].taskId == taskId
    ensures forall k :: 0 <= k < |msgs| && msgs[k].Progress? ==> 0 <= msgs[k].percent <= 100
    ensures ProgressNonDecreasing(msgs)
    ensures !threw ==>
              var run := RunStages(ActiveStages(a, StageOrder), img, Bind(a, invoke));
              && (msgs[|msgs| - 1] == Failed(taskId) <==> run.None?)
              && (run.Some? ==> msgs[|msgs| - 1] == Complete(taskId, run.value))
              && (run.Some? && |ActiveStages(a, StageOrder)| > 0 ==>
                    |msgs| >= 2 && msgs[|msgs| - 2] == Progress(taskId, 100))
  {
    if !initialised {
      return true, [];
    }
    threw := false;
    var apply := Bind(a, invoke);
    var total := CalculateTotalSteps(a);
    var st := RunState(0, img, false, []);
    if NeedsBasic(a) {
      PercentBounds(0, total);
      ProgressLogAppend([], taskId, 0, Percent(0, total));
      st := st.(msgs := [Progress(taskId, Percent(0, total))]);
    }
    assert total == TotalSteps(a);
    st := RunStageOrder(st, a, StageOrder, total, taskId, img, apply);
    FinishRun(st, a, total, taskId, img, apply);
    msgs := Finish(st, taskId);
  }

  /** No prefix of a stage order has more active stages than the whole. */
  lemma {:induction false} ActiveStagesMonotone(a: Adjustments, ss: seq<Stage>, n: nat)
    requires n <= |ss|
    ensures |ActiveStages(a, ss[..n])| <= |ActiveStages(a, ss)|
    decreases |ss|
  {
    if n < |ss| {
      var shorter := ss[..|ss| - 1];
      assert ss[..n] == shorter[..n];
      ActiveStagesMonotone(a, shorter, n);
    } else {
      assert ss[..n] == ss;
    }
  }
}
