# Image editor core, modelled in Dafny

The application is a browser image editor. Its raster operators are written in
Rust and compiled to WebAssembly. A Web Worker (`imageWorker.js`) queues
processing requests. For each request it runs the switched-on operators in a
fixed order, reports progress, and posts one terminal message. A React hook
(`useImageWorker`) keeps only the newest request's messages and resolves that
request's promise. The main page (`App.tsx`) holds the editor state in a
reducer and re-renders the processed image through `applyChanges`.

The model has twelve modules:

- `Numeric`: f32 arithmetic as `real`. It covers Rust's saturating `as u8`
  cast, `f32::round`, JavaScript's `Math.round`, truncation, and Rust's
  truncated `%`.
- `Raster`: RGB images as rows of pixels, plus the per-pixel map.
- `Color`: brightness, contrast and saturation (thin wrappers around the
  image library), white balance, hue rotation in HSV, and vibrance.
- `Tone`: levels, curves, highlights, shadows and exposure.
- `Filters`: sharpen and emboss (3x3 convolutions), sepia, and the guards
  around blur, vignette and noise reduction.
- `Transforms`: quarter turns, flips, crop, resize, and arbitrary-angle
  rotation with snapping to quarter turns.
- `Histogram`: `calculate_histogram` and histogram equalisation.
- `Pipeline`: one task of the worker. It covers which stages run, the step
  count, the progress percentages and the terminal message.
- `Stages`: the worker's operator table. It hands each stage's call to the
  operator it names, converting JavaScript numbers to `i32` and `u8` where
  the operator asks for them.
- `Queue`: the worker's message handler and task queue, as a state machine.
- `Hook`: the page-side task-id filter and promise resolution, as a state
  machine.
- `App`: the reducer, and the operator chain of `applyChanges`.

Library routines whose arithmetic is not part of the repository are function
parameters. These are the image crate's `brighten`, `adjust_contrast`,
`huerotate`, blur, Lanczos resize and the trigonometry of a general rotation.
`powf`, `2^x` and the bilateral and vignette falloff bodies are parameters
too. So is the page's object-URL factory. `Pipeline` and `Queue` take the
module as a parameter that receives each stage's call with its arguments
resolved; `Stages` interprets those calls with the modelled operators. Lemmas that need facts about these parameters state them
as preconditions, for example `PowLaws`: powers of [0, 1] stay in [0, 1] and
grow with the base.

## Model

| member | source | states |
|---|---|---|
| Numeric.AsU8 | crates/image-app/src/lib.rs:496-498 | Rust's `as u8` saturates. Below 0 it gives 0, at 255 and above it gives 255, and in between it gives the floor. |
| Numeric.RoundHalfAway | crates/image-app/src/lib.rs:876-878 | `f32::round` lands within one half of its argument. |
| Numeric.JsRound | public/imageWorker.js:257-258 | `Math.round` lands in (x − ½, x + ½]. |
| Numeric.Trunc | crates/image-app/src/transforms/mod.rs:135-146 | Truncation toward zero, the quotient behind Rust's float `%`, lies within one unit of x, on the side of zero. |
| Numeric.CastI32 | crates/image-app/src/lib.rs:48 | Rust's float `as i32` truncates toward zero inside the 32-bit range and saturates to 2147483647 or −2147483648 outside it, instead of wrapping. |
| Numeric.CastI32Monotone | crates/image-app/src/lib.rs:48 | The saturating `as i32` preserves order, so a larger saturation value never rotates by fewer degrees. |
| Numeric.FRem | crates/image-app/src/transforms/mod.rs:135-146 | Rust's f32 `%` keeps the sign of the dividend, stays below the divisor in magnitude, and leaves arguments inside one period unchanged. |
| Numeric.TruncatedRemainderBounds | crates/image-app/src/transforms/mod.rs:135-146 | x − y·trunc(x/y) has the sign and range of a truncated remainder. |
| Raster.MapPixels | crates/image-app/src/adjustments/mod.rs:74-99 | A per-pixel operator keeps the image's size and changes each pixel only through the pixel itself. |
| Raster.MapPixelsIdentity | crates/image-app/src/adjustments/mod.rs:74-99 | A per-pixel map that fixes every pixel of an image leaves the image unchanged. |
| Raster.PixelCount | crates/image-app/src/lib.rs:833-834 | The flattened pixel list has width × height entries. |
| Color.AdjustSaturation | crates/image-app/src/lib.rs:44-48 | "Saturation" is a hue rotation by the value truncated toward zero, so values in (−1, 1) rotate by 0 degrees. Values at or beyond ±2^31 rotate by the saturated `i32` bound. |
| Color.AdjustWhiteBalance | crates/image-app/src/adjustments/mod.rs:59-105 | A temperature of 0 returns the input. Any other value keeps the size and transforms each pixel by value/100 alone. |
| Color.ShiftChannelIsIntegerShift | crates/image-app/src/adjustments/mod.rs:79-98 | Each channel shift is an integer offset (floored) saturated to a byte. |
| Color.ShiftChannelDirection | crates/image-app/src/adjustments/mod.rs:79-98 | A non-negative offset never darkens a channel, and a non-positive one never brightens it. |
| Color.WhiteBalanceDirection | crates/image-app/src/adjustments/mod.rs:79-98 | Warming never lowers red or green and never raises blue. Cooling does the opposite. |
| Color.FullWarmth | crates/image-app/src/adjustments/mod.rs:79-85 | At +100 the offsets are exactly +50 red, +20 green and −40 blue, saturated. |
| Color.AdjustHue | crates/image-app/src/adjustments/mod.rs:118-197 | A shift of 0 returns the input. Any other shift keeps the size and rotates every pixel by the same normalised shift. |
| Color.NormalizeShift | crates/image-app/src/adjustments/mod.rs:132 | The normalised shift lies in [0, 360). |
| Color.NormalizeShiftWithinOneTurn | crates/image-app/src/adjustments/mod.rs:132 | Within one turn, a non-negative shift is kept and a negative one gains 360. |
| Color.HueKeepsGray | crates/image-app/src/adjustments/mod.rs:134-190 | A grey pixel comes out of the HSV round trip unchanged, whatever the shift. |
| Color.HsvToRgbOfGray | crates/image-app/src/adjustments/mod.rs:159-186 | Saturation 0 at value v/255 converts back to the grey (v, v, v). |
| Color.AdjustVibrance | crates/image-app/src/lib.rs:507-606 | Amount 0 returns the input. Pixels the operator skips (black, or with max − min ≤ 0.01) are unchanged, and all others use the amount/100 factor. |
| Color.SaturationBounds | crates/image-app/src/lib.rs:529-536 | The HSV saturation of a non-black pixel lies in [0, 1]. |
| Color.ProtectionBounds | crates/image-app/src/lib.rs:540-548 | The skin-tone and saturation protection weight lies in [0, 1]. |
| Color.SaturationStepDirection | crates/image-app/src/lib.rs:572 | A positive adjustment never lowers saturation, and a negative one never raises it. |
| Color.VibranceDirection | crates/image-app/src/lib.rs:547-572 | A positive vibrance never lowers saturation, and a negative one never raises it. |
| Tone.LevelInput | crates/image-app/src/lib.rs:1063-1072 | The normalised input of a levels entry lies in [0, 1]. |
| Tone.ClampGamma | crates/image-app/src/lib.rs:1059 | Gamma is clamped into [0.1, 3.0]. |
| Tone.AdjustLevels | crates/image-app/src/lib.rs:1034-1097 | black ≥ white returns the input unchanged, and so do the neutral settings (0, 255, 1.0). Otherwise every channel of every pixel goes through one shared table. |
| Tone.LevelsLutShape | crates/image-app/src/lib.rs:1062-1085 | Inputs at or below the black point map to 0, inputs at or above the white point map to 255, and the table never decreases. |
| Tone.LevelInputMonotone | crates/image-app/src/lib.rs:1063-1072 | The normalised input grows with the entry index. |
| Tone.LevelsEntryMonotone | crates/image-app/src/lib.rs:1062-1085 | Table entries grow with the index, for any gamma. |
| Tone.LevelsNeutralTableIsIdentity | crates/image-app/src/lib.rs:1044-1085 | With (0, 255, 1.0) the table is the identity, so the early return agrees with the general path. |
| Tone.AdjustCurves | crates/image-app/src/lib.rs:988-1031 | Three unit gammas return the input. Otherwise each channel goes through its own gamma curve. |
| Tone.CurveLutShape | crates/image-app/src/lib.rs:1007-1019 | A gamma curve fixes 0 and 255 and never decreases. |
| Tone.CurveUnitGammaIsIdentity | crates/image-app/src/lib.rs:1007-1019 | A unit gamma gives the identity table. |
| Tone.CurvesChannelsIndependent | crates/image-app/src/lib.rs:1021-1026 | Two pixels that agree on a channel still agree on it after curves: a channel's output depends only on that channel. |
| Tone.AdjustHighlights | crates/image-app/src/lib.rs:894-938 | Amount 0 returns the input. Pixels with luminance ≤ 0.7 are untouched, and all others use the amount/100 factor. |
| Tone.AdjustShadows | crates/image-app/src/lib.rs:941-985 | Amount 0 returns the input. Pixels with luminance ≥ 0.3 are untouched, and all others use the amount/100 factor. |
| Tone.WriteBackDirection | crates/image-app/src/lib.rs:929-931 | Writing a normalised value back as `(x*255) as u8` preserves the order against the original byte. |
| Tone.LiftChannelDirection | crates/image-app/src/lib.rs:925-931 | A positive highlight lift never darkens a channel, and a negative one never brightens it. |
| Tone.ScaleChannelDirection | crates/image-app/src/lib.rs:972-978 | A positive shadow scale never darkens a channel, and a negative one never brightens it. |
| Tone.AdjustSign | crates/image-app/src/lib.rs:915-923 | The mask-weighted adjustment has the sign of the factor. |
| Tone.HighlightsDirection | crates/image-app/src/lib.rs:909-932 | A positive highlights amount brightens every channel or leaves it, and a negative amount darkens or leaves it. |
| Tone.ShadowsDirection | crates/image-app/src/lib.rs:956-979 | A positive shadows amount brightens every channel or leaves it, and a negative amount darkens or leaves it. |
| Tone.AdjustExposure | crates/image-app/src/lib.rs:469-504 | Zero stops returns the input. Otherwise all three channels of every pixel use one multiplier 2^stops. |
| Tone.ExposeChannelDirection | crates/image-app/src/lib.rs:486-498 | A multiplier ≥ 1 never darkens a channel, and one in [0, 1] never brightens it. |
| Filters.ConvolveFlat | crates/image-app/src/filters/mod.rs:60-86 | On a flat neighbourhood a convolution returns the kernel's weight sum times the colour. |
| Filters.SharpenKernel | crates/image-app/src/filters/mod.rs:51-55 | The sharpen kernel's weights sum to 1 for every amount. |
| Filters.Sharpen | crates/image-app/src/filters/mod.rs:36-101 | A non-positive amount returns the input. Border pixels are always copied, and interior pixels are the clamped kernel response. |
| Filters.FilteredFlat | crates/image-app/src/filters/mod.rs:60-86 | A weight-1 kernel plus a bias on a flat neighbourhood gives the colour shifted by the bias, clamped. |
| Filters.SharpenFlat | crates/image-app/src/filters/mod.rs:60-86 | Sharpening leaves a pixel with a flat neighbourhood unchanged. |
| Filters.SharpenUniform | crates/image-app/src/filters/mod.rs:36-101 | Sharpening a single-colour image returns it unchanged. |
| Filters.Emboss | crates/image-app/src/filters/mod.rs:165-229 | Border pixels become mid-grey (128), and interior pixels are the kernel response plus a bias of 128. |
| Filters.BiasSaturates | crates/image-app/src/filters/mod.rs:207 | Adding the 128 bias to a byte saturates at 255. |
| Filters.EmbossFlat | crates/image-app/src/filters/mod.rs:185-214 | A flat neighbourhood embosses to its colour plus 128, saturated. |
| Filters.Sepia | crates/image-app/src/filters/mod.rs:129-155 | Every pixel is replaced by the sepia matrix applied to it alone. |
| Filters.SepiaWarmOrder | crates/image-app/src/filters/mod.rs:142-148 | Sepia output always has red ≥ green ≥ blue. |
| Filters.SepiaMonotone | crates/image-app/src/filters/mod.rs:142-148 | A brighter input pixel, channel by channel, gives a brighter sepia pixel. |
| Filters.SepiaExtremes | crates/image-app/src/filters/mod.rs:142-148 | Black stays black, and white becomes (255, 255, 238). |
| Filters.GaussianBlur | crates/image-app/src/filters/mod.rs:13-25 | A non-positive sigma returns the input, whatever the blur routine does. |
| Filters.Vignette | crates/image-app/src/lib.rs:609-616 | Strength 0 returns the input, whatever the falloff does. |
| Filters.ReduceNoise | crates/image-app/src/lib.rs:672-679 | A non-positive strength returns the input, whatever the filter does. |
| Transforms.Rotate90 | crates/image-app/src/transforms/mod.rs:14-27 | A quarter turn clockwise swaps the dimensions and moves each pixel to its rotated position. |
| Transforms.Rotate180 | crates/image-app/src/transforms/mod.rs:14-27 | A half turn keeps the size and reverses both axes. |
| Transforms.Rotate270 | crates/image-app/src/transforms/mod.rs:14-27 | Three quarter turns swap the dimensions, with the inverse index map. |
| Transforms.FlipHorizontal | crates/image-app/src/transforms/mod.rs:37-45 | A horizontal flip mirrors every row. |
| Transforms.FlipVertical | crates/image-app/src/transforms/mod.rs:55-63 | A vertical flip mirrors the row order. |
| Transforms.QuarterTurnsCancel | crates/image-app/src/transforms/mod.rs:14-27 | 90 then 270 degrees, in either order, is the identity. |
| Transforms.TwoQuarterTurns | crates/image-app/src/transforms/mod.rs:14-27 | Two quarter turns in the same direction make a half turn. |
| Transforms.HalfTurnIsBothFlips | crates/image-app/src/transforms/mod.rs:14-63 | A half turn equals both flips in either order, and it undoes itself. |
| Transforms.FlipsAreInvolutions | crates/image-app/src/transforms/mod.rs:37-63 | Each flip undoes itself. |
| Transforms.FullTurn | crates/image-app/src/transforms/mod.rs:14-27 | Four quarter turns return the image. |
| Transforms.Rotate | crates/image-app/src/transforms/mod.rs:14-27 | Angles other than 90, 180 and 270 return the input. 90 and 270 swap the dimensions, and 180 keeps them. |
| Transforms.RotateInverse | crates/image-app/src/transforms/mod.rs:14-27 | `rotate` by 90 and by 270 are inverse to each other. |
| Transforms.Crop | crates/image-app/src/transforms/mod.rs:102-115 | An out-of-bounds region returns the input. Otherwise the result has the requested size and copies the region. |
| Transforms.CropWhole | crates/image-app/src/transforms/mod.rs:102-115 | Cropping the whole image returns it. |
| Transforms.CropOfCrop | crates/image-app/src/transforms/mod.rs:102-115 | A crop of a crop is the single crop at the summed offset. |
| Transforms.Resize | crates/image-app/src/transforms/mod.rs:75-88 | A zero width or height returns the input, whatever the resampler does. |
| Transforms.ResampleRotated | crates/image-app/src/transforms/mod.rs:147-190 | The general rotation copies each output pixel from its source when that lies inside the input, and fills it with white otherwise. |
| Transforms.RotateArbitrary | crates/image-app/src/transforms/mod.rs:126-196 | Angles near 0, 90, 180 and 270 (within 0.1, after the truncated remainder) take the exact paths. All others take the general path. |
| Transforms.SnapExamples | crates/image-app/src/transforms/mod.rs:135-146 | 360 and 450 snap, and so does −360. −90, −180 and −270 do not snap, because the remainder keeps their sign. |
| Transforms.SnapOfPrincipalAngle | crates/image-app/src/transforms/mod.rs:135-146 | For angles in [0, 360), each snap happens exactly when the angle lies within 0.1 of its quarter turn. |
| Histogram.CalculateHistogram | crates/image-app/src/lib.rs:1100-1139 | The result has 768 buckets. Bucket c·256 + v counts the pixels whose channel c equals v, and each channel's block sums to the pixel count. |
| Histogram.BlockSum | crates/image-app/src/lib.rs:841-845 | One channel's histogram sums to the number of pixels. |
| Histogram.EqualizationLut | crates/image-app/src/lib.rs:870-879 | The table has 256 entries, and an empty image gives the all-zero table (NaN cast to u8). |
| Histogram.CdfIsPrefixShare | crates/image-app/src/lib.rs:852-856 | The running CDF at i is the share of pixels whose value is ≤ i. |
| Histogram.CdfMonotone | crates/image-app/src/lib.rs:852-856 | The CDF never decreases. |
| Histogram.EqualizationLutMonotone | crates/image-app/src/lib.rs:852-879 | The equalisation table never decreases. |
| Histogram.EqualizationLutTop | crates/image-app/src/lib.rs:852-879 | For a non-empty image, the brightest value maps to 255. |
| Histogram.HistogramEqualization | crates/image-app/src/lib.rs:827-891 | Each channel of each pixel goes through its own channel's table, built from that channel's histogram. |
| Histogram.EqualizationPreservesOrder | crates/image-app/src/lib.rs:827-891 | If one pixel is no brighter than another in a channel, that stays true after equalisation. |
| Histogram.ConstantChannelLut | crates/image-app/src/lib.rs:841-879 | A channel with a single value maps that value to 255. |
| Histogram.UniformEqualizesToWhite | crates/image-app/src/lib.rs:827-891 | A single-colour non-empty image equalises to all white. |
| Pipeline.CurvesSkippedIffNeutralCall | public/imageWorker.js:133-140 | The curve stage is skipped exactly when its call, each gamma passed through `\|\| 1.0`, would pass three gammas of 1.0. |
| Pipeline.LevelsSkippedIffNeutralCall | public/imageWorker.js:146-153 | The levels stage is skipped exactly when its call, through `\|\| 0`, `\|\| 255` and `\|\| 1.0`, would pass the neutral setting (0, 255, 1.0). |
| Pipeline.FilterCallsCarrySettings | public/imageWorker.js:160-190 | An active blur, sharpen, vignette or noise stage passes its own setting, which is positive. |
| Pipeline.ActiveStagesMembers | public/imageWorker.js:55-193 | A stage runs exactly when it is in the fixed order and its switch is on. |
| Pipeline.CalculateTotalSteps | public/imageWorker.js:216-236 | The step count is the number of switched-on stages, but never less than 1. |
| Pipeline.PercentBounds | public/imageWorker.js:257-265 | Reported percentages lie in [0, 100], and the last step reports 100. |
| Pipeline.PercentMonotone | public/imageWorker.js:257-265 | A later step never reports a smaller percentage. |
| Pipeline.ExtendRun | public/imageWorker.js:92-193 | Adding one stage to the run either skips it or feeds the previous result into it. A thrown error stops the run. |
| Pipeline.AdvanceStage | public/imageWorker.js:55-193 | One stage keeps the run invariant. The step count stays equal to the stages seen, the data equals the staged result, and the progress log stays bounded and non-decreasing. |
| Pipeline.RunStageOrder | public/imageWorker.js:55-193 | Running the whole order leaves the data equal to the composed stages, or marks the run as failed if a stage threw. |
| Pipeline.FinishRun | public/imageWorker.js:195-210 | After the stage loop the log ends in one terminal message for the run. A successful run with at least one stage reports 100 just before it. |
| Pipeline.ProcessImage | public/imageWorker.js:44-211 | Before the module is initialised, the task throws and posts nothing. Otherwise it posts progress messages for its own task id, with non-decreasing percentages in [0, 100], then exactly one terminal message: complete with the composed result, or an error if any stage threw. When at least one stage ran and none threw, the last progress message before completion reports 100. |
| Stages.SkippedStageIsNeutral | public/imageWorker.js:63-190 | Skipping a stage is sound: the call of a skipped stage would return the raster unchanged. The exception is a negative vignette strength, which is skipped although the falloff would still be applied. |
| Stages.SkippedCurvesKeepImage | crates/image-app/src/lib.rs:991-994 | With curve settings the worker skips, its call with the `\|\| 1.0` defaults returns the input. |
| Stages.SkippedLevelsKeepImage | crates/image-app/src/lib.rs:1044-1047 | With level settings the worker skips, its call with the `\|\| 0`, `\|\| 255` and `\|\| 1.0` defaults returns the input. |
| Pipeline.ActiveStagesMonotone | public/imageWorker.js:216-236 | A prefix of the order has no more active stages than the whole. |
| Queue.FindTask | public/imageWorker.js:302 | `findIndex` returns −1 exactly when no queued task has the id, and otherwise the first index that has it. |
| Queue.RemoveAt | public/imageWorker.js:304 | `splice(i, 1)` removes exactly position i and keeps the order of the rest. |
| Queue.WithoutMembers | public/imageWorker.js:302-305 | The reference filter keeps exactly the tasks with other ids. |
| Queue.RemoveFirstIsWithout | public/imageWorker.js:302-305 | With distinct ids, removing the first match is the same as filtering the id out. |
| Queue.Resubmit | public/imageWorker.js:299-308 | A request goes to the back of the queue. The queue grows only when its id was not already queued. |
| Queue.ResubmitReplaces | public/imageWorker.js:299-308 | A resubmitted id replaces its queued copy, and ids stay distinct. |
| Queue.CancelQueued | public/imageWorker.js:314-324 | Cancelling reports success exactly when the id was queued. Otherwise the queue is unchanged. |
| Queue.CancelRemovesTask | public/imageWorker.js:314-324 | A cancel filters the id out of the queue. |
| Queue.Outcome | public/imageWorker.js:196-210 | A drained task is answered by one terminal message with its own id, which is a completion exactly when no stage threw. |
| Queue.DrainStep | public/imageWorker.js:274-285 | A drain step takes the head of the queue, and an idle worker does nothing. |
| Queue.HandleKeepsIdsDistinct | public/imageWorker.js:290-329 | No message makes two queued tasks share an id. |
| Queue.CancelAcknowledges | public/imageWorker.js:314-324 | TASK_CANCELLED is posted exactly when the id was queued. Otherwise nothing changes, and a cancel never touches the processing flags. |
| Queue.NoSecondDrain | public/imageWorker.js:275 | A request that arrives while the queue is draining is only enqueued. |
| Queue.RequestStartsDrain | public/imageWorker.js:274-282 | A request to an idle, initialised worker starts a drain and answers the head of the queue. |
| Queue.EarlyRequestWedges | public/imageWorker.js:45-47 | A request before initialisation leaves the worker marked busy with nothing draining, and nothing is posted. |
| Queue.WedgeIsPermanent | public/imageWorker.js:274-285 | A wedged worker stays wedged and never answers, whatever message comes next. |
| Queue.WedgedWorkerNeverAnswers | public/imageWorker.js:274-285 | After a wedge, no sequence of messages gets any task answered. |
| Queue.RequestBeforeInitSilencesWorker | public/imageWorker.js:44-47 | A request sent before INITIALIZE_WASM silences the worker for good, even after initialisation succeeds. |
| Queue.HandleKeepsConsistent | public/imageWorker.js:274-285 | In the corrected worker, which reports the not-initialised failure as PROCESSING_ERROR, the busy flag and the drain loop always agree. |
| Queue.DrainStepAnswersHead | public/imageWorker.js:279-281 | Every drain step answers the head task: in the corrected worker whether or not the module is initialised, and in the code as written once it is. |
| Queue.DrainAnswersInOrder | public/imageWorker.js:274-285 | A drain answers every queued task exactly once, in FIFO order, then empties the queue and clears the busy flag. This holds in the corrected worker from any state, and in the code as written once the module is initialised. |
| Hook.Mounted | src/hooks/useImageWorker.ts:47-54 | A fresh hook is neither ready nor tracking a task. |
| Hook.Cleared | src/hooks/useImageWorker.ts:112-114 | Finishing a task drops the id and both callbacks and keeps the readiness flags. |
| Hook.ErrorKeepsPendingRequest | src/hooks/useImageWorker.ts:80-155 | The WASM_INITIALIZATION_ERROR case (lines 80-88) and `worker.onerror` (lines 147-155) call the held resolver once with their own failure reason, call nothing when none is held, and change no state: the task id and the resolver stay in place. |
| Hook.ReceiveKeepsTracking | src/hooks/useImageWorker.ts:64-145 | No worker message leaves a callback without a current task id. |
| Hook.SubmitKeepsTracking | src/hooks/useImageWorker.ts:177-217 | Submitting never leaves a callback without a current task id. |
| Hook.StaleMessageIgnored | src/hooks/useImageWorker.ts:90-140 | A message for any id other than the current one changes nothing and calls nothing. |
| Hook.CompletionResolvesOnce | src/hooks/useImageWorker.ts:103-116 | Completion of the current task resolves its promise once, with the data, and clears the tracking. |
| Hook.FailureResolvesOnce | src/hooks/useImageWorker.ts:118-131 | An error for the current task resolves its promise once, with a failure, and clears the tracking. |
| Hook.CancellationIsSilent | src/hooks/useImageWorker.ts:133-140 | Cancellation of the current task clears the tracking without resolving the promise. |
| Hook.ProgressReachesOwner | src/hooks/useImageWorker.ts:90-101 | Progress for the current task is recorded and reported only to that task's callback. |
| Hook.NotReadyFailsAtOnce | src/hooks/useImageWorker.ts:183-189 | With no worker or no module, the request fails at once and nothing changes. |
| Hook.SupersedeCancelsFirst | src/hooks/useImageWorker.ts:191-215 | A new request first cancels the current task, then posts itself. From then on, the old task's messages are ignored. |
| Hook.ReadinessHandshake | src/hooks/useImageWorker.ts:68-78 | WORKER_READY posts INITIALIZE_WASM, and readiness follows a successful WASM_INITIALIZED. |
| Hook.ForgottenRequestStaysSilent | src/hooks/useImageWorker.ts:64-217 | A request the hook no longer holds is never resolved or reported, whatever happens afterwards. |
| Hook.SupersededResolverNeverCalled | src/hooks/useImageWorker.ts:204 | A superseded request's promise is never settled: overwriting its resolver loses it for good. |
| App.WithParam | src/App.tsx:38-39 | Setting one parameter changes exactly that parameter. |
| App.SetImageStartsOver | src/App.tsx:36-37 | Loading an image forgets all earlier state. The parameters go back to zero and the original becomes the displayed image. |
| App.SetParamChangesOnlyKey | src/App.tsx:38-39 | SET_PARAM changes one parameter and nothing else. |
| App.SetParamOrder | src/App.tsx:38-39 | Updates to different keys commute, and a later update to the same key wins. |
| App.LoadingFlag | src/App.tsx:40-43 | START_LOADING only raises the flag. SET_PROCESSED_IMAGE lowers it and replaces the displayed URL. |
| App.ResetParamsRestoresZero | src/App.tsx:44-47 | RESET_PARAMS zeroes every parameter and undoes any SET_PARAM. An unknown action changes nothing. |
| App.AlwaysDisplayable | src/App.tsx:34-49 | Once an image is loaded, some URL is always displayed, after any sequence of actions. |
| Numeric.ToInt32 | src/App.tsx:86 | A number passed to an `i32` parameter lands in the i32 range, and equals its truncation when that is in range. |
| Numeric.ToUint8 | crates/image-app/src/lib.rs:1034 | A number passed to a `u8` parameter lands in [0, 255], and equals its truncation when it lies in [0, 256). |
| App.ApplyOperators | src/App.tsx:85-89 | The chain of operators returns a well-formed image. |
| App.ZeroParamsKeepImage | src/App.tsx:85-89 | With all parameters 0, the chain returns the original image. |
| App.SmallSaturationIgnored | src/App.tsx:88 | A saturation slider in (−10, 10) has no effect, because ×0.1 and truncation give a 0-degree rotation. |
| App.WhiteBalanceRunsLast | src/App.tsx:89 | The temperature is applied last, pixel by pixel, to the result of the other three operators. |
| App.ApplyChangesIsStable | src/App.tsx:80-94 | Applying changes lowers the loading flag and displays the processed original, keeping the image and parameters. Applying again hands the URL factory the same processed image, and again ends with the flag lowered and the image and parameters unchanged. |
| App.ApplyChangesNeedsImage | src/App.tsx:81 | Nothing is dispatched exactly when there is no image or the module is not ready. |

## Left out

- Image decoding and encoding (`load_image`, `to_bytes`) and the alpha channel are not modelled. Images are RGB rows. An undecodable input, which makes `load_image` panic, is excluded by requiring a well-formed image.
- f32 rounding is not modelled. All arithmetic is exact over the reals, so a result that f32 would round across an integer boundary may differ by one.
- The image crate's `brighten`, `adjust_contrast`, `huerotate`, Gaussian blur and Lanczos resize are parameters. So are `powf`, `2^x`, the vignette falloff and the bilateral filter (they need square roots and exponentials), and the sine and cosine of a general rotation.
- Filters.GaussianBlur: only the early return is stated. The blur itself is the library's.
- Filters.Vignette: only the early return is stated. The radial falloff is a parameter.
- Filters.ReduceNoise: only the early return is stated. The bilateral filter is a parameter.
- Transforms.Resize: only the early return is stated. Lanczos resampling is a parameter.
- Transforms.ResampleRotated: the output size and source positions come from a `Geometry` parameter, not from sine and cosine.
- `to_grayscale` is not modelled, because it is a single call into the image library.
- `lib.rs` declares no `mod`, so it alone is the built crate. The files under `adjustments/`, `filters/` and `transforms/` are unbuilt duplicates whose functions match `lib.rs` line for line except that they log through `console_log` instead of `log`. Each function is modelled once, and its rows cite whichever copy is shorter. The logging calls are not modelled.
- Transforms.Crop: the bounds test adds `x + width` without the u32 wrap-around that the release build would apply.
- Histogram.CalculateHistogram: counts are unbounded here, while the source's are u32. `width * height` is also taken without u32 wrap-around.
- Brightness and contrast (`Color.AdjustBrightness`, `Color.AdjustContrast`) are only thin calls into the image library, so no contract is stated for them.
- The worker's progress message texts, `yieldToMain`, and the interleaving of other messages between the stages of one task are not modelled. A task runs from start to finish in one step of `Queue`, and only its terminal message is kept there. Its progress messages are modelled in `Pipeline`.
- The `progress: 100` field of PROCESSING_COMPLETE is not modelled. The hook ignores it.
- Loading the module (`import` and `default()` in `initializeWasm`) is a boolean parameter of the INITIALIZE_WASM event, and initialisation is one atomic step.
- Queue.EarlyRequestWedges: only a request before INITIALIZE_WASM is covered. A request that arrives while the module is still loading meets the same throw and wedges the worker the same way, but the loading window is not modelled.
- The conversion of a JavaScript number at the module boundary follows the `i32` and `u8` parameter types (`Numeric.ToInt32`, `Numeric.ToUint8`). The binding glue that performs it is generated code and is not part of this model.
- Task ids are strings built from the clock and a random source. The model takes them as caller-supplied numbers. Lemmas that need a new id to differ from the current one require it.
- The hook's `processImage` callback captures `isWasmInitialized` at render time. The model reads the current flag, so a stale closure is not modelled. Unmounting (`terminate`) and console output are left out.
- `App.tsx`: FileReader, object URLs (the `makeUrl` parameter), the 50 ms timer, the crop widget, `Number(value)` parsing and the `useEffect` that calls `applyChanges` are not modelled. `applyChanges` is modelled as the two actions it dispatches.
- App.ApplyChangesIsStable: object URLs are identified through the image they are made from. `URL.createObjectURL` returns a new URL on every call, so a second application shows a new URL for the same image, and the resulting state is not literally equal to the first.
- App.ApplyOperators: the f32 conversion of `contrast * 0.1` and `saturation * 0.1` is exact here.

## Behaviour that differs from what the names suggest

The model follows the code in each case.

- Equalising a single-colour image makes it white, not unchanged (`Histogram.UniformEqualizesToWhite`).
- Levels with black ≥ white, a crop outside the image, and a resize to a zero dimension return the input rather than an error.
- The page's "saturation" slider rotates hue by trunc(value × 0.1) degrees (`Color.AdjustSaturation`, `App.SmallSaturationIgnored`).
- A superseded task that is already running is not cancelled. It completes, and the hook ignores its messages. CANCEL_TASK only removes queued tasks (`Queue.CancelAcknowledges`, `Hook.SupersedeCancelsFirst`).
- `rotate_arbitrary` does not snap −90, −180 or −270, because Rust's `%` keeps the sign (`Transforms.SnapExamples`).
- The hook's `processImage` checks the worker and `isWasmInitialized`, not `isWorkerReady`.
- The worker skips a negative vignette strength, although `apply_vignette` treats only 0 as neutral and would apply it (`Stages.SkippedStageIsNeutral`).
- WASM_INITIALIZATION_ERROR and `onerror` call the held resolver but do not clear it (`Hook.ErrorKeepsPendingRequest`).

## Findings

| source | as written | input that shows it | evidently intended | confidence | as-written member | corrected member |
|---|---|---|---|---|---|---|
| public/imageWorker.js:45-47, 274-285 | `processImage` throws "not initialized" before its `try`. `processQueue` awaits it without `try`/`finally`, so `isProcessing` stays true and the loop is abandoned. | PROCESS_IMAGE for any task to a freshly started worker, then INITIALIZE_WASM succeeding, then any further requests: none is ever answered. | The failure is posted as PROCESSING_ERROR for that task, and draining continues until the queue is empty and the busy flag is cleared. | not executed; the hook in this repository posts requests only after WASM_INITIALIZED, so it does not send this sequence itself | Queue.RequestBeforeInitSilencesWorker | Queue.DrainAnswersInOrder |
