# Autostereogram codec and acuity quiz

This is a Dafny model of the two controllers of a Kotlin/OpenCV autostereogram application.

`StereogramController` has three parts:

- **Random-dot encoder.** For each scanline it builds a link array `same`. Column `right = x + s/2` is linked to `left = x - s/2`, where `s = eyeSep - z*focalLen/255`. Each output pixel copies the noise pixel of the root its column reaches.
- **Texture encoder.** It uses the same per-scanline scheme, but each column joins the classes of `left` and `right = left + s`. The larger root is placed under the smaller. It links only where a hidden-surface test finds the column visible. It then tiles a pattern image by `root % texWidth` and `y % texHeight`.
- **Decoder.** For each candidate disparity `d` in `max(1, eyeSep - maxDepth) .. eyeSep` it keeps a running per-pixel minimum of a blurred difference cost, and the `d` that reached it. It then maps the best disparity to a depth byte.

`GameController` is the acuity quiz. It loads up to ten levels and shows them one by one with a 60-second timer. It scores correct answers by the time left times the level number, and classifies the final score.

The modules follow the source:

- `Images`: pixel grids, the stereogram record, Kotlin's truncating `Int` division and `toByte`.
- `RowEquivalence`: the link array shared by both encoders, and root chasing.
- `RandomDot`, `Texture` and `Decoder`: the three parts of `StereogramController`.
- `Game`: the `GameController` class, whose methods update its fields as the Kotlin methods do.

Each encoder loop is a method proved against a function on sequences: `LinkStep`/`LinksUpTo` for random dots, and `UnionStep`/`LinksUpTo` for the texture union. The lemmas state what those functions promise.

Inputs that come from outside the codec enter the model as parameters:

- the random noise base image;
- the floating-point separation and visibility of the texture encoder;
- the blurred cost grids of the decoder;
- what reading each image file returned.

## Model

| member | source | states |
|---|---|---|
| Images.Quot | Tarea3-27531458-BryanSilva-28309661-OrianaArellano/src/main/kotlin/controllers/StereogramController.kt:50-52 | Kotlin `Int` division: equals floor division for a non-negative dividend, and truncates toward zero for a negative one |
| Images.ToByte | Tarea3-27531458-BryanSilva-28309661-OrianaArellano/src/main/kotlin/controllers/StereogramController.kt:217-218 | `toByte` keeps a value of `0..255` unchanged and otherwise keeps it modulo 256 |
| RowEquivalence.Root | Tarea3-27531458-BryanSilva-28309661-OrianaArellano/src/main/kotlin/controllers/StereogramController.kt:61-64 | following the links from a column ends at a self-linked column at or left of it |
| RowEquivalence.Identity | Tarea3-27531458-BryanSilva-28309661-OrianaArellano/src/main/kotlin/controllers/StereogramController.kt:43-46 | the fresh link array makes every column its own root |
| RowEquivalence.RootIsClassMinimum | Tarea3-27531458-BryanSilva-28309661-OrianaArellano/src/main/kotlin/controllers/StereogramController.kt:141-146 | a root is its own root, and it is the smallest column of its class |
| RowEquivalence.RootAfterLink | Tarea3-27531458-BryanSilva-28309661-OrianaArellano/src/main/kotlin/controllers/StereogramController.kt:145-146 | linking root `hi` under a smaller root `lo` keeps links pointing left; columns of `hi`'s class now reach `lo` and every other column keeps its root |
| RowEquivalence.FindRoot | Tarea3-27531458-BryanSilva-28309661-OrianaArellano/src/main/kotlin/controllers/StereogramController.kt:61-64 | the root-chasing loop terminates and returns the root of its start column |
| RowEquivalence.NewLinks | Tarea3-27531458-BryanSilva-28309661-OrianaArellano/src/main/kotlin/controllers/StereogramController.kt:43-46 | the fill loop produces a fresh identity link array |
| RandomDot.Separation | Tarea3-27531458-BryanSilva-28309661-OrianaArellano/src/main/kotlin/controllers/StereogramController.kt:50 | depth 0 gives the full eye separation, depth 255 gives `eyeSep - focalLen`, and with a non-negative focal length every separation lies between the two |
| RandomDot.Half | Tarea3-27531458-BryanSilva-28309661-OrianaArellano/src/main/kotlin/controllers/StereogramController.kt:51-52 | half a separation, truncated toward zero: twice it never exceeds the separation in size and keeps its sign |
| RandomDot.LinkStep | Tarea3-27531458-BryanSilva-28309661-OrianaArellano/src/main/kotlin/controllers/StereogramController.kt:48-57 | one linking step changes at most `same[x + s/2]`, only to `x - s/2`, and only downward; links keep pointing left |
| RandomDot.LinksUpTo | Tarea3-27531458-BryanSilva-28309661-OrianaArellano/src/main/kotlin/controllers/StereogramController.kt:43-58 | after any number of linking steps every link still points at or left of its column |
| RandomDot.RowLinks | Tarea3-27531458-BryanSilva-28309661-OrianaArellano/src/main/kotlin/controllers/StereogramController.kt:43-58 | the finished link array of a scanline points left, so root chasing terminates |
| RandomDot.RandomDotPixel | Tarea3-27531458-BryanSilva-28309661-OrianaArellano/src/main/kotlin/controllers/StereogramController.kt:60-69 | an output pixel is always one of the noise pixels of its row at or left of its column |
| RandomDot.NoShiftNoLink | Tarea3-27531458-BryanSilva-28309661-OrianaArellano/src/main/kotlin/controllers/StereogramController.kt:51-55 | a column whose half separation is 0 changes no link |
| RandomDot.UniformLinksUpTo | Tarea3-27531458-BryanSilva-28309661-OrianaArellano/src/main/kotlin/controllers/StereogramController.kt:48-58 | on a row of constant depth with half separation `h > 0`, the pass links exactly the columns `c >= 2h` that it has reached, each to `c - 2h` |
| RandomDot.UniformRowIsPeriodic | Tarea3-27531458-BryanSilva-28309661-OrianaArellano/src/main/kotlin/controllers/StereogramController.kt:48-70 | a row of constant depth is periodic in the output: pixel `x` equals pixel `x - 2h` |
| RandomDot.NearPlaneRepeatsEvery100 | Tarea3-27531458-BryanSilva-28309661-OrianaArellano/src/main/kotlin/controllers/StereogramController.kt:48-70 | with eye separation 130 and focal length 30, a row all at depth 255 has separation 100 and repeats every 100 columns |
| RandomDot.LinkRow | Tarea3-27531458-BryanSilva-28309661-OrianaArellano/src/main/kotlin/controllers/StereogramController.kt:43-58 | the two linking loops of a scanline compute `RowLinks` in place |
| RandomDot.LinkColumn | Tarea3-27531458-BryanSilva-28309661-OrianaArellano/src/main/kotlin/controllers/StereogramController.kt:49-57 | the loop body for one column updates the array exactly as `LinkStep` |
| RandomDot.WriteRow | Tarea3-27531458-BryanSilva-28309661-OrianaArellano/src/main/kotlin/controllers/StereogramController.kt:59-70 | the write loop sets every pixel of row `y` to the noise pixel of its root in that row's links, and leaves every other row unchanged |
| RandomDot.GenerateRandomDotStereogram | Tarea3-27531458-BryanSilva-28309661-OrianaArellano/src/main/kotlin/controllers/StereogramController.kt:26-75 | no depth map gives an empty image; otherwise the output has the depth map's size and pixel `(x, y)` is the noise pixel at `(root(x), y)` of row `y`'s own links, so row `y` depends only on row `y` of the depth map and noise |
| Texture.UnionStep | Tarea3-27531458-BryanSilva-28309661-OrianaArellano/src/main/kotlin/controllers/StereogramController.kt:108-147 | a union step, which links one root under a smaller one, keeps every link pointing left |
| Texture.Left | Tarea3-27531458-BryanSilva-28309661-OrianaArellano/src/main/kotlin/controllers/StereogramController.kt:108 | `left` lies between `x - separation` and `x` for a non-negative separation |
| Texture.Right | Tarea3-27531458-BryanSilva-28309661-OrianaArellano/src/main/kotlin/controllers/StereogramController.kt:109 | `right` is exactly `separation` columns right of `left`, and lies between `x` and `x + separation` for a non-negative separation |
| Texture.UnionStepMerges | Tarea3-27531458-BryanSilva-28309661-OrianaArellano/src/main/kotlin/controllers/StereogramController.kt:110-148 | when it links, `left` and `right` end in one class, the two old classes merge under the smaller root, and every other column keeps its root; with `left < 0`, `right >= width` or an invisible column nothing changes |
| Texture.UnionStepKeepsClass | Tarea3-27531458-BryanSilva-28309661-OrianaArellano/src/main/kotlin/controllers/StereogramController.kt:137-147 | a union step never separates two columns that already share a root |
| Texture.UnionStepJoins | Tarea3-27531458-BryanSilva-28309661-OrianaArellano/src/main/kotlin/controllers/StereogramController.kt:137-147 | a union step on a visible column whose two ends are inside the row leaves those ends with one root |
| Texture.LinksUpTo | Tarea3-27531458-BryanSilva-28309661-OrianaArellano/src/main/kotlin/controllers/StereogramController.kt:100-150 | after any number of union steps every link still points at or left of its column |
| Texture.RowLinks | Tarea3-27531458-BryanSilva-28309661-OrianaArellano/src/main/kotlin/controllers/StereogramController.kt:100-150 | the finished link array of a scanline points left |
| Texture.LinkedEndsShareRoot | Tarea3-27531458-BryanSilva-28309661-OrianaArellano/src/main/kotlin/controllers/StereogramController.kt:137-147 | the two ends of every linking step stay in one class through all later steps |
| Texture.LaterStepKeepsClass | Tarea3-27531458-BryanSilva-28309661-OrianaArellano/src/main/kotlin/controllers/StereogramController.kt:104-150 | two columns that share a root after some union steps of a scanline still share one after the next step |
| Texture.StepJoinsEnds | Tarea3-27531458-BryanSilva-28309661-OrianaArellano/src/main/kotlin/controllers/StereogramController.kt:137-147 | the linking step of a column joins its `left` and `right` into one class |
| Texture.TexturePixel | Tarea3-27531458-BryanSilva-28309661-OrianaArellano/src/main/kotlin/controllers/StereogramController.kt:152-164 | an output pixel is a pixel of pattern row `y % texHeight`, and all columns of one class get the same pattern pixel |
| Texture.PatternOffsetInBuffer | Tarea3-27531458-BryanSilva-28309661-OrianaArellano/src/main/kotlin/controllers/StereogramController.kt:158-164 | with a non-empty pattern, the tiled byte offset and its two following channels lie inside the pattern buffer |
| Texture.GenerateTextureStereogram | Tarea3-27531458-BryanSilva-28309661-OrianaArellano/src/main/kotlin/controllers/StereogramController.kt:77-169 | no depth map or no texture gives an empty image; otherwise pixel `(x, y)` is pattern pixel `(root(x) % texWidth, y % texHeight)` of row `y`'s links |
| Texture.LinkRow | Tarea3-27531458-BryanSilva-28309661-OrianaArellano/src/main/kotlin/controllers/StereogramController.kt:100-150 | the linking loops of a scanline compute `RowLinks` in place |
| Texture.WriteRow | Tarea3-27531458-BryanSilva-28309661-OrianaArellano/src/main/kotlin/controllers/StereogramController.kt:152-165 | the write loop fills row `y` with the tiled pattern pixels of the roots and leaves other rows unchanged |
| Texture.UnionColumn | Tarea3-27531458-BryanSilva-28309661-OrianaArellano/src/main/kotlin/controllers/StereogramController.kt:108-148 | the loop body for one column, after the visibility test, updates the array exactly as `UnionStep` |
| Decoder.MinSearch | Tarea3-27531458-BryanSilva-28309661-OrianaArellano/src/main/kotlin/controllers/StereogramController.kt:184 | the smallest candidate disparity is at least 1 |
| Decoder.Range | Tarea3-27531458-BryanSilva-28309661-OrianaArellano/src/main/kotlin/controllers/StereogramController.kt:213 | the divisor of the depth mapping is at least 1 |
| Decoder.Saturate | Tarea3-27531458-BryanSilva-28309661-OrianaArellano/src/main/kotlin/controllers/StereogramController.kt:205 | storing a disparity into the 8-bit best-match grid keeps values `0..255` and clamps the others to 0 or 255 |
| Decoder.Scan | Tarea3-27531458-BryanSilva-28309661-OrianaArellano/src/main/kotlin/controllers/StereogramController.kt:201-206 | the running minimum of a pixel never exceeds `Float.MAX_VALUE`, and its disparity is 0 or one of the candidates scanned so far |
| Decoder.ScanIsFirstMinimum | Tarea3-27531458-BryanSilva-28309661-OrianaArellano/src/main/kotlin/controllers/StereogramController.kt:182-206 | the running minimum is at most every cost seen; disparity 0 means no cost beat `Float.MAX_VALUE`, and any other disparity has a cost below it; a non-zero disparity is a candidate whose region reaches the column, its cost is the minimum, and every earlier candidate cost strictly more (ties keep the smaller `d`) |
| Decoder.MinErrorNeverIncreases | Tarea3-27531458-BryanSilva-28309661-OrianaArellano/src/main/kotlin/controllers/StereogramController.kt:202-203 | the running minimum never increases from one candidate to a later one |
| Decoder.StoredDisparityInRange | Tarea3-27531458-BryanSilva-28309661-OrianaArellano/src/main/kotlin/controllers/StereogramController.kt:183-206 | the stored best disparity is 0 or lies between the saturated `minSearch` and `maxSearch` |
| Decoder.DepthOf | Tarea3-27531458-BryanSilva-28309661-OrianaArellano/src/main/kotlin/controllers/StereogramController.kt:214-221 | a stored disparity of 0 maps to depth 0 |
| Decoder.DepthOfInRange | Tarea3-27531458-BryanSilva-28309661-OrianaArellano/src/main/kotlin/controllers/StereogramController.kt:213-218 | for `d` in the search range the depth byte is `255 - (d - minSearch)*255/range` with floor division and needs no wrap-around |
| Decoder.DepthOfMonotone | Tarea3-27531458-BryanSilva-28309661-OrianaArellano/src/main/kotlin/controllers/StereogramController.kt:213-218 | the depth byte does not increase with the disparity |
| Decoder.DepthOfEnds | Tarea3-27531458-BryanSilva-28309661-OrianaArellano/src/main/kotlin/controllers/StereogramController.kt:184-185 | `minSearch` maps to 255, and `maxSearch` maps to 0 when it exceeds `minSearch` |
| Decoder.UpdateRunningMinimum | Tarea3-27531458-BryanSilva-28309661-OrianaArellano/src/main/kotlin/controllers/StereogramController.kt:201-206 | for one candidate, only pixels inside the region `x < width - d` with a strictly smaller cost take that cost and `d`; all others are unchanged |
| Decoder.DisparitySearch | Tarea3-27531458-BryanSilva-28309661-OrianaArellano/src/main/kotlin/controllers/StereogramController.kt:182-209 | after the loop over candidates, every pixel holds the running minimum and best disparity of the whole range |
| Decoder.MapToDepth | Tarea3-27531458-BryanSilva-28309661-OrianaArellano/src/main/kotlin/controllers/StereogramController.kt:210-222 | the mapping loop gives every pixel the depth byte of its best disparity |
| Decoder.DecodeStereogram | Tarea3-27531458-BryanSilva-28309661-OrianaArellano/src/main/kotlin/controllers/StereogramController.kt:171-224 | an empty stereogram gives an empty map; otherwise each pixel holds the depth byte of the best disparity found for it, and 0 where none was found |
| Game.Diagnose | Tarea3-27531458-BryanSilva-28309661-OrianaArellano/src/main/kotlin/controllers/GameController.kt:172-177 | the diagnosis is the highest tier whose threshold (2500, 1500, 500, none) the points reach |
| Game.DiagnoseMonotone | Tarea3-27531458-BryanSilva-28309661-OrianaArellano/src/main/kotlin/controllers/GameController.kt:172-177 | more points never give a lower tier |
| Game.LevelScore | Tarea3-27531458-BryanSilva-28309661-OrianaArellano/src/main/kotlin/controllers/GameController.kt:139-147 | a wrong answer scores 0 and so does a timed-out level; a correct answer in time on a positive level scores a positive amount, at most 60 times the level number |
| Game.FasterScoresMore | Tarea3-27531458-BryanSilva-28309661-OrianaArellano/src/main/kotlin/controllers/GameController.kt:142-143 | the score does not increase with the seconds elapsed |
| Game.TestLevelsNumbered | Tarea3-27531458-BryanSilva-28309661-OrianaArellano/src/main/kotlin/controllers/GameController.kt:245-353 | the table holds ten levels numbered 1 to 10 in order |
| Game.ChosenTexture | Tarea3-27531458-BryanSilva-28309661-OrianaArellano/src/main/kotlin/controllers/GameController.kt:213-225 | a level gets a texture exactly when it is "SIS", names a texture file and that file loaded; otherwise it falls back to random dots |
| Game.LoadLevel | Tarea3-27531458-BryanSilva-28309661-OrianaArellano/src/main/kotlin/controllers/GameController.kt:205-241 | a level is made exactly when its depth map loaded, and it carries the source's number, figure name, options, depth map, parameters and chosen texture |
| Game.LoadedLevels | Tarea3-27531458-BryanSilva-28309661-OrianaArellano/src/main/kotlin/controllers/GameController.kt:208-211 | there are never more levels than sources |
| Game.LoadedLevelsHaveDepth | Tarea3-27531458-BryanSilva-28309661-OrianaArellano/src/main/kotlin/controllers/GameController.kt:208-211 | no loaded level lacks a depth map, and positive source numbers give positive level numbers |
| Game.LoadedStep | Tarea3-27531458-BryanSilva-28309661-OrianaArellano/src/main/kotlin/controllers/GameController.kt:208-241 | a source whose depth map loads appends exactly one level, carrying its own number |
| Game.AllLoadedCount | Tarea3-27531458-BryanSilva-28309661-OrianaArellano/src/main/kotlin/controllers/GameController.kt:208-241 | when every depth map loads, every source adds exactly one level |
| Game.LoadedNumber | Tarea3-27531458-BryanSilva-28309661-OrianaArellano/src/main/kotlin/controllers/GameController.kt:208-241 | when every depth map loads, level `i` comes from source `i` |
| Game.AllLoadedWhenReadsSucceed | Tarea3-27531458-BryanSilva-28309661-OrianaArellano/src/main/kotlin/controllers/GameController.kt:208-241 | when every depth map loads, every source yields its level, in order |
| Game.GameController.constructor | Tarea3-27531458-BryanSilva-28309661-OrianaArellano/src/main/kotlin/controllers/GameController.kt:29-36 | a new controller has no levels, index 0, no points and a stopped timer |
| Game.GameController.PlayGame | Tarea3-27531458-BryanSilva-28309661-OrianaArellano/src/main/kotlin/controllers/GameController.kt:82-90 | the level list is replaced by the levels that load, index and points restart at 0, and the first level is shown with its timer at 0; with no levels the game ends at once with the seconds unchanged |
| Game.GameController.LoadTestLevels | Tarea3-27531458-BryanSilva-28309661-OrianaArellano/src/main/kotlin/controllers/GameController.kt:191-354 | appends the levels of the table whose depth maps load, in table order |
| Game.GameController.LoadLevels | Tarea3-27531458-BryanSilva-28309661-OrianaArellano/src/main/kotlin/controllers/GameController.kt:245-353 | one `loadLevelFromFile` per source, in order, keeps the controller valid |
| Game.GameController.LoadLevelFromFile | Tarea3-27531458-BryanSilva-28309661-OrianaArellano/src/main/kotlin/controllers/GameController.kt:195-243 | appends the loaded level, or nothing when the depth map failed to load |
| Game.GameController.LoadLevelOnScreen | Tarea3-27531458-BryanSilva-28309661-OrianaArellano/src/main/kotlin/controllers/GameController.kt:92-113 | while levels remain the current one is shown with a running timer at 0; past the last level the game ends with the diagnosis of the score |
| Game.GameController.StartTimer | Tarea3-27531458-BryanSilva-28309661-OrianaArellano/src/main/kotlin/controllers/GameController.kt:115-117 | each level's clock starts at 0 seconds and runs |
| Game.GameController.Tick | Tarea3-27531458-BryanSilva-28309661-OrianaArellano/src/main/kotlin/controllers/GameController.kt:120-130 | a tick adds one second and changes nothing else while time remains; when no time remains the level times out as the empty answer, and either the next level starts with its timer at 0 or the timer stops and the diagnosis of the score is shown |
| Game.GameController.ManageTimeOut | Tarea3-27531458-BryanSilva-28309661-OrianaArellano/src/main/kotlin/controllers/GameController.kt:159-161 | a timeout is the empty answer: the index advances by one, the points change by the empty answer's score, and either the next level starts with its timer at 0 or the timer stops, the seconds stay as they were and the diagnosis of the score is shown |
| Game.GameController.HandleResponse | Tarea3-27531458-BryanSilva-28309661-OrianaArellano/src/main/kotlin/controllers/GameController.kt:134-157 | the points grow by the answer's score and never decrease, the index advances by exactly one, and either the next level starts with its timer at 0 or the timer stops, the seconds stay as they were and the diagnosis is shown |
| Game.GameController.EndGame | Tarea3-27531458-BryanSilva-28309661-OrianaArellano/src/main/kotlin/controllers/GameController.kt:163-181 | the diagnosis of the final score is shown |

## Left out

- `generateRandomDotBase` (random noise) is not modelled. The noise image is a parameter of `GenerateRandomDotStereogram` with the depth map's size.
- The texture encoder's floating-point separation (`Math.round` of a `Double` expression) and its hidden-surface walk are not modelled. They enter as inputs: a separation for each depth byte, and a visibility flag for each pixel.
- The decoder's grey conversion, absolute difference and box blur are OpenCV primitives. Their result for each candidate `d` is an integer cost grid of `width - d` columns, so `windowSize` and floating-point costs are not modelled.
- Decoder.DecodeStereogram: returns the depth map before the median filter and histogram equalisation that the source applies last. Those two OpenCV filters are not modelled.
- Kotlin's 32-bit `Int` overflow is not modelled. Every product in the core is far below 2^31 for 8-bit samples and the separations in use.
- RandomDot.GenerateRandomDotStereogram: requires that no column's `right` index is negative. That happens only for a negative separation, where the source would throw on `same[right]`.
- Texture.GenerateTextureStereogram: requires the same of the texture encoder's `left` and `right`. It also requires a non-empty texture when there are pixels to write, since the source divides by the texture's size.
- Decoder.DecodeStereogram: requires `maxSearch < width` whenever the range is non-empty, since a larger `d` gives OpenCV an invalid region of interest.
- The JavaFX parts of the quiz are not modelled: labels, buttons, image views, the progress bar and `matToJavaFXImage`. The timeline is the `timerRunning` flag plus the `Tick` method, and the shown diagnosis is the `diagnosis` field.
- Game.GameController.HandleResponse: the 2.5-second pause before the next level is collapsed. Advancing the index and showing the next level happen at the end of the call.
- Reading image files is not modelled. `PlayGame` and `LoadLevelFromFile` take as parameters what each read returned, and an empty grid stands for a failed read.
- Generating a level's stereogram image is not modelled. `StereogramController.generate` is not part of this model, since the controller file does not define it. A level's `Stereogram` record therefore carries the encoder inputs (name, depth map, eye separation, focal length, optional texture) instead of the generated image and the technique name.
- `DeepMapController` (OpenGL depth rendering), `BasicViewController`, `App` and `main` are not modelled; they are user-interface and launch code. `Stereogram.kt` is modelled only as the plain `Stereogram` record.
