# Liquid-glass capture bookkeeping, in Dafny

A model of the bookkeeping around the liquid-glass slider thumb on Android
(`LiquidGlassRangeSliderView.kt`): the view captures the pixels behind itself
every 30 ms, hands the captured scene to a render thread through a one-element
slot, and the render thread binds it to a texture and draws a refracting lens
over it. The model covers the integer and option-valued state of that
pipeline; the GPU work is outside it.

- `option.dfy` — `Optional.Option`, the model of Kotlin's nullable references.
- `capture_region.dfy` — module `CaptureRegion`: the capture tick's hysteresis
  decision (reuse the cached `Rect` while the view stays 20 px inside it on
  every side, otherwise pad the view's box by 40 px, move its origin to be
  non-negative and cut it at the root view's size, and reject a region without
  area), the cache it leaves behind, a run of ticks, and the lemmas about them.
- `renderer.dfy` — module `Renderer`: the `LiquidGlassRenderer` class with the
  pending-scene slot, the current capture geometry, the texture name, the
  surface size, the view position and the four parameters; `RenderFrame` is
  one iteration of the render loop, returning `Cleared` or the uniforms it
  draws with.
- `slider_view.dfy` — module `SliderView`: the `LiquidGlassRangeSliderView`
  class with the four parameter properties, the renderer reference, the
  surface callbacks, the visibility hook and the capture tick. Its invariant
  `Valid()` says that a live renderer holds exactly the view's parameters and
  that a cached region always has area.

Inputs the view reads from the platform are parameters: the root view's size
(`None` when there is no activity or window), the view's screen origin and
size, where the snapshot threw (`Fault`), the texture name `glGenTextures`
returns, and the position the per-frame callback computes. Bitmaps are
reduced to their width and height. The `Float` parameters are `real` values
that are only copied. `SetVisibility` stands for the platform's
`View.setVisibility`, which runs `onVisibilityChanged` on the view when the
visibility actually changes.

Five behaviours of the code are easy to misread; the model follows the code:
- the recomputed region is shifted, not clipped, at the origin: near the top
  or left edge it keeps the full padded size (w + 80, h + 80) rather than
  losing the part that would lie at negative coordinates;
- the tick stores the recomputed region before the snapshot, so a snapshot
  that throws still leaves the new region cached; a throwing
  `rootView.draw` also leaves the view `INVISIBLE` until a later tick reaches
  the show-again step;
- a tick that reaches the show-again step leaves the view `VISIBLE` even if
  the host had hidden it before the tick;
- the visibility hook empties the cache on any call with `VISIBLE`, including
  the one that the tick's own hide/show produces (see Findings);
- the reuse test never compares the cached region with the current root
  size, so after the root shrinks a region reaching beyond it is still reused.

The capture tick exists twice. `CaptureBackgroundAsWritten`, `CaptureLoop`,
`CacheAfterTickAsWritten` and the `AsWritten…` members follow the code. The
corrected tick of the Findings section, which keeps its cache across its own
hide/show, is `CaptureBackground`, `CaptureLoopKeepingCache` and
`CacheAfterTick`; `RunTicks`, `HysteresisHoldsOverMoves`,
`RecomputedRegionIsReused` and `SmallMoveKeepsRegion` are stated about it.

## Model

| member | source | states |
|---|---|---|
| `CaptureRegion.PaddedRect` | android/src/main/java/com/reactnativeandroidliquidglassrangeslider/LiquidGlassRangeSliderView.kt:158-164 | the recomputed region starts at the 40 px padded origin or at 0, is never larger than the padded box and has exactly its size unless cut at the root's edge, never extends beyond the root, contains the whole view when the view is on the root, and is exactly the view padded by 40 px on every side away from the edges |
| `CaptureRegion.Decide` | android/src/main/java/com/reactnativeandroidliquidglassrangeslider/LiquidGlassRangeSliderView.kt:139-166 | the cached region is reused if and only if it exists and the view lies 20 px inside it on all four sides, and then unchanged; otherwise the result is the padded region with positive width and height, or a rejection exactly when the padded origin lies at or beyond the root's width or height |
| `CaptureRegion.CacheAfterTick` | android/src/main/java/com/reactnativeandroidliquidglassrangeslider/LiquidGlassRangeSliderView.kt:153-168 | corrected tick (see Findings): a recomputed region is stored; a rejected tick and a reuse leave the cache as it was |
| `CaptureRegion.CacheAfterTickAsWritten` | android/src/main/java/com/reactnativeandroidliquidglassrangeslider/LiquidGlassRangeSliderView.kt:166-184 | as the code runs: a rejected tick keeps the cache, a tick that reaches the show-again step leaves it empty, a tick whose snapshot threw keeps what the decision stored |
| `CaptureRegion.RunTicks` | android/src/main/java/com/reactnativeandroidliquidglassrangeslider/LiquidGlassRangeSliderView.kt:112-168 | corrected tick (see Findings): over any run of ticks the cache only ever holds regions with area |
| `CaptureRegion.HysteresisHoldsOverMoves` | android/src/main/java/com/reactnativeandroidliquidglassrangeslider/LiquidGlassRangeSliderView.kt:142-156 | corrected tick (see Findings): while every move keeps the view 20 px inside the cached region, that region stays cached, unchanged, over the whole run |
| `CaptureRegion.RecomputedRegionIsReused` | android/src/main/java/com/reactnativeandroidliquidglassrangeslider/LiquidGlassRangeSliderView.kt:142-167 | corrected tick (see Findings): a region just recomputed for a view at least 20 px inside the root is reused by the next tick if the view has not moved |
| `CaptureRegion.InvalidatedCacheForcesRecompute` | android/src/main/java/com/reactnativeandroidliquidglassrangeslider/LiquidGlassRangeSliderView.kt:105-109 | with the cache emptied the next tick never reuses; for a view on a non-empty root it recomputes the padded region |
| `CaptureRegion.RightEdgeMarginScenario` | android/src/main/java/com/reactnativeandroidliquidglassrangeslider/LiquidGlassRangeSliderView.kt:142-164 | region (40,140)-(240,300) is kept for a 60x40 view at (135,200) and becomes (130,160)-(270,280) when the view is at (170,200) |
| `CaptureRegion.ReusedRegionNotCheckedAgainstRoot` | android/src/main/java/com/reactnativeandroidliquidglassrangeslider/LiquidGlassRangeSliderView.kt:142-156 | a cached region (40,140)-(240,300) is reused for a view inside it although the root is now only 100x100, so the reused region reaches beyond the root, breaking the bound that a recomputed region keeps |
| `CaptureRegion.AsWrittenNeverReusesAfterCompletedTick` | android/src/main/java/com/reactnativeandroidliquidglassrangeslider/LiquidGlassRangeSliderView.kt:174-184 | as written, after any tick that completes the following tick never takes the reuse branch, wherever the view is |
| `CaptureRegion.AsWrittenRecapturesStandingView` | android/src/main/java/com/reactnativeandroidliquidglassrangeslider/LiquidGlassRangeSliderView.kt:174-184 | for a view standing still at (100,200), 60x40, the second tick recomputes as written and reuses when the cache is kept |
| `Renderer.LiquidGlassRenderer.constructor` | android/src/main/java/com/reactnativeandroidliquidglassrangeslider/LiquidGlassRangeSliderView.kt:194-221 | a new renderer has the surface size, no texture, an empty slot, zero capture geometry and the default parameters 0.5, 1.0, 0, 0 |
| `Renderer.LiquidGlassRenderer.UpdateSize` | android/src/main/java/com/reactnativeandroidliquidglassrangeslider/LiquidGlassRangeSliderView.kt:236-239 | the surface size becomes the new one; nothing else changes |
| `Renderer.LiquidGlassRenderer.UpdateViewPosition` | android/src/main/java/com/reactnativeandroidliquidglassrangeslider/LiquidGlassRangeSliderView.kt:241-244 | the view's screen position becomes the given one; nothing else changes |
| `Renderer.LiquidGlassRenderer.SetRefraction` | android/src/main/java/com/reactnativeandroidliquidglassrangeslider/LiquidGlassRangeSliderView.kt:246 | only the refraction parameter changes, to the given value |
| `Renderer.LiquidGlassRenderer.SetMagnification` | android/src/main/java/com/reactnativeandroidliquidglassrangeslider/LiquidGlassRangeSliderView.kt:247 | only the magnification parameter changes, to the given value |
| `Renderer.LiquidGlassRenderer.SetOffsetX` | android/src/main/java/com/reactnativeandroidliquidglassrangeslider/LiquidGlassRangeSliderView.kt:248 | only the horizontal offset changes, to the given value |
| `Renderer.LiquidGlassRenderer.SetOffsetY` | android/src/main/java/com/reactnativeandroidliquidglassrangeslider/LiquidGlassRangeSliderView.kt:249 | only the vertical offset changes, to the given value |
| `Renderer.LiquidGlassRenderer.UploadScene` | android/src/main/java/com/reactnativeandroidliquidglassrangeslider/LiquidGlassRangeSliderView.kt:251-255 | the slot holds exactly the new scene, whatever it held before; nothing else changes |
| `Renderer.LiquidGlassRenderer.RenderFrame` | android/src/main/java/com/reactnativeandroidliquidglassrangeslider/LiquidGlassRangeSliderView.kt:302-360 | the slot is empty afterwards; a consumed scene's origin and size become the capture geometry, which is otherwise unchanged; a texture name is taken only when a scene is consumed while none exists and never changes once set; the frame only clears exactly when no texture exists, and otherwise draws with the surface size, view position, capture geometry, the fixed shape constants and the four parameters |
| `Renderer.LastUploadWins` | android/src/main/java/com/reactnativeandroidliquidglassrangeslider/LiquidGlassRangeSliderView.kt:251-320 | of two scenes published before a frame only the second is consumed, and the frame draws with its geometry once a texture exists |
| `Renderer.NoSceneNoDraw` | android/src/main/java/com/reactnativeandroidliquidglassrangeslider/LiquidGlassRangeSliderView.kt:302-326 | a frame before any scene only clears; after the first consume with a texture, later frames draw, and a frame with nothing pending draws the same as the one before |
| `SliderView.SceneOf` | android/src/main/java/com/reactnativeandroidliquidglassrangeslider/LiquidGlassRangeSliderView.kt:171-187 | the published bitmap spans the region exactly: its origin is the region's top-left corner and it reaches the region's right and bottom edges; it is non-empty exactly when the region has area, so the bitmap created for a region that passed the area check is never empty |
| `SliderView.LiquidGlassRangeSliderView.constructor` | android/src/main/java/com/reactnativeandroidliquidglassrangeslider/LiquidGlassRangeSliderView.kt:29-118 | a new view has the default parameters, no renderer, no cached region, and the invariant holds |
| `SliderView.LiquidGlassRangeSliderView.SetRefraction` | android/src/main/java/com/reactnativeandroidliquidglassrangeslider/LiquidGlassRangeSliderView.kt:32-36 | the view's refraction changes and a live renderer receives it, so the renderer keeps the view's parameters; the cache, the visibility and everything else in the renderer (slot, texture, geometry, size, position) stay |
| `SliderView.LiquidGlassRangeSliderView.SetMagnification` | android/src/main/java/com/reactnativeandroidliquidglassrangeslider/LiquidGlassRangeSliderView.kt:38-42 | the view's magnification changes and a live renderer receives it; the cache, the visibility and the rest of the renderer stay |
| `SliderView.LiquidGlassRangeSliderView.SetOffsetX` | android/src/main/java/com/reactnativeandroidliquidglassrangeslider/LiquidGlassRangeSliderView.kt:44-48 | the view's horizontal offset changes and a live renderer receives it; the cache, the visibility and the rest of the renderer stay |
| `SliderView.LiquidGlassRangeSliderView.SetOffsetY` | android/src/main/java/com/reactnativeandroidliquidglassrangeslider/LiquidGlassRangeSliderView.kt:50-54 | the view's vertical offset changes and a live renderer receives it; the cache, the visibility and the rest of the renderer stay |
| `SliderView.LiquidGlassRangeSliderView.OnSurfaceTextureAvailable` | android/src/main/java/com/reactnativeandroidliquidglassrangeslider/LiquidGlassRangeSliderView.kt:81-90 | a fresh renderer with the surface size, an empty slot, no texture, zero capture geometry and view position (0, 0) holds all four of the view's current parameters |
| `SliderView.LiquidGlassRangeSliderView.OnSurfaceTextureSizeChanged` | android/src/main/java/com/reactnativeandroidliquidglassrangeslider/LiquidGlassRangeSliderView.kt:92-94 | a live renderer takes the new size; its slot, texture, geometry, position and parameters stay |
| `SliderView.LiquidGlassRangeSliderView.OnSurfaceTextureDestroyed` | android/src/main/java/com/reactnativeandroidliquidglassrangeslider/LiquidGlassRangeSliderView.kt:96-101 | the renderer reference becomes null and the surface is reported released |
| `SliderView.LiquidGlassRangeSliderView.OnVisibilityChanged` | android/src/main/java/com/reactnativeandroidliquidglassrangeslider/LiquidGlassRangeSliderView.kt:105-110 | becoming visible empties the cached region; any other visibility keeps it |
| `SliderView.LiquidGlassRangeSliderView.SetVisibility` | android/src/main/java/com/reactnativeandroidliquidglassrangeslider/LiquidGlassRangeSliderView.kt:175-184 | the visibility becomes the given one, and a change to visible empties the cached region through the hook |
| `SliderView.LiquidGlassRangeSliderView.FrameCallback` | android/src/main/java/com/reactnativeandroidliquidglassrangeslider/LiquidGlassRangeSliderView.kt:61-79 | while a renderer exists it receives the position, everything else in it stays, and the callback re-posts itself; without one it stops |
| `SliderView.LiquidGlassRangeSliderView.CaptureBackground` | android/src/main/java/com/reactnativeandroidliquidglassrangeslider/LiquidGlassRangeSliderView.kt:120-192 | corrected tick (see Findings): without a root nothing changes; otherwise the cache is what the hysteresis decision leaves; a tick stopped before the snapshot keeps the visibility, one whose draw threw leaves the view invisible, and one that completes leaves it visible and puts the non-empty scene of the decided region in the renderer's slot; the rest of the renderer stays |
| `SliderView.LiquidGlassRangeSliderView.CaptureBackgroundAsWritten` | android/src/main/java/com/reactnativeandroidliquidglassrangeslider/LiquidGlassRangeSliderView.kt:120-192 | the tick as the code runs it: the cache afterwards is `CacheAfterTickAsWritten`, empty after every completed tick; visibility and renderer as for the corrected tick |
| `SliderView.LiquidGlassRangeSliderView.CaptureLoop` | android/src/main/java/com/reactnativeandroidliquidglassrangeslider/LiquidGlassRangeSliderView.kt:112-116 | with no renderer the loop stops without capturing and nothing changes; otherwise it runs one tick as the code does (the cache is emptied by a completed tick), publishes its scene and reschedules |
| `SliderView.LiquidGlassRangeSliderView.CaptureLoopKeepingCache` | android/src/main/java/com/reactnativeandroidliquidglassrangeslider/LiquidGlassRangeSliderView.kt:112-116 | corrected tick (see Findings): the same loop step running `CaptureBackground`, so the cache is what the hysteresis decision leaves |
| `SliderView.SmallMoveKeepsRegion` | android/src/main/java/com/reactnativeandroidliquidglassrangeslider/LiquidGlassRangeSliderView.kt:139-187 | corrected tick (see Findings): a tick at (100,200) then a 10 px move right publishes the region (60,160) of size 140x120 both times |
| `SliderView.SmallMoveRecomputesAsWritten` | android/src/main/java/com/reactnativeandroidliquidglassrangeslider/LiquidGlassRangeSliderView.kt:105-184 | as written, the same two loop steps publish a region re-centred on the moved view, origin (70,160) |

## Left out

- The GLSL fragment shader (capsule distance, refraction, dispersion, magnification, blur, lighting): floating-point GPU code; a frame's result stops at the uniforms it would draw with.
- EGL and GLES setup and teardown (`initGL`, `initResources`, `createProgram`, `loadShader`, `shutdownGL`), buffer, uniform and draw calls, and the `texImage2D` upload: foreign calls with no checkable logic.
- Bitmap creation, the canvas translation and `rootView.draw`: the snapshot is opaque; its outcome is the `Fault` parameter and the bitmap is its size.
- The render thread (`startRendering`, `stopRendering`, `run`, the `running` flag, `sleep(16)`, `join`) and the unsynchronised sharing of fields between threads: the model is sequential, one `RenderFrame` per loop iteration.
- `Handler.postDelayed` and `Choreographer.postFrameCallback`/`removeFrameCallback`: timing; the rescheduling decision is the boolean `CaptureLoop` and `FrameCallback` return.
- The sub-pixel position reconstruction in the frame callback: float arithmetic on the translation; the resulting position is a parameter.
- SliderView.LiquidGlassRangeSliderView.OnSurfaceTextureAvailable: the trailing `captureLoop()` call is the separate `CaptureLoop` step, which the host runs next; starting the thread and posting the frame callback are not modelled.
- CaptureRegion.Decide: coordinates are unbounded integers; Kotlin's 32-bit wrap-around of sums such as `viewX + w` is not modelled, as screen coordinates stay far below 2^31.
- Exceptions other than the two snapshot faults (for example from `getLocationOnScreen`) are not modelled.
- `LiquidGlassRangeSliderViewManager.kt`, `LiquidGlassView.tsx` and `Slider.tsx`: property forwarding, a component wrapper and gesture/animation UI.

## Findings

| source | as written | input that shows it | evidently intended | confidence | as-written member | corrected member |
|---|---|---|---|---|---|---|
| android/src/main/java/com/reactnativeandroidliquidglassrangeslider/LiquidGlassRangeSliderView.kt:175-184 | every completed tick hides and then shows the view itself; the platform runs `onVisibilityChanged(VISIBLE)` on the view, whose override (lines 105-109) empties `lastCaptureRect`, so the hysteresis cache never survives to the next tick | a 60x40 view at (100,200) on a 1080x2400 root, then at (110,200): the second tick recomputes (70,160)-(210,280) instead of reusing (60,160)-(200,280) | the cache is invalidated only when the view reappears after being hidden by someone else, so small moves reuse the region | medium; not executed; relies on `View.setVisibility` calling `onVisibilityChanged` on an attached view whose visibility changes | `CaptureRegion.AsWrittenRecapturesStandingView` | `CaptureRegion.HysteresisHoldsOverMoves`, `SliderView.LiquidGlassRangeSliderView.CaptureBackground`, `SliderView.LiquidGlassRangeSliderView.CaptureLoopKeepingCache`, `SliderView.SmallMoveKeepsRegion` |
