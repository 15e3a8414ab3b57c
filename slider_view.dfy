/**
 * The liquid-glass view itself: the four parameter properties forwarded to the
 * renderer when one exists, the surface lifecycle that creates and drops the
 * renderer, the visibility hook that empties the capture cache, and the
 * capture tick that decides the region, snapshots it and publishes the scene.
 */
module SliderView {
  import opened Optional
  import opened CaptureRegion
  import opened Renderer

  datatype Visibility = Visible | Invisible | Gone

  /** The scene a capture of region `r` produces: a bitmap of the region's size at its origin. */
  function SceneOf(r: Rect): (s: Scene)
    // the bitmap spans the region exactly: its origin is the region's top-left corner
    // and it reaches the region's right and bottom edges
    ensures s.originX == r.left && s.originY == r.top
    ensures s.originX + s.width == r.right && s.originY + s.height == r.bottom
    // a region that passed the area check never yields an empty bitmap, and only such a region does
    ensures HasArea(r) <==> s.width > 0 && s.height > 0
  {
    Scene(r.left, r.top, r.Width(), r.Height())
  }

  /** A tick reaches the upload: the root view is known, the region is accepted and the snapshot succeeded. */
  predicate TickUploads(existing: Option<Rect>, root: Option<RootSize>, box: ViewBox, fault: Fault) {
    root.Some? && !Decide(existing, box, root.value).Reject? && fault == NoFault
  }

  /** A tick stops before hiding the view: no root, a rejected region, or a bitmap that could not be made. */
  predicate TickStops(existing: Option<Rect>, root: Option<RootSize>, box: ViewBox, fault: Fault) {
    root.None? || Decide(existing, box, root.value).Reject? || fault == BitmapFault
  }

  /** A tick hides the view and then stops: the snapshot threw, so the view is never shown again. */
  predicate TickHidesOnly(existing: Option<Rect>, root: Option<RootSize>, box: ViewBox, fault: Fault) {
    root.Some? && !Decide(existing, box, root.value).Reject? && fault == DrawFault
  }

  class LiquidGlassRangeSliderView {
    var refraction: real
    var magnification: real
    var offsetX: real
    var offsetY: real
    var renderer: LiquidGlassRenderer?
    var lastCaptureRect: Option<Rect>
    var visibility: Visibility

    function Parameters(): GlassParams
      reads this
    {
      GlassParams(refraction, magnification, offsetX, offsetY)
    }

    /** A live renderer always holds the view's four parameters; a cached region has area. */
    ghost predicate Valid()
      reads this, renderer
    {
      (renderer != null ==> renderer.Parameters() == Parameters()) &&
      CacheHasArea(lastCaptureRect)
    }

    constructor ()
      ensures Valid()
      ensures Parameters() == DefaultParams
      ensures renderer == null && lastCaptureRect == None && visibility == Visible
    {
      refraction, magnification, offsetX, offsetY := 0.5, 1.0, 0.0, 0.0;
      renderer := null;
      lastCaptureRect := None;
      visibility := Visible;
    }

    method SetRefraction(value: real)
      requires Valid()
      modifies this`refraction, renderer
      ensures Valid() && renderer == old(renderer)
      ensures Parameters() == old(Parameters()).(refraction := value)
      ensures lastCaptureRect == old(lastCaptureRect) && visibility == old(visibility)
      ensures renderer != null ==> renderer.State() == old(renderer.State())
    {
      refraction := value;
      if renderer != null {
        renderer.SetRefraction(value);
      }
    }

    method SetMagnification(value: real)
      requires Valid()
      modifies this`magnification, renderer
      ensures Valid() && renderer == old(renderer)
      ensures Parameters() == old(Parameters()).(magnification := value)
      ensures lastCaptureRect == old(lastCaptureRect) && visibility == old(visibility)
      ensures renderer != null ==> renderer.State() == old(renderer.State())
    {
      magnification := value;
      if renderer != null {
        renderer.SetMagnification(value);
      }
    }

    method SetOffsetX(value: real)
      requires Valid()
      modifies this`offsetX, renderer
      ensures Valid() && renderer == old(renderer)
      ensures Parameters() == old(Parameters()).(offsetX := value)
      ensures lastCaptureRect == old(lastCaptureRect) && visibility == old(visibility)
      ensures renderer != null ==> renderer.State() == old(renderer.State())
    {
      offsetX := value;
      if renderer != null {
        renderer.SetOffsetX(value);
      }
    }

    method SetOffsetY(value: real)
      requires Valid()
      modifies this`offsetY, renderer
      ensures Valid() && renderer == old(renderer)
      ensures Parameters() == old(Parameters()).(offsetY := value)
      ensures lastCaptureRect == old(lastCaptureRect) && visibility == old(visibility)
      ensures renderer != null ==> renderer.State() == old(renderer.State())
    {
      offsetY := value;
      if renderer != null {
        renderer.SetOffsetY(value);
      }
    }

    /** A new surface gets a new renderer holding the view's current parameters. */
    method OnSurfaceTextureAvailable(width: int, height: int)
      requires Valid()
      modifies this`renderer
      ensures Valid() && fresh(renderer)
      ensures renderer.Parameters() == Parameters()
      ensures renderer.State() == RenderState(width, height, 0, None, CaptureGeometry(0, 0, 0, 0), 0.0, 0.0)
    {
      var r := new LiquidGlassRenderer(width, height);
      r.SetRefraction(refraction);
      r.SetMagnification(magnification);
      r.SetOffsetX(offsetX);
      r.SetOffsetY(offsetY);
      renderer := r;
    }

    method OnSurfaceTextureSizeChanged(width: int, height: int)
      requires Valid()
      modifies renderer
      ensures Valid() && renderer == old(renderer)
      ensures renderer != null ==>
        renderer.State() == old(renderer.State()).(width := width, height := height)
      ensures renderer != null ==> renderer.Parameters() == old(renderer.Parameters())
    {
      if renderer != null {
        renderer.UpdateSize(width, height);
      }
    }

    method OnSurfaceTextureDestroyed() returns (released: bool)
      requires Valid()
      modifies this`renderer
      ensures Valid() && renderer == null && released
    {
      renderer := null;
      released := true;
    }

    /** Becoming visible empties the capture cache, so the next tick recomputes. */
    method OnVisibilityChanged(v: Visibility)
      requires Valid()
      modifies this`lastCaptureRect
      ensures Valid()
      ensures lastCaptureRect == if v == Visible then None else old(lastCaptureRect)
    {
      if v == Visible {
        lastCaptureRect := None;
      }
    }

    /** The platform's visibility setter: a change of visibility runs the hook above. */
    method SetVisibility(v: Visibility)
      requires Valid()
      modifies this`visibility, this`lastCaptureRect
      ensures Valid() && visibility == v
      ensures lastCaptureRect ==
        if v != old(visibility) && v == Visible then None else old(lastCaptureRect)
    {
      if v != visibility {
        visibility := v;
        OnVisibilityChanged(v);
      }
    }

    /** The per-display-frame position update; it re-posts itself only while a renderer exists. */
    method FrameCallback(x: real, y: real) returns (reposted: bool)
      requires Valid()
      modifies renderer
      ensures Valid() && renderer == old(renderer)
      ensures reposted <==> renderer != null
      ensures renderer != null ==> renderer.State() == old(renderer.State()).(viewX := x, viewY := y)
      ensures renderer != null ==> renderer.Parameters() == old(renderer.Parameters())
    {
      reposted := renderer != null;
      if renderer != null {
        renderer.UpdateViewPosition(x, y);
      }
    }

    /**
     * One capture tick. `root` is the activity's decor view (None when there is
     * no activity or window), `box` the view's screen origin and size, `fault`
     * where the snapshot threw, if anywhere. The cache is kept across the tick's
     * own hide/show of the view, so only the hysteresis decision writes it.
     */
    method CaptureBackground(root: Option<RootSize>, box: ViewBox, fault: Fault)
      requires Valid()
      modifies this`lastCaptureRect, this`visibility, renderer
      ensures Valid() && renderer == old(renderer) && Parameters() == old(Parameters())
      ensures root.None? ==> lastCaptureRect == old(lastCaptureRect)
      ensures root.Some? ==>
        lastCaptureRect == CacheAfterTick(old(lastCaptureRect), Decide(old(lastCaptureRect), box, root.value))
      ensures TickStops(old(lastCaptureRect), root, box, fault) ==> visibility == old(visibility)
      ensures TickHidesOnly(old(lastCaptureRect), root, box, fault) ==> visibility == Invisible
      ensures TickUploads(old(lastCaptureRect), root, box, fault) ==> visibility == Visible
      ensures renderer != null ==>
        renderer.State() == old(renderer.State()).(pending :=
          if TickUploads(old(lastCaptureRect), root, box, fault)
          then Some(SceneOf(Decide(old(lastCaptureRect), box, root.value).rect))
          else old(renderer.pending))
      ensures renderer != null ==> renderer.Parameters() == old(renderer.Parameters())
      // the published bitmap is never empty
      ensures renderer != null && TickUploads(old(lastCaptureRect), root, box, fault) ==>
        renderer.pending.Some? && renderer.pending.value.width > 0 && renderer.pending.value.height > 0
    {
      if root.None? {
        return;
      }
      var d := Decide(lastCaptureRect, box, root.value);
      if d.Reject? {
        return;
      }
      var captureRect := d.rect;
      if d.Recompute? {
        lastCaptureRect := Some(captureRect);
      }
      if fault == BitmapFault {
        return;
      }
      var kept := lastCaptureRect;
      SetVisibility(Invisible);
      if fault == DrawFault {
        return;
      }
      SetVisibility(Visible);
      lastCaptureRect := kept;
      if renderer != null {
        renderer.UploadScene(SceneOf(captureRect));
      }
    }

    /**
     * The capture tick as the source has it: showing the view again after the
     * snapshot runs the visibility hook, which empties the cache that the same
     * tick has just filled or reused.
     */
    method CaptureBackgroundAsWritten(root: Option<RootSize>, box: ViewBox, fault: Fault)
      requires Valid()
      modifies this`lastCaptureRect, this`visibility, renderer
      ensures Valid() && renderer == old(renderer) && Parameters() == old(Parameters())
      ensures root.None? ==> lastCaptureRect == old(lastCaptureRect)
      ensures root.Some? ==>
        lastCaptureRect == CacheAfterTickAsWritten(old(lastCaptureRect), Decide(old(lastCaptureRect), box, root.value), fault)
      ensures TickStops(old(lastCaptureRect), root, box, fault) ==> visibility == old(visibility)
      ensures TickHidesOnly(old(lastCaptureRect), root, box, fault) ==> visibility == Invisible
      ensures TickUploads(old(lastCaptureRect), root, box, fault) ==> visibility == Visible
      ensures renderer != null ==>
        renderer.State() == old(renderer.State()).(pending :=
          if TickUploads(old(lastCaptureRect), root, box, fault)
          then Some(SceneOf(Decide(old(lastCaptureRect), box, root.value).rect))
          else old(renderer.pending))
      ensures renderer != null ==> renderer.Parameters() == old(renderer.Parameters())
      // the published bitmap is never empty
      ensures renderer != null && TickUploads(old(lastCaptureRect), root, box, fault) ==>
        renderer.pending.Some? && renderer.pending.value.width > 0 && renderer.pending.value.height > 0
    {
      if root.None? {
        return;
      }
      var d := Decide(lastCaptureRect, box, root.value);
      if d.Reject? {
        return;
      }
      var captureRect := d.rect;
      if d.Recompute? {
        lastCaptureRect := Some(captureRect);
      }
      if fault == BitmapFault {
        return;
      }
      SetVisibility(Invisible);
      if fault == DrawFault {
        return;
      }
      SetVisibility(Visible);
      if renderer != null {
        renderer.UploadScene(SceneOf(captureRect));
      }
    }

    /**
     * The capture loop's step as the source runs it: it stops, without
     * capturing, once the renderer is gone; otherwise it runs one tick (whose
     * own hide/show empties the cache) and reschedules.
     */
    method CaptureLoop(root: Option<RootSize>, box: ViewBox, fault: Fault) returns (rescheduled: bool)
      requires Valid()
      modifies this`lastCaptureRect, this`visibility, renderer
      ensures Valid() && renderer == old(renderer) && Parameters() == old(Parameters())
      ensures rescheduled <==> renderer != null
      ensures renderer == null ==> lastCaptureRect == old(lastCaptureRect) && visibility == old(visibility)
      ensures renderer != null && root.None? ==> lastCaptureRect == old(lastCaptureRect)
      ensures renderer != null && root.Some? ==>
        lastCaptureRect == CacheAfterTickAsWritten(old(lastCaptureRect), Decide(old(lastCaptureRect), box, root.value), fault)
      ensures renderer != null && TickStops(old(lastCaptureRect), root, box, fault) ==> visibility == old(visibility)
      ensures renderer != null && TickHidesOnly(old(lastCaptureRect), root, box, fault) ==> visibility == Invisible
      ensures renderer != null && TickUploads(old(lastCaptureRect), root, box, fault) ==> visibility == Visible
      ensures renderer != null ==>
        renderer.State() == old(renderer.State()).(pending :=
          if TickUploads(old(lastCaptureRect), root, box, fault)
          then Some(SceneOf(Decide(old(lastCaptureRect), box, root.value).rect))
          else old(renderer.pending))
      ensures renderer != null ==> renderer.Parameters() == old(renderer.Parameters())
      // the published bitmap is never empty
      ensures renderer != null && TickUploads(old(lastCaptureRect), root, box, fault) ==>
        renderer.pending.Some? && renderer.pending.value.width > 0 && renderer.pending.value.height > 0
    {
      if renderer == null {
        return false;
      }
      CaptureBackgroundAsWritten(root, box, fault);
      rescheduled := true;
    }

    /**
     * The capture loop's step running the tick that keeps its cache across
     * its own hide/show.
     */
    method CaptureLoopKeepingCache(root: Option<RootSize>, box: ViewBox, fault: Fault) returns (rescheduled: bool)
      requires Valid()
      modifies this`lastCaptureRect, this`visibility, renderer
      ensures Valid() && renderer == old(renderer) && Parameters() == old(Parameters())
      ensures rescheduled <==> renderer != null
      ensures renderer == null ==> lastCaptureRect == old(lastCaptureRect) && visibility == old(visibility)
      ensures renderer != null && root.None? ==> lastCaptureRect == old(lastCaptureRect)
      ensures renderer != null && root.Some? ==>
        lastCaptureRect == CacheAfterTick(old(lastCaptureRect), Decide(old(lastCaptureRect), box, root.value))
      ensures renderer != null && TickStops(old(lastCaptureRect), root, box, fault) ==> visibility == old(visibility)
      ensures renderer != null && TickHidesOnly(old(lastCaptureRect), root, box, fault) ==> visibility == Invisible
      ensures renderer != null && TickUploads(old(lastCaptureRect), root, box, fault) ==> visibility == Visible
      ensures renderer != null ==>
        renderer.State() == old(renderer.State()).(pending :=
          if TickUploads(old(lastCaptureRect), root, box, fault)
          then Some(SceneOf(Decide(old(lastCaptureRect), box, root.value).rect))
          else old(renderer.pending))
      ensures renderer != null ==> renderer.Parameters() == old(renderer.Parameters())
      // the published bitmap is never empty
      ensures renderer != null && TickUploads(old(lastCaptureRect), root, box, fault) ==>
        renderer.pending.Some? && renderer.pending.value.width > 0 && renderer.pending.value.height > 0
    {
      if renderer == null {
        return false;
      }
      CaptureBackground(root, box, fault);
      rescheduled := true;
    }
  }

  /**
   * Hysteresis through the view: a tick at (100,200), 60x40, on a 1080x2400
   * root captures (60,160)-(200,280); after a 10 px move right the next tick
   * reuses that region and publishes a scene with the same origin.
   */
  method SmallMoveKeepsRegion() returns (published: Option<Scene>)
    ensures published == Some(Scene(60, 160, 140, 120))
  {
    var view := new LiquidGlassRangeSliderView();
    view.OnSurfaceTextureAvailable(1080, 2400);
    var root := Some(RootSize(1080, 2400));
    var _ := view.CaptureLoopKeepingCache(root, ViewBox(100, 200, 60, 40), NoFault);
    var _ := view.CaptureLoopKeepingCache(root, ViewBox(110, 200, 60, 40), NoFault);
    published := view.renderer.pending;
  }

  /**
   * The same two ticks as the source runs them: the first tick's own
   * show-again empties the cache, so the second recomputes around the moved
   * view and the published origin follows it.
   */
  method SmallMoveRecomputesAsWritten() returns (published: Option<Scene>)
    ensures published == Some(Scene(70, 160, 140, 120))
  {
    var view := new LiquidGlassRangeSliderView();
    view.OnSurfaceTextureAvailable(1080, 2400);
    var root := Some(RootSize(1080, 2400));
    var _ := view.CaptureLoop(root, ViewBox(100, 200, 60, 40), NoFault);
    var _ := view.CaptureLoop(root, ViewBox(110, 200, 60, 40), NoFault);
    published := view.renderer.pending;
  }
}
