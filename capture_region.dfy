/**
 * The capture-region policy of the liquid-glass view: each capture tick either
 * reuses the cached region (hysteresis) or pads the view's box by 40 px,
 * clamps it to the root view, and rejects a region without area.
 * Everything here is integer geometry in root-view pixels.
 */
module CaptureRegion {
  import opened Optional

  /** An android.graphics.Rect; `right` and `bottom` are exclusive. */
  datatype Rect = Rect(left: int, top: int, right: int, bottom: int) {
    function Width(): int { right - left }
    function Height(): int { bottom - top }
  }

  /** The view's on-screen origin with its (never negative) width and height. */
  datatype ViewBox = ViewBox(x: int, y: int, w: nat, h: nat)

  /** The root (decor) view's size. */
  datatype RootSize = RootSize(width: nat, height: nat)

  /** What one tick does with the region. */
  datatype Decision =
    | Reuse(rect: Rect)       // the cached region still covers the view
    | Recompute(rect: Rect)   // a freshly padded and clamped region
    | Reject                  // the fresh region has no area: the tick returns early

  /** Why a tick that got past the geometry stopped before uploading. */
  datatype Fault =
    | NoFault
    | BitmapFault   // Bitmap.createBitmap threw, before the view was hidden
    | DrawFault     // rootView.draw threw, after the view was hidden

  const Pad: int := 40
  const SafeMargin: int := 20

  /** The four hysteresis checks: the view lies SafeMargin inside `r` on every side. */
  predicate FitsWithMargin(r: Rect, v: ViewBox) {
    v.x >= r.left + SafeMargin &&
    v.y >= r.top + SafeMargin &&
    v.x + v.w <= r.right - SafeMargin &&
    v.y + v.h <= r.bottom - SafeMargin
  }

  predicate Contains(r: Rect, v: ViewBox) {
    r.left <= v.x && r.top <= v.y && v.x + v.w <= r.right && v.y + v.h <= r.bottom
  }

  predicate InsideRoot(v: ViewBox, root: RootSize) {
    0 <= v.x && 0 <= v.y && v.x + v.w <= root.width && v.y + v.h <= root.height
  }

  /** The view is at least Pad away from every edge of the root. */
  predicate AwayFromEdges(v: ViewBox, root: RootSize) {
    Pad <= v.x && Pad <= v.y && v.x + v.w + Pad <= root.width && v.y + v.h + Pad <= root.height
  }

  predicate HasArea(r: Rect) {
    r.Width() > 0 && r.Height() > 0
  }

  /** Every cached region has area (the tick stores only regions that passed the area check). */
  predicate CacheHasArea(cache: Option<Rect>) {
    cache.Some? ==> HasArea(cache.value)
  }

  /**
   * The recomputed region: a box of the padded size (w + 80) x (h + 80) whose
   * origin is the padded origin moved to be non-negative, cut at the root's
   * right and bottom edges.
   */
  function PaddedRect(v: ViewBox, root: RootSize): (r: Rect)
    // the origin is the padded origin, or 0 where that is negative
    ensures r.left >= 0 && r.left >= v.x - Pad && (r.left == 0 || r.left == v.x - Pad)
    ensures r.top >= 0 && r.top >= v.y - Pad && (r.top == 0 || r.top == v.y - Pad)
    // never larger than the padded box, and exactly that size unless cut by the root
    ensures r.Width() <= v.w + 2 * Pad && (r.Width() == v.w + 2 * Pad || r.right == root.width)
    ensures r.Height() <= v.h + 2 * Pad && (r.Height() == v.h + 2 * Pad || r.bottom == root.height)
    // never beyond the root's extent
    ensures r.right <= root.width && r.bottom <= root.height
    // covers the whole view whenever the view is on the root
    ensures InsideRoot(v, root) ==> Contains(r, v)
    // away from the edges, exactly the view padded by 40 px on every side
    ensures AwayFromEdges(v, root) ==> r == Rect(v.x - Pad, v.y - Pad, v.x + v.w + Pad, v.y + v.h + Pad)
  {
    var cX := if v.x - Pad < 0 then 0 else v.x - Pad;
    var cY := if v.y - Pad < 0 then 0 else v.y - Pad;
    var cW := if v.w + Pad * 2 > root.width - cX then root.width - cX else v.w + Pad * 2;
    var cH := if v.h + Pad * 2 > root.height - cY then root.height - cY else v.h + Pad * 2;
    Rect(cX, cY, cX + cW, cY + cH)
  }

  /**
   * One tick's hysteresis decision: reuse the cached region when the view still
   * fits inside it with the safety margin, otherwise recompute, and reject a
   * recomputed region without area.
   */
  function Decide(existing: Option<Rect>, v: ViewBox, root: RootSize): (d: Decision)
    ensures d.Reuse? <==> existing.Some? && FitsWithMargin(existing.value, v)
    ensures d.Reuse? ==> d.rect == existing.value
    ensures d.Recompute? ==> d.rect == PaddedRect(v, root) && HasArea(d.rect)
    // rejected exactly when the cache does not apply and the padded origin lies
    // at or beyond the root's extent (an empty root included)
    ensures d.Reject? <==>
      !(existing.Some? && FitsWithMargin(existing.value, v)) &&
      (root.width <= v.x - Pad || root.height <= v.y - Pad || root.width == 0 || root.height == 0)
  {
    if existing.Some? && FitsWithMargin(existing.value, v) then
      Reuse(existing.value)
    else
      var r := PaddedRect(v, root);
      if r.Width() <= 0 || r.Height() <= 0 then Reject else Recompute(r)
  }

  /**
   * The cached region once a tick has decided, when nothing but the tick
   * writes the cache: a recompute is stored, a reuse or a rejection keeps it.
   */
  function CacheAfterTick(existing: Option<Rect>, d: Decision): (c: Option<Rect>)
    ensures d.Reject? ==> c == existing
    ensures d.Recompute? ==> c == Some(d.rect)
    ensures d.Reuse? ==> c == existing
  {
    match d
    case Recompute(r) => Some(r)
    case _ => existing
  }

  /**
   * The cached region after a tick as the source runs it: a tick that gets
   * through the snapshot hides and then shows the view itself, and showing it
   * runs the visibility hook, which empties the cache.
   */
  function CacheAfterTickAsWritten(existing: Option<Rect>, d: Decision, fault: Fault): (c: Option<Rect>)
    ensures d.Reject? ==> c == existing
    ensures !d.Reject? && fault == NoFault ==> c == None
    ensures !d.Reject? && fault != NoFault ==> c == CacheAfterTick(existing, d)
  {
    if d.Reject? then existing
    else if fault == NoFault then None
    else CacheAfterTick(existing, d)
  }

  /** The cache after a run of capture ticks at the given view boxes. */
  function RunTicks(cache: Option<Rect>, moves: seq<ViewBox>, root: RootSize): (c: Option<Rect>)
    ensures CacheHasArea(cache) ==> CacheHasArea(c)
    decreases |moves|
  {
    if moves == [] then cache
    else RunTicks(CacheAfterTick(cache, Decide(cache, moves[0], root)), moves[1..], root)
  }

  /**
   * Hysteresis invariant: while every move keeps the view SafeMargin inside the
   * cached region, the region does not change.
   */
  lemma {:induction false} HysteresisHoldsOverMoves(r: Rect, moves: seq<ViewBox>, root: RootSize)
    requires forall i :: 0 <= i < |moves| ==> FitsWithMargin(r, moves[i])
    ensures RunTicks(Some(r), moves, root) == Some(r)
    decreases |moves|
  {
    if moves != [] {
      assert FitsWithMargin(r, moves[0]);
      assert forall i :: 0 <= i < |moves[1..]| ==> moves[1..][i] == moves[i + 1];
      HysteresisHoldsOverMoves(r, moves[1..], root);
    }
  }

  /**
   * A region recomputed for a view that is at least SafeMargin inside the root
   * is reused by the next tick if the view has not moved.
   */
  lemma RecomputedRegionIsReused(existing: Option<Rect>, v: ViewBox, root: RootSize)
    requires SafeMargin <= v.x && SafeMargin <= v.y
    requires v.x + v.w + SafeMargin <= root.width && v.y + v.h + SafeMargin <= root.height
    requires Decide(existing, v, root).Recompute?
    ensures Decide(CacheAfterTick(existing, Decide(existing, v, root)), v, root)
      == Reuse(PaddedRect(v, root))
  {
  }

  /** After an invalidation (an empty cache) the next tick never reuses, whatever the view's position. */
  lemma InvalidatedCacheForcesRecompute(v: ViewBox, root: RootSize)
    ensures !Decide(None, v, root).Reuse?
    ensures InsideRoot(v, root) && root.width > 0 && root.height > 0 ==>
      Decide(None, v, root) == Recompute(PaddedRect(v, root))
  {
  }

  /**
   * An example: region (40,140)-(240,300); a view at (135,200) of size 60x40
   * keeps it, and at (170,200) its right side is only 10 px from the region's,
   * so the region becomes (130,160)-(270,280).
   */
  lemma RightEdgeMarginScenario()
    ensures Decide(Some(Rect(40, 140, 240, 300)), ViewBox(135, 200, 60, 40), RootSize(1080, 2400))
      == Reuse(Rect(40, 140, 240, 300))
    ensures Decide(Some(Rect(40, 140, 240, 300)), ViewBox(170, 200, 60, 40), RootSize(1080, 2400))
      == Recompute(Rect(130, 160, 270, 280))
  {
  }

  /**
   * The reuse test looks only at the view and the cached region, never at the
   * root: after the root shrinks, a cached region reaching beyond it is still
   * reused (here a 100x100 root and a region ending at (240,300)).
   */
  lemma ReusedRegionNotCheckedAgainstRoot()
    ensures Decide(Some(Rect(40, 140, 240, 300)), ViewBox(135, 200, 60, 40), RootSize(100, 100))
      == Reuse(Rect(40, 140, 240, 300))
    // the reused region breaks the bound PaddedRect guarantees for a recomputed one
    ensures var r := Decide(Some(Rect(40, 140, 240, 300)), ViewBox(135, 200, 60, 40), RootSize(100, 100)).rect;
      r.right > 100 && r.bottom > 100
  {
  }

  /**
   * As written, a tick that completes leaves nothing cached, so the following
   * tick can never take the reuse branch, wherever the view is.
   */
  lemma AsWrittenNeverReusesAfterCompletedTick(existing: Option<Rect>, v: ViewBox, next: ViewBox, root: RootSize)
    requires !Decide(existing, v, root).Reject?
    ensures !Decide(CacheAfterTickAsWritten(existing, Decide(existing, v, root), NoFault), next, root).Reuse?
  {
  }

  /**
   * The concrete discrepancy: two ticks with the view standing still at
   * (100,200), 60x40, on a 1080x2400 root. As written the second tick
   * recomputes the region; with the cache kept it reuses it.
   */
  lemma AsWrittenRecapturesStandingView()
    ensures Decide(None, ViewBox(100, 200, 60, 40), RootSize(1080, 2400))
      == Recompute(Rect(60, 160, 200, 280))
    ensures Decide(CacheAfterTickAsWritten(None, Recompute(Rect(60, 160, 200, 280)), NoFault),
                   ViewBox(100, 200, 60, 40), RootSize(1080, 2400))
      == Recompute(Rect(60, 160, 200, 280))
    ensures Decide(CacheAfterTick(None, Recompute(Rect(60, 160, 200, 280))),
                   ViewBox(100, 200, 60, 40), RootSize(1080, 2400))
      == Reuse(Rect(60, 160, 200, 280))
  {
  }
}
