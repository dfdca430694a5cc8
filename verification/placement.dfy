/** Where a dialogue bubble goes (src/game/utils/DialogueUtils.ts): a
    hotspot anchor puts the bubble's tail just outside the circle, a
    standing anchor uses the configured head offset, and the result is
    clamped to the configured screen margins. The configuration values
    themselves are parameters. */
module Placement {
  import opened Text

  /** The request a click emits (`DialogueEventPayload`); every optional
      field of the source is an `Option`. `x`, `y` are world coordinates. */
  datatype Payload = Payload(
    npcId: Option<string>,
    name: string,
    message: Option<string>,
    x: real,
    y: real,
    radius: Option<real>,
    bubbleOffsetX: Option<real>,
    bubbleOffsetY: Option<real>,
    bubbleGap: Option<real>)

  /** The measured bubble, known only after its text was laid out. */
  datatype Geometry = Geometry(height: real, tailSize: real)

  /** `DialogueBoundsConfig`. */
  datatype Bounds = Bounds(minX: real, maxX: real, minY: real)

  datatype Point = Point(x: real, y: real)

  /** Gap between hotspot circle and tail tip when the payload gives none. */
  const DefaultHotspotGap: real := 12.0

  function Max(a: real, b: real): real { if a >= b then a else b }
  function Min(a: real, b: real): real { if a <= b then a else b }

  /** `resolveStandingBubbleOffset`: the configured standing offset plus an
      extra offset that defaults to 0. */
  function ResolveStandingBubbleOffset(baseOffsetY: real, extraOffset: Option<real>): (r: real)
    ensures extraOffset.None? ==> r == baseOffsetY
    ensures r - baseOffsetY == extraOffset.GetOr(0.0)
  {
    baseOffsetY + extraOffset.GetOr(0.0)
  }

  /** Unclamped vertical target. A radius that is present, zero included,
      selects hotspot mode. */
  function TargetY(p: Payload, g: Geometry, baseOffsetY: real): real {
    if p.radius.Some? then
      p.y - p.radius.value - g.tailSize - g.height / 2.0 - p.bubbleGap.GetOr(DefaultHotspotGap)
        + p.bubbleOffsetY.GetOr(0.0)
    else
      p.y + ResolveStandingBubbleOffset(baseOffsetY, None) + p.bubbleOffsetY.GetOr(0.0)
  }

  /** Unclamped horizontal target, the same in both modes. */
  function TargetX(p: Payload): real {
    p.x + p.bubbleOffsetX.GetOr(0.0)
  }

  /** `computeBubblePosition`: the target clamped to the bounds. The
      horizontal clamp takes the lower bound last, so a bound pair with
      minX > maxX yields minX. */
  function ComputeBubblePosition(p: Payload, g: Geometry, bounds: Bounds, baseOffsetY: real): (r: Point)
    ensures r.x >= bounds.minX
    ensures bounds.minX <= bounds.maxX ==> r.x <= bounds.maxX
    ensures bounds.minX <= TargetX(p) <= bounds.maxX ==> r.x == TargetX(p)
    ensures TargetX(p) < bounds.minX ==> r.x == bounds.minX
    ensures bounds.minX <= bounds.maxX < TargetX(p) ==> r.x == bounds.maxX
    ensures r.y >= bounds.minY
    ensures r.y == TargetY(p, g, baseOffsetY) || r.y == bounds.minY
    ensures TargetY(p, g, baseOffsetY) >= bounds.minY ==> r.y == TargetY(p, g, baseOffsetY)
  {
    Point(Max(bounds.minX, Min(TargetX(p), bounds.maxX)), Max(bounds.minY, TargetY(p, g, baseOffsetY)))
  }

  /** In standing mode the bubble's measured size and any gap play no part. */
  lemma StandingIgnoresGeometry(p: Payload, g1: Geometry, g2: Geometry, gap: Option<real>, bounds: Bounds, base: real)
    requires p.radius.None?
    ensures ComputeBubblePosition(p, g1, bounds, base)
         == ComputeBubblePosition(p.(bubbleGap := gap), g2, bounds, base)
    ensures TargetY(p, g1, base) == p.y + base + p.bubbleOffsetY.GetOr(0.0)
  {
  }

  /** The horizontal result depends only on the anchor x, the x offset and
      the bounds: switching mode, moving the anchor vertically or changing
      any vertical input leaves it alone. */
  lemma XIndependentOfMode(p: Payload, q: Payload, g1: Geometry, g2: Geometry, bounds: Bounds, b1: real, b2: real)
    requires p.x == q.x && p.bubbleOffsetX == q.bubbleOffsetX
    ensures ComputeBubblePosition(p, g1, bounds, b1).x == ComputeBubblePosition(q, g2, bounds, b2).x
  {
  }

  /** In hotspot mode a larger radius, tail, bubble or gap never moves the
      bubble down. */
  lemma HotspotMonotone(p: Payload, q: Payload, g1: Geometry, g2: Geometry, bounds: Bounds, base: real)
    requires p.radius.Some? && q.radius.Some?
    requires p.x == q.x && p.y == q.y && p.bubbleOffsetX == q.bubbleOffsetX && p.bubbleOffsetY == q.bubbleOffsetY
    requires p.radius.value <= q.radius.value
    requires g1.tailSize <= g2.tailSize && g1.height <= g2.height
    requires p.bubbleGap.GetOr(DefaultHotspotGap) <= q.bubbleGap.GetOr(DefaultHotspotGap)
    ensures ComputeBubblePosition(q, g2, bounds, base).y <= ComputeBubblePosition(p, g1, bounds, base).y
  {
  }

  /** The worked example: anchor (500, 500), radius 40, height 60, tail 12,
      gap 12, no offsets gives (500, 406). A radius of 0 is still a
      number, so it too selects hotspot mode: the bubble sits at 446,
      whatever the standing base offset is. */
  lemma HotspotExample(bounds: Bounds, base: real)
    requires bounds.minY <= 406.0 && bounds.minX <= 500.0 <= bounds.maxX
    ensures var p := Payload(Some("lee"), "Lee", None, 500.0, 500.0, Some(40.0), None, Some(0.0), Some(12.0));
            ComputeBubblePosition(p, Geometry(60.0, 12.0), bounds, base) == Point(500.0, 406.0)
    ensures var p := Payload(Some("lee"), "Lee", None, 500.0, 500.0, Some(0.0), None, Some(0.0), Some(12.0));
            ComputeBubblePosition(p, Geometry(60.0, 12.0), bounds, base) == Point(500.0, 446.0)
  {
    var g := Geometry(60.0, 12.0);
    var p := Payload(Some("lee"), "Lee", None, 500.0, 500.0, Some(40.0), None, Some(0.0), Some(12.0));
    var q := p.(radius := Some(0.0));
    assert TargetX(p) == 500.0 && TargetX(q) == 500.0;
    assert TargetY(p, g, base) == 406.0;
    assert TargetY(q, g, base) == 446.0;
    var r, r0 := ComputeBubblePosition(p, g, bounds, base), ComputeBubblePosition(q, g, bounds, base);
    assert r.x == 500.0 && r.y == 406.0 && r0.x == 500.0 && r0.y == 446.0;
  }
}
