/** The letterbox transform shared by both office scenes
    (src/game/scenes/Game.ts and src/game/scenes/GameV2.ts): the background
    image is scaled to fit the viewport, centred, and every hotspot given
    in image ("data") coordinates is mapped into world coordinates. */
module Letterbox {
  import opened Text
  import opened Placement

  /** What `configureBackgroundLayout` stores: the fit scale, the per-axis
      scales, the centring offsets and the displayed size. */
  datatype Fit = Fit(
    scale: real, scaleX: real, scaleY: real,
    offsetX: real, offsetY: real,
    displayWidth: real, displayHeight: real)

  /** The part of the stored layout the data-to-world mapping reads. */
  datatype Layout = Layout(scaleX: real, scaleY: real, offsetX: real, offsetY: real)

  /** `HotspotNPC`: a round-table NPC in data coordinates. */
  datatype HotspotNpc = HotspotNpc(
    id: string, name: string, dialogue: string,
    x: real, y: real, radius: real,
    bubbleOffsetX: Option<real>, bubbleOffsetY: Option<real>, bubbleGap: Option<real>)

  /** A hotspot's world-space circle and bubble offsets. */
  datatype World = World(
    x: real, y: real, radius: real,
    bubbleOffsetX: Option<real>, bubbleOffsetY: Option<real>, bubbleGap: Option<real>)

  function FitOf(f: Fit): Layout {
    Layout(f.scaleX, f.scaleY, f.offsetX, f.offsetY)
  }

  /** The fit of a natural-size image into a viewport: the image keeps its
      aspect ratio, fits inside the viewport with equality on at least one
      axis, and is centred on both axes. */
  function FitLayout(gameWidth: real, gameHeight: real, naturalWidth: real, naturalHeight: real): (r: Fit)
    requires naturalWidth > 0.0 && naturalHeight > 0.0
    ensures r.displayWidth == naturalWidth * r.scale && r.displayHeight == naturalHeight * r.scale
    ensures r.displayWidth <= gameWidth && r.displayHeight <= gameHeight
    ensures r.displayWidth == gameWidth || r.displayHeight == gameHeight
    ensures 2.0 * r.offsetX + r.displayWidth == gameWidth
    ensures 2.0 * r.offsetY + r.displayHeight == gameHeight
    ensures r.scaleX == r.scale && r.scaleY == r.scale
  {
    var fitScale := Min(gameWidth / naturalWidth, gameHeight / naturalHeight);
    var displayWidth := naturalWidth * fitScale;
    var displayHeight := naturalHeight * fitScale;
    Fit(fitScale, displayWidth / naturalWidth, displayHeight / naturalHeight,
        (gameWidth - displayWidth) / 2.0, (gameHeight - displayHeight) / 2.0,
        displayWidth, displayHeight)
  }

  /** No larger scale fits the image into the viewport. */
  lemma FitScaleIsLargest(gameWidth: real, gameHeight: real, naturalWidth: real, naturalHeight: real, s: real)
    requires naturalWidth > 0.0 && naturalHeight > 0.0
    requires naturalWidth * s <= gameWidth && naturalHeight * s <= gameHeight
    ensures s <= FitLayout(gameWidth, gameHeight, naturalWidth, naturalHeight).scale
  {
    var r := FitLayout(gameWidth, gameHeight, naturalWidth, naturalHeight);
    if r.displayWidth == gameWidth {
      assert naturalWidth * s <= naturalWidth * r.scale;
    } else {
      assert naturalHeight * s <= naturalHeight * r.scale;
    }
  }

  /** The `|| 1` fallback: a zero scale is replaced by 1. */
  function ScaleOr1(s: real): (r: real)
    ensures r != 0.0
    ensures s != 0.0 ==> r == s
    ensures s >= 0.0 ==> r > 0.0
  {
    if s == 0.0 then 1.0 else s
  }

  /** `dataToWorldX` / `dataToWorldY` on one axis. */
  function DataToWorld(v: real, scale: real, offset: real): real {
    v * ScaleOr1(scale) + offset
  }

  /** The inverse mapping, from a world coordinate back to the image. */
  function WorldToData(w: real, scale: real, offset: real): real {
    (w - offset) / ScaleOr1(scale)
  }

  /** The mapping is a bijection on every axis for every stored scale,
      zero included. */
  lemma DataWorldRoundTrip(v: real, w: real, scale: real, offset: real)
    ensures WorldToData(DataToWorld(v, scale, offset), scale, offset) == v
    ensures DataToWorld(WorldToData(w, scale, offset), scale, offset) == w
  {
    var s := ScaleOr1(scale);
    assert (v * s + offset - offset) / s == v * s / s;
  }

  /** For a non-negative scale the mapping is strictly increasing, so it
      keeps the order of positions along each axis. */
  lemma DataToWorldIncreasing(u: real, v: real, scale: real, offset: real)
    requires scale >= 0.0 && u < v
    ensures DataToWorld(u, scale, offset) < DataToWorld(v, scale, offset)
  {
    var s := ScaleOr1(scale);
    assert (v - u) * s > 0.0;
  }

  /** `transformNpcCoordinates`: the centre goes through `DataToWorld`; the
      radius and the gap scale by the larger axis scale, each offset by
      its own axis scale; an absent offset or gap stays absent. */
  function TransformNpc(npc: HotspotNpc, l: Layout): (r: World)
    ensures r.x == DataToWorld(npc.x, l.scaleX, l.offsetX) && r.y == DataToWorld(npc.y, l.scaleY, l.offsetY)
    ensures r.radius == npc.radius * Max(ScaleOr1(l.scaleX), ScaleOr1(l.scaleY))
    ensures r.bubbleOffsetX.Some? <==> npc.bubbleOffsetX.Some?
    ensures r.bubbleOffsetY.Some? <==> npc.bubbleOffsetY.Some?
    ensures r.bubbleGap.Some? <==> npc.bubbleGap.Some?
    ensures npc.bubbleOffsetX.Some? ==> r.bubbleOffsetX.value == npc.bubbleOffsetX.value * ScaleOr1(l.scaleX)
    ensures npc.bubbleOffsetY.Some? ==> r.bubbleOffsetY.value == npc.bubbleOffsetY.value * ScaleOr1(l.scaleY)
    ensures npc.bubbleGap.Some? ==> r.bubbleGap.value == npc.bubbleGap.value * Max(ScaleOr1(l.scaleX), ScaleOr1(l.scaleY))
  {
    var sx := ScaleOr1(l.scaleX);
    var sy := ScaleOr1(l.scaleY);
    World(
      DataToWorld(npc.x, l.scaleX, l.offsetX),
      DataToWorld(npc.y, l.scaleY, l.offsetY),
      npc.radius * Max(sx, sy),
      if npc.bubbleOffsetX.Some? then Some(npc.bubbleOffsetX.value * sx) else None,
      if npc.bubbleOffsetY.Some? then Some(npc.bubbleOffsetY.value * sy) else None,
      if npc.bubbleGap.Some? then Some(npc.bubbleGap.value * Max(sx, sy)) else None)
  }

  /** The untouched default layout (scales 1, offsets 0) leaves every
      hotspot where the data puts it. */
  lemma DefaultLayoutIsIdentity(npc: HotspotNpc)
    ensures TransformNpc(npc, Layout(1.0, 1.0, 0.0, 0.0))
         == World(npc.x, npc.y, npc.radius, npc.bubbleOffsetX, npc.bubbleOffsetY, npc.bubbleGap)
  {
    var l := Layout(1.0, 1.0, 0.0, 0.0);
    assert ScaleOr1(l.scaleX) == 1.0 && ScaleOr1(l.scaleY) == 1.0;
    assert Max(ScaleOr1(l.scaleX), ScaleOr1(l.scaleY)) == 1.0;
    var w := TransformNpc(npc, l);
    SameOptionalValue(w.bubbleOffsetX, npc.bubbleOffsetX);
    SameOptionalValue(w.bubbleOffsetY, npc.bubbleOffsetY);
    SameOptionalValue(w.bubbleGap, npc.bubbleGap);
  }

  /** Two optional values present together and equal when present are
      the same value. */
  lemma SameOptionalValue(a: Option<real>, b: Option<real>)
    requires a.Some? <==> b.Some?
    requires a.Some? ==> a.value == b.value * 1.0
    ensures a == b
  {
    match a {
      case None =>
      case Some(v) => assert v == b.value;
    }
  }

  /** The point (px, py) lies in the closed circle of radius r around
      (cx, cy), the hit test of a circular zone. */
  predicate InCircle(cx: real, cy: real, r: real, px: real, py: real) {
    (px - cx) * (px - cx) + (py - cy) * (py - cy) <= r * r
  }

  /** Under a fit layout (equal positive scales) a point inside a
      hotspot's data circle lands inside its world circle, and a point
      outside it lands outside: the hit area follows the image. */
  lemma FitKeepsHitArea(npc: HotspotNpc, f: Fit, px: real, py: real)
    requires f.scaleX == f.scaleY && f.scaleX > 0.0
    ensures var w := TransformNpc(npc, FitOf(f));
      InCircle(w.x, w.y, w.radius, DataToWorld(px, f.scaleX, f.offsetX), DataToWorld(py, f.scaleY, f.offsetY))
      == InCircle(npc.x, npc.y, npc.radius, px, py)
  {
    var s := f.scaleX;
    var w := TransformNpc(npc, FitOf(f));
    assert w.x == npc.x * s + f.offsetX && w.y == npc.y * s + f.offsetY && w.radius == npc.radius * s;
    InCircleScaled(npc.x, npc.y, npc.radius, px, py, s, f.offsetX, f.offsetY);
  }

  /** Scaling every coordinate and the radius by the same positive factor
      and shifting them keeps a point on the same side of the circle. */
  lemma InCircleScaled(cx: real, cy: real, r: real, px: real, py: real, s: real, ox: real, oy: real)
    requires s > 0.0
    ensures InCircle(cx * s + ox, cy * s + oy, r * s, px * s + ox, py * s + oy) == InCircle(cx, cy, r, px, py)
  {
    var dx, dy := px - cx, py - cy;
    assert (px * s + ox) - (cx * s + ox) == dx * s;
    assert (py * s + oy) - (cy * s + oy) == dy * s;
    CircleScaled(dx, dy, r, s);
  }

  lemma CircleScaled(dx: real, dy: real, r: real, s: real)
    requires s > 0.0
    ensures ((dx * s) * (dx * s) + (dy * s) * (dy * s) <= (r * s) * (r * s)) == (dx * dx + dy * dy <= r * r)
  {
    assert (dx * s) * (dx * s) + (dy * s) * (dy * s) == s * s * (dx * dx + dy * dy);
    assert (r * s) * (r * s) == s * s * (r * r);
    ScaleComparison(dx * dx + dy * dy, r * r, s);
  }

  lemma ScaleComparison(a: real, b: real, s: real)
    requires s > 0.0
    ensures (s * s * a <= s * s * b) == (a <= b)
  {
  }
}
