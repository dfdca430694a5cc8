/** The first-generation dialogue manager
    (src/game/managers/DialogueManager.ts): every request replaces the
    current bubble with a normal bubble placed above the anchor with fixed
    screen margins and hidden after four seconds. */
module DialogueV1 {
  import opened Text
  import opened Placement
  import opened Bubble

  /** The fixed margins of the first-generation placement. */
  const MarginBounds := Bounds(120.0, 904.0, 80.0)
  /** Vertical offset used when a request gives none. */
  const DefaultOffsetY: real := -150.0

  /** Where `showDialogue` puts the bubble: the anchor plus the offsets
      (0 and -150 when absent), clamped to x in [120, 904] and y >= 80. */
  function PlaceV1(anchorX: real, anchorY: real, offsetX: Option<real>, offsetY: Option<real>): (r: Point)
    ensures MarginBounds.minX <= r.x <= MarginBounds.maxX && r.y >= MarginBounds.minY
    ensures var tx := anchorX + offsetX.GetOr(0.0);
      && (MarginBounds.minX <= tx <= MarginBounds.maxX ==> r.x == tx)
      && (tx < MarginBounds.minX ==> r.x == MarginBounds.minX)
      && (tx > MarginBounds.maxX ==> r.x == MarginBounds.maxX)
    ensures var ty := anchorY + offsetY.GetOr(DefaultOffsetY);
      (ty >= MarginBounds.minY ==> r.y == ty) && (ty < MarginBounds.minY ==> r.y == MarginBounds.minY)
  {
    var bubbleX := anchorX + offsetX.GetOr(0.0);
    var bubbleY := anchorY + offsetY.GetOr(DefaultOffsetY);
    Point(Max(120.0, Min(bubbleX, 904.0)), Max(80.0, bubbleY))
  }

  /** Without offsets, the first-generation placement is the standing-mode
      placement of `ComputeBubblePosition` with a base offset of -150 and
      the margins as bounds; the bubble's size plays no part in either. */
  lemma PlaceV1IsStandingPlacement(p: Payload, g: Geometry)
    requires p.radius.None? && p.bubbleOffsetX.None? && p.bubbleOffsetY.None?
    ensures PlaceV1(p.x, p.y, None, None) == ComputeBubblePosition(p, g, MarginBounds, DefaultOffsetY)
  {
  }

  class DialogueManager {
    const scene: Scene
    var currentBubble: DialogueBubble?
    /** Subscribed to `show-dialogue`. */
    var listening: bool

    ghost predicate Valid()
      reads this, scene
    {
      scene.Valid() && (currentBubble != null ==> currentBubble.scene == scene)
    }

    constructor (scene: Scene)
      requires scene.Valid()
      ensures Valid() && this.scene == scene && currentBubble == null && listening
    {
      this.scene := scene;
      currentBubble := null;
      listening := true;
    }

    /** Starts the current bubble's fade (no callback) and forgets it. The
        first-generation manager emits no notices. */
    method HideCurrentBubble()
      requires Valid()
      modifies this`currentBubble, scene, currentBubble
      ensures Valid() && currentBubble == null
      ensures scene.notices == old(scene.notices) && scene.now == old(scene.now)
      ensures scene.pending == old(scene.pending)
        + (if old(currentBubble) != null && old(currentBubble.attached)
           then [Pending(old(scene.now) + FadeDuration, FadeTweenEnd(old(currentBubble), NoCallback))] else [])
      ensures old(currentBubble) != null && !old(currentBubble.attached) ==> old(currentBubble).phase == Destroyed
      ensures old(currentBubble) != null && old(currentBubble.attached) ==> old(currentBubble).phase == Fading
    {
      if currentBubble != null {
        var immediate := currentBubble.Hide(NoCallback);
        if immediate {
          currentBubble.Destroy();
        }
        currentBubble := null;
      }
    }

    /** `showDialogue`: replaces the current bubble with a fresh normal
        bubble at `PlaceV1`, shown for the default four seconds. */
    method ShowDialogue(message: string, anchorX: real, anchorY: real,
                        offsetX: Option<real>, offsetY: Option<real>, measure: string -> Size)
      requires Valid()
      modifies this`currentBubble, scene, currentBubble
      ensures Valid()
      ensures currentBubble != null && fresh(currentBubble)
      ensures currentBubble.bubbleType == Normal && currentBubble.attached && currentBubble.phase == Entering
      ensures Point(currentBubble.x, currentBubble.y) == PlaceV1(anchorX, anchorY, offsetX, offsetY)
      ensures currentBubble.size == BubbleSize(measure(message).width, measure(message).height)
      ensures scene.notices == old(scene.notices) && scene.now == old(scene.now)
      ensures old(currentBubble) != null ==>
        old(currentBubble).phase == (if old(currentBubble.attached) then Fading else Destroyed)
      ensures scene.pending == old(scene.pending)
        + (if old(currentBubble) != null && old(currentBubble.attached)
           then [Pending(old(scene.now) + FadeDuration, FadeTweenEnd(old(currentBubble), NoCallback))] else [])
        + [Pending(old(scene.now) + EntryDuration(Normal), EntryTweenEnd(currentBubble)),
           Pending(old(scene.now) + DefaultDuration, AutoHide(currentBubble, NoCallback))]
    {
      HideCurrentBubble();
      var pos := PlaceV1(anchorX, anchorY, offsetX, offsetY);
      var text := measure(message);
      var b := new DialogueBubble(scene, pos.x, pos.y, text.width, text.height, Normal);
      currentBubble := b;
      b.Show(DefaultDuration, NoCallback);
    }

    /** The `show-dialogue` listener: forwards name, message, anchor and
        offsets while subscribed; an absent message is laid out as empty
        text. */
    method OnShowDialogueEvent(payload: Payload, measure: string -> Size)
      requires Valid()
      modifies this`currentBubble, scene, currentBubble
      ensures Valid()
      ensures !listening ==>
        && currentBubble == old(currentBubble) && scene.pending == old(scene.pending)
        && (old(currentBubble) != null ==>
              old(currentBubble).phase == old(currentBubble.phase) && old(currentBubble).attached == old(currentBubble.attached))
      ensures listening ==>
        && currentBubble != null && fresh(currentBubble)
        && (old(currentBubble) != null ==>
              old(currentBubble).phase == (if old(currentBubble.attached) then Fading else Destroyed))
        && Point(currentBubble.x, currentBubble.y) == PlaceV1(payload.x, payload.y, payload.bubbleOffsetX, payload.bubbleOffsetY)
        && currentBubble.bubbleType == Normal && currentBubble.attached && currentBubble.phase == Entering
        && currentBubble.size == BubbleSize(measure(payload.message.GetOr("")).width, measure(payload.message.GetOr("")).height)
        && scene.pending == old(scene.pending)
          + (if old(currentBubble) != null && old(currentBubble.attached)
             then [Pending(old(scene.now) + FadeDuration, FadeTweenEnd(old(currentBubble), NoCallback))] else [])
          + [Pending(old(scene.now) + EntryDuration(Normal), EntryTweenEnd(currentBubble)),
             Pending(old(scene.now) + DefaultDuration, AutoHide(currentBubble, NoCallback))]
      ensures scene.notices == old(scene.notices) && scene.now == old(scene.now)
    {
      if listening {
        ShowDialogue(payload.message.GetOr(""), payload.x, payload.y, payload.bubbleOffsetX, payload.bubbleOffsetY, measure);
      }
    }

    /** `destroy`: hides the current bubble as `hideCurrentBubble` does
        and stops listening. */
    method Destroy()
      requires Valid()
      modifies this, scene, currentBubble
      ensures Valid() && currentBubble == null && !listening
      ensures scene.notices == old(scene.notices) && scene.now == old(scene.now)
      ensures scene.pending == old(scene.pending)
        + (if old(currentBubble) != null && old(currentBubble.attached)
           then [Pending(old(scene.now) + FadeDuration, FadeTweenEnd(old(currentBubble), NoCallback))] else [])
      ensures old(currentBubble) != null && !old(currentBubble.attached) ==> old(currentBubble).phase == Destroyed
      ensures old(currentBubble) != null && old(currentBubble.attached) ==> old(currentBubble).phase == Fading
    {
      HideCurrentBubble();
      listening := false;
    }
  }
}
