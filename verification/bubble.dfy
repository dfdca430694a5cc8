/** A speech bubble and the scene clock it schedules on
    (src/game/objects/DialogueBubble.ts). Drawing is abstracted away: a
    bubble keeps its measured size, its position, whether it is still
    attached to the scene, and where it is in its show/hide lifecycle.
    Tweens and delayed calls are explicit pending actions on the scene
    clock; `Fire` performs the one that is due. */
module Bubble {

  datatype BubbleType = Normal | Thought

  /** The function a bubble calls once it has hidden. `ClearOwner` is the
      closure the V2 dialogue manager passes; it reads the manager's state
      at the moment it runs, so it carries nothing. */
  datatype HideCallback = NoCallback | ClearOwner

  datatype Phase = Constructed | Entering | Visible | Fading | Destroyed

  /** What a scheduled timer or tween does when it completes. */
  datatype Action =
    | EntryTweenEnd(target: DialogueBubble)
    | AutoHide(target: DialogueBubble, callback: HideCallback)
    | FadeTweenEnd(target: DialogueBubble, callback: HideCallback)

  datatype Pending = Pending(due: int, action: Action)

  /** Scene events the dialogue managers emit for the name labels. */
  datatype Notice = DialogueShown(npcId: string) | DialogueHidden(npcId: string)

  const Padding: real := 12.0
  const TailSize: real := 12.0
  const MinWidth: real := 80.0
  /** `show`'s duration when none is given. */
  const DefaultDuration: nat := 4000
  /** Length of the fade-out tween that `hide` starts. */
  const FadeDuration: nat := 150

  /** Length of the entry tween: slow and soft for a thought, a quick pop
      for normal speech. */
  function EntryDuration(t: BubbleType): (d: nat)
    ensures t == Thought ==> d == 800
    ensures t == Normal ==> d == 200
  {
    match t
    case Thought => 800
    case Normal => 200
  }

  datatype Size = Size(width: real, height: real)

  /** The bubble around a laid-out text: padding on every side and a
      minimum width; the same for both bubble types. */
  function BubbleSize(textWidth: real, textHeight: real): (s: Size)
    ensures s.width >= MinWidth && s.width >= textWidth + 2.0 * Padding
    ensures s.width == textWidth + 2.0 * Padding || s.width == MinWidth
    ensures s.height - textHeight == 2.0 * Padding
  {
    var w := textWidth + Padding * 2.0;
    Size(if w >= MinWidth then w else MinWidth, textHeight + Padding * 2.0)
  }

  /** pending[i] is due no later than any other pending action. */
  predicate IsNextDue(pending: seq<Pending>, i: nat) {
    i < |pending| && forall j :: 0 <= j < |pending| ==> pending[i].due <= pending[j].due
  }

  function Without(pending: seq<Pending>, i: nat): (r: seq<Pending>)
    requires i < |pending|
    ensures |r| == |pending| - 1
    ensures forall p :: p in r ==> p in pending
  {
    pending[..i] + pending[i + 1..]
  }

  /** The scene's clock (time in ms), its pending timers and tweens, and
      the log of dialogue notices emitted on its event bus. */
  class Scene {
    var now: int
    var pending: seq<Pending>
    var notices: seq<Notice>

    ghost predicate Valid()
      reads this
    {
      forall p :: p in pending ==> p.due >= now && p.action.target.scene == this
    }

    /** Every bubble some pending action refers to. */
    ghost function Bubbles(): set<DialogueBubble>
      reads this
    {
      set p | p in pending :: p.action.target
    }

    constructor ()
      ensures Valid()
      ensures now == 0 && pending == [] && notices == []
    {
      now := 0;
      pending := [];
      notices := [];
    }

    method Schedule(delay: nat, a: Action)
      requires Valid() && a.target.scene == this
      modifies this
      ensures Valid()
      ensures pending == old(pending) + [Pending(now + delay, a)]
      ensures now == old(now) && notices == old(notices)
    {
      pending := pending + [Pending(now + delay, a)];
    }

    method Emit(n: Notice)
      modifies this
      ensures notices == old(notices) + [n]
      ensures now == old(now) && pending == old(pending)
    {
      notices := notices + [n];
    }

    /** Time passes up to t without reaching any pending deadline. */
    method AdvanceTo(t: int)
      requires Valid() && now <= t
      requires forall p :: p in pending ==> t <= p.due
      modifies this
      ensures Valid()
      ensures now == t && pending == old(pending) && notices == old(notices)
    {
      now := t;
    }
  }

  class DialogueBubble {
    const scene: Scene
    const bubbleType: BubbleType
    const size: Size
    var x: real
    var y: real
    /** `this.scene` is still set; Phaser clears it on destroy. */
    var attached: bool
    var phase: Phase

    /** Lays out the message (measured as textWidth by textHeight) and
        sizes the bubble around it. */
    constructor (scene: Scene, x: real, y: real, textWidth: real, textHeight: real, t: BubbleType)
      ensures this.scene == scene && bubbleType == t
      ensures size == BubbleSize(textWidth, textHeight)
      ensures this.x == x && this.y == y
      ensures attached && phase == Constructed
    {
      this.scene := scene;
      bubbleType := t;
      size := BubbleSize(textWidth, textHeight);
      this.x := x;
      this.y := y;
      attached := true;
      phase := Constructed;
    }

    function GetBubbleHeight(): real {
      size.height
    }

    function GetTailSize(): real {
      TailSize
    }

    method SetPosition(x: real, y: real)
      modifies this`x, this`y
      ensures this.x == x && this.y == y
    {
      this.x := x;
      this.y := y;
    }

    /** Starts the entry tween and schedules the automatic hide after
        `duration` ms. The auto-hide timer is never cancelled. */
    method Show(duration: nat, callback: HideCallback)
      requires scene.Valid() && attached
      modifies this`phase, scene
      ensures scene.Valid()
      ensures phase == Entering
      ensures scene.pending == old(scene.pending)
        + [Pending(old(scene.now) + EntryDuration(bubbleType), EntryTweenEnd(this)),
           Pending(old(scene.now) + duration, AutoHide(this, callback))]
      ensures scene.now == old(scene.now) && scene.notices == old(scene.notices)
    {
      phase := Entering;
      scene.Schedule(EntryDuration(bubbleType), EntryTweenEnd(this));
      scene.Schedule(duration, AutoHide(this, callback));
    }

    /** `hide(callback)`. While attached it starts the 150 ms fade, whose end
        runs the callback and then destroys the bubble. Once detached it
        returns `immediate`: the caller must run the callback now and then
        call `Destroy`, exactly as the source does in that branch. */
    method Hide(callback: HideCallback) returns (immediate: bool)
      requires scene.Valid()
      modifies this`phase, scene
      ensures scene.Valid()
      ensures immediate == !attached
      ensures immediate ==> phase == old(phase) && scene.pending == old(scene.pending)
      ensures !immediate ==> phase == Fading
      ensures !immediate ==>
        scene.pending == old(scene.pending) + [Pending(old(scene.now) + FadeDuration, FadeTweenEnd(this, callback))]
      ensures scene.now == old(scene.now) && scene.notices == old(scene.notices)
    {
      if !attached {
        immediate := true;
      } else {
        immediate := false;
        phase := Fading;
        scene.Schedule(FadeDuration, FadeTweenEnd(this, callback));
      }
    }

    method Destroy()
      modifies this`attached, this`phase
      ensures !attached && phase == Destroyed
    {
      attached := false;
      phase := Destroyed;
    }
  }

  /** Completing `a` ends its bubble's life: a fade has finished, or an
      auto-hide found the bubble already detached. */
  predicate Finishes(a: Action, attached: bool) {
    a.FadeTweenEnd? || (a.AutoHide? && !attached)
  }

  /** Completes the next due timer or tween. The result is the hide
      callback that must run now, and the bubble to destroy right after it
      (null when there is none): this happens when a fade ends, and when an
      auto-hide fires on a bubble that is already detached. */
  method Fire(scene: Scene, i: nat) returns (callback: HideCallback, finish: DialogueBubble?)
    requires scene.Valid() && IsNextDue(scene.pending, i)
    modifies scene, scene.pending[i].action.target
    ensures scene.Valid()
    ensures scene.now == old(scene.pending[i].due) >= old(scene.now)
    ensures scene.notices == old(scene.notices)
    ensures finish != null ==> finish == old(scene.pending[i].action.target)
    ensures finish != null <==> Finishes(old(scene.pending[i].action), old(scene.pending[i].action.target.attached))
    ensures old(scene.pending[i].action.target).attached == old(scene.pending[i].action.target.attached)
    ensures match old(scene.pending[i].action)
      case EntryTweenEnd(b) =>
        && scene.pending == old(Without(scene.pending, i))
        && b.phase == (if old(b.phase) == Entering then Visible else old(b.phase))
        && callback == NoCallback && finish == null
      case AutoHide(b, c) =>
        if old(b.attached) then
          && scene.pending == old(Without(scene.pending, i)) + [Pending(scene.now + FadeDuration, FadeTweenEnd(b, c))]
          && b.phase == Fading
          && callback == NoCallback && finish == null
        else
          && scene.pending == old(Without(scene.pending, i))
          && b.phase == old(b.phase)
          && callback == c && finish == b
      case FadeTweenEnd(b, c) =>
        && scene.pending == old(Without(scene.pending, i))
        && b.phase == old(b.phase)
        && callback == c && finish == b
  {
    var p := scene.pending[i];
    assert p in scene.pending;
    scene.pending := Without(scene.pending, i);
    scene.now := p.due;
    match p.action
    case EntryTweenEnd(b) =>
      if b.phase == Entering {
        b.phase := Visible;
      }
      callback, finish := NoCallback, null;
    case AutoHide(b, c) =>
      var immediate := b.Hide(c);
      if immediate {
        callback, finish := c, b;
      } else {
        callback, finish := NoCallback, null;
      }
    case FadeTweenEnd(b, c) =>
      callback, finish := c, b;
  }
}
