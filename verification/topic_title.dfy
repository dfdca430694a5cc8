/** The topic banner at the top of the office (src/game/ui/TopicTitleUI.ts):
    the current topic, a rounded backdrop sized to its text, centred near
    the top edge, and its visibility. */
module TopicTitle {
  import opened Text
  import Bubble

  /** Space around the text inside the backdrop. */
  const BackdropPadding: real := 20.0
  /** Distance of the banner's centre from the top edge. */
  const BannerY: real := 40.0

  /** A rectangle drawn relative to the banner's centre. */
  datatype Rect = Rect(left: real, top: real, width: real, height: real)

  /** `updateBackground`: the text's size plus 20 on each side and 10 above
      and below, centred on the banner's origin. */
  function Backdrop(text: Bubble.Size): (r: Rect)
    ensures r.width == text.width + 2.0 * BackdropPadding && r.height == text.height + BackdropPadding
    ensures Centred(r)
  {
    var w := text.width + BackdropPadding * 2.0;
    var h := text.height + BackdropPadding;
    Rect(-w / 2.0, -h / 2.0, w, h)
  }

  /** The rectangle's centre is the origin. */
  predicate Centred(r: Rect) {
    r.left + r.width / 2.0 == 0.0 && r.top + r.height / 2.0 == 0.0
  }

  class TopicTitleUi {
    var currentTopic: string
    /** The text object's content. */
    var text: string
    var visible: bool
    var x: real
    var y: real
    /** The drawn backdrop; none until the first topic is set. */
    var background: Option<Rect>
    /** Subscribed to the scale manager's `resize`. */
    var listening: bool

    /** The banner always sits 40 below the top edge, and any backdrop is
        centred on it. */
    ghost predicate Valid()
      reads this
    {
      && y == BannerY
      && (background.Some? ==> Centred(background.value))
    }

    /** Starts hidden with no topic, centred horizontally in a viewport of
        the given width. */
    constructor (width: real)
      ensures Valid()
      ensures currentTopic == "" && text == "" && !visible && background == None && listening
      ensures x == width / 2.0 && y == BannerY
    {
      currentTopic := "";
      text := "";
      visible := false;
      background := None;
      listening := true;
      x, y := width / 2.0, BannerY;
    }

    /** `setTopic`: stores and shows the topic, even an empty one, with a
        backdrop fitted to the measured text. */
    method SetTopic(topic: string, measure: string -> Bubble.Size)
      requires Valid()
      modifies this`currentTopic, this`text, this`background, this`visible
      ensures Valid()
      ensures currentTopic == topic && text == topic && visible
      ensures background == Some(Backdrop(measure(topic)))
    {
      currentTopic := topic;
      text := topic;
      background := Some(Backdrop(measure(topic)));
      visible := true;
    }

    /** `hide`: hides the banner and forgets the topic; the text and the
        backdrop stay as drawn. */
    method Hide()
      requires Valid()
      modifies this`visible, this`currentTopic
      ensures Valid() && !visible && currentTopic == ""
    {
      visible := false;
      currentTopic := "";
    }

    /** `show`: shows the banner only when a non-empty topic is held, so it
        does nothing straight after `hide`. */
    method Show()
      requires Valid()
      modifies this`visible
      ensures Valid()
      ensures currentTopic != "" ==> visible
      ensures currentTopic == "" ==> visible == old(visible)
    {
      if currentTopic != "" {
        visible := true;
      }
    }

    function GetTopic(): (r: string)
      reads this
      ensures r == currentTopic
    {
      currentTopic
    }

    /** `handleResize`: re-centres the banner in the new width. */
    method HandleResize(width: real)
      requires Valid()
      modifies this`x, this`y
      ensures Valid() && x == width / 2.0 && y == BannerY
    {
      x, y := width / 2.0, BannerY;
    }

    method Destroy()
      requires Valid()
      modifies this`listening
      ensures Valid() && !listening
    {
      listening := false;
    }
  }

  /** Hiding forgets the topic: a later `show` keeps the banner hidden
      until a topic is set again. */
  method HideThenShow(t: TopicTitleUi)
    requires t.Valid()
    modifies t
    ensures t.Valid() && !t.visible && t.GetTopic() == ""
  {
    t.Hide();
    t.Show();
  }
}
