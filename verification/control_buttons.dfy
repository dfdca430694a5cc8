/** The corner buttons (src/game/ui/ControlButtons.ts): share the current
    topic as a link, open the past topics, and show or hide the topic input.
    The share link carries the topic as the `topic` query parameter. */
module ControlButtons {
  import opened Text
  import opened UriComponent

  /** A button's icon and its gradient's two colours. */
  datatype ButtonStyle = ButtonStyle(icon: string, bgColor: string, hoverColor: string)

  const ShareStyle := ButtonStyle("📤", "#2196F3", "#1976D2")
  const PastStyle := ButtonStyle("📜", "#FF9800", "#F57C00")
  const RetryStyle := ButtonStyle("🔄", "#4CAF50", "#45a049")

  /** The style `createButton` picks from the label: a share label wins,
      then a past-topics label, and anything else is the retry style. */
  function StyleFor(caption: string): (r: ButtonStyle)
    ensures Contains(caption, "分享") ==> r == ShareStyle
    ensures !Contains(caption, "分享") && Contains(caption, "過去") ==> r == PastStyle
    ensures !Contains(caption, "分享") && !Contains(caption, "過去") ==> r == RetryStyle
  {
    var isPast := Contains(caption, "過去");
    var isShare := Contains(caption, "分享");
    if isShare then ShareStyle else if isPast then PastStyle else RetryStyle
  }

  /** A button as drawn: its text, style and anchor; a right-aligned
      button hangs left of its anchor. */
  datatype ButtonView = ButtonView(caption: string, style: ButtonStyle, x: real, y: real, rightAlign: bool)

  /** `createButton`: the label is the style's icon, a space and the text. */
  function CreateButton(text: string, x: real, y: real, rightAlign: bool): (r: ButtonView)
    ensures r.style == StyleFor(text) && r.caption == r.style.icon + " " + text
    ensures r.x == x && r.y == y && r.rightAlign == rightAlign
  {
    var style := StyleFor(text);
    ButtonView(style.icon + " " + text, style, x, y, rightAlign)
  }

  const ShareText := "分享議題"
  const PastText := "過去議題"
  const RetryText := "重新討論"
  const ButtonMargin: real := 16.0
  const RetryX: real := 140.0

  /** The retry button's text: "收起" (fold) while the input is shown,
      "重新討論" (discuss again) otherwise. */
  function RetryLabel(inputVisible: bool): string {
    if inputVisible then "⬆️ 收起" else "🔄 重新討論"
  }

  /** The three buttons get the three styles, and the text the toggle
      restores is the text the retry button was created with. */
  lemma ConstructorStyles()
    ensures StyleFor(ShareText) == ShareStyle
    ensures StyleFor(PastText) == PastStyle
    ensures StyleFor(RetryText) == RetryStyle
    ensures CreateButton(RetryText, RetryX, ButtonMargin, false).caption == RetryLabel(false)
  {
    assert OccursAt(ShareText, "分享", 0);
    assert OccursAt(PastText, "過去", 0);
    assert PastText == ['過', '去', '議', '題'] && RetryText == ['重', '新', '討', '論'];
    AbsentLead(PastText, "分享");
    AbsentLead(RetryText, "分享");
    AbsentLead(RetryText, "過去");
  }

  /** A text without the first character of t does not contain t. */
  lemma AbsentLead(s: string, t: string)
    requires |t| > 0 && forall i :: 0 <= i < |s| ==> s[i] != t[0]
    ensures !Contains(s, t)
  {
    forall i | 0 <= i <= |s| - |t| ensures !OccursAt(s, t, i) {
      assert s[i..i + |t|][0] == s[i];
    }
  }

  /** `buildShareUrl`: the site root under the base path (a missing base
      counts as empty), with `?topic=` and the encoded topic when a topic
      is set. */
  function BuildShareUrl(origin: string, base: Option<string>, topic: string): (r: string)
    ensures topic == "" ==> r == origin + OrElse(base, "") + "/"
    ensures topic != "" ==> r == origin + OrElse(base, "") + "/?topic=" + EncodeUriComponent(topic)
  {
    var basePath := OrElse(base, "");
    if topic == "" then origin + basePath + "/" else origin + basePath + "/?topic=" + EncodeUriComponent(topic)
  }

  /** Reading the `topic` parameter back from a link under `root`: nothing
      when the link is the root itself, otherwise the decoded value. */
  function TopicParameter(url: string, root: string): Option<string> {
    var prefix := root + "?topic=";
    if StartsWith(url, prefix) then DecodeUriComponent(url[|prefix|..]) else None
  }

  /** The share link carries exactly the current topic: its single query
      parameter decodes to the topic and holds no `&`, `=`, `#` or space
      that could cut it short; an empty topic gives the bare root. */
  lemma ShareUrlCarriesTopic(origin: string, base: Option<string>, topic: string)
    ensures var root := origin + OrElse(base, "") + "/";
      TopicParameter(BuildShareUrl(origin, base, topic), root) == (if topic == "" then None else Some(topic))
    ensures var url, prefix := BuildShareUrl(origin, base, topic), origin + OrElse(base, "") + "/?topic=";
      topic != "" ==> |prefix| <= |url| && QueryValueSafe(url[|prefix|..])
  {
    var root := origin + OrElse(base, "") + "/";
    var prefix := root + "?topic=";
    var url := BuildShareUrl(origin, base, topic);
    if topic != "" {
      var q := EncodeUriComponent(topic);
      assert url == prefix + q;
      SplitAfterPrefix(prefix, q);
      EncodeRoundTrip(topic);
      assert origin + OrElse(base, "") + "/?topic=" == prefix;
      SafeHasNoDelimiter(q);
    }
  }

  /** No character that ends a query parameter's value or the query. */
  predicate QueryValueSafe(v: string) {
    forall i :: 0 <= i < |v| ==> v[i] != '&' && v[i] != '=' && v[i] != '#' && v[i] != ' '
  }

  lemma SafeHasNoDelimiter(v: string)
    requires UriSafe(v)
    ensures QueryValueSafe(v)
  {
  }

  lemma SplitAfterPrefix(prefix: string, q: string)
    ensures StartsWith(prefix + q, prefix) && (prefix + q)[|prefix|..] == q
  {
    StartsWithConcat(prefix, q);
  }

  class ControlBar {
    var currentTopic: string
    var inputVisible: bool
    var shareButton: ButtonView
    const pastTopicsButton: ButtonView
    var retryButton: ButtonView
    var hasRetryCallback: bool
    var hasPastTopicsCallback: bool
    /** The input flag each retry-callback call saw, oldest first. */
    var retryCalls: seq<bool>
    var pastTopicsCalls: nat
    /** Subscribed to the scale manager's `resize`. */
    var listening: bool

    /** The retry button always names what a click will do, and the share
        button stays pinned right-aligned 16 below the top edge. */
    ghost predicate Valid()
      reads this
    {
      && retryButton.caption == RetryLabel(inputVisible)
      && shareButton.y == ButtonMargin && shareButton.rightAlign
      && shareButton.style == ShareStyle
    }

    /** Share at the top-right corner, past topics at (16, 16), retry at
        (140, 16); no topic and the input hidden. */
    constructor (width: real)
      ensures Valid()
      ensures currentTopic == "" && !inputVisible && !hasRetryCallback && !hasPastTopicsCallback
      ensures shareButton == CreateButton(ShareText, width - ButtonMargin, ButtonMargin, true)
      ensures pastTopicsButton == CreateButton(PastText, ButtonMargin, ButtonMargin, false)
      ensures retryButton == CreateButton(RetryText, RetryX, ButtonMargin, false)
      ensures retryCalls == [] && pastTopicsCalls == 0 && listening
    {
      ConstructorStyles();
      currentTopic := "";
      inputVisible := false;
      shareButton := CreateButton(ShareText, width - ButtonMargin, ButtonMargin, true);
      pastTopicsButton := CreateButton(PastText, ButtonMargin, ButtonMargin, false);
      retryButton := CreateButton(RetryText, RetryX, ButtonMargin, false);
      hasRetryCallback := false;
      hasPastTopicsCallback := false;
      retryCalls := [];
      pastTopicsCalls := 0;
      listening := true;
    }

    /** `handleResize`: only the share button moves, to the new corner. */
    method HandleResize(width: real)
      requires Valid()
      modifies this`shareButton
      ensures Valid()
      ensures shareButton == old(shareButton).(x := width - ButtonMargin, y := ButtonMargin)
    {
      shareButton := shareButton.(x := width - ButtonMargin, y := ButtonMargin);
    }

    /** `handleShare`: the link handed to the clipboard. */
    method HandleShare(origin: string, base: Option<string>) returns (url: string)
      requires Valid()
      ensures url == BuildShareUrl(origin, base, currentTopic)
    {
      url := BuildShareUrl(origin, base, currentTopic);
    }

    /** `toggleInput`: the retry callback, if any, runs first and sees the
        old flag; then the flag flips and the label follows it. */
    method ToggleInput()
      requires Valid()
      modifies this`retryCalls, this`inputVisible, this`retryButton
      ensures Valid()
      ensures inputVisible == !old(inputVisible)
      ensures retryCalls == old(retryCalls) + (if hasRetryCallback then [old(inputVisible)] else [])
      ensures retryButton == old(retryButton).(caption := RetryLabel(inputVisible))
    {
      if hasRetryCallback {
        retryCalls := retryCalls + [inputVisible];
      }
      inputVisible := !inputVisible;
      retryButton := retryButton.(caption := RetryLabel(inputVisible));
    }

    /** A click on the past-topics button. */
    method ClickPastTopics()
      requires Valid()
      modifies this`pastTopicsCalls
      ensures Valid()
      ensures pastTopicsCalls == old(pastTopicsCalls) + (if hasPastTopicsCallback then 1 else 0)
    {
      if hasPastTopicsCallback {
        pastTopicsCalls := pastTopicsCalls + 1;
      }
    }

    method SetCurrentTopic(topic: string)
      requires Valid()
      modifies this`currentTopic
      ensures Valid() && currentTopic == topic
    {
      currentTopic := topic;
    }

    method OnRetry()
      requires Valid()
      modifies this`hasRetryCallback
      ensures Valid() && hasRetryCallback
    {
      hasRetryCallback := true;
    }

    method OnPastTopics()
      requires Valid()
      modifies this`hasPastTopicsCallback
      ensures Valid() && hasPastTopicsCallback
    {
      hasPastTopicsCallback := true;
    }

    method Destroy()
      requires Valid()
      modifies this`listening
      ensures Valid() && !listening
    {
      listening := false;
    }
  }

  /** Two toggles restore the flag and the label. */
  method ToggleTwice(b: ControlBar)
    requires b.Valid()
    modifies b
    ensures b.Valid() && b.inputVisible == old(b.inputVisible) && b.retryButton.caption == old(b.retryButton.caption)
  {
    b.ToggleInput();
    b.ToggleInput();
  }
}
