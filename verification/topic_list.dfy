/** The past-topics panel (src/game/ui/TopicListUI.ts): at most ten topics,
    each title escaped for HTML and each timestamp shown as a relative time,
    and a panel that is shown at a fixed corner or hidden. */
module TopicList {
  import opened Text

  /** `TopicItem`: a topic and the Unix time (seconds) it was raised. */
  datatype TopicItem = TopicItem(topic: string, timestamp: int)

  /** At most this many topics are listed. */
  const MaxTopics: nat := 10

  /** The five characters `escapeHtml` replaces. */
  predicate Special(c: char) {
    c == '&' || c == '<' || c == '>' || c == '"' || c == '\''
  }

  /** The character reference that stands for one character (section
      13.1.4 of the HTML Living Standard); every other character stands
      for itself. */
  function EscapeChar(c: char): (r: string)
    ensures |r| >= 1
    ensures !Special(c) ==> r == [c]
    ensures Special(c) ==> r[0] == '&' && r[|r| - 1] == ';'
    ensures forall i :: 0 <= i < |r| ==> r[i] != '<' && r[i] != '>' && r[i] != '"' && r[i] != '\''
  {
    if c == '&' then "&amp;"
    else if c == '<' then "&lt;"
    else if c == '>' then "&gt;"
    else if c == '"' then "&quot;"
    else if c == '\'' then "&#039;"
    else [c]
  }

  /** `escapeHtml`: every special character replaced by its reference. The
      result holds no raw `<`, `>`, `"` or `'`, is never shorter than the
      text, and equals it when the text holds no special character. */
  function EscapeHtml(s: string): (r: string)
    ensures |r| >= |s|
    ensures forall i :: 0 <= i < |r| ==> r[i] != '<' && r[i] != '>' && r[i] != '"' && r[i] != '\''
    ensures (forall i :: 0 <= i < |s| ==> !Special(s[i])) ==> r == s
    decreases |s|
  {
    if s == [] then []
    else
      var head := EscapeChar(s[0]);
      var tail := EscapeHtml(s[1..]);
      assert forall i :: |head| <= i < |head + tail| ==> (head + tail)[i] == tail[i - |head|];
      head + tail
  }

  /** Reading character references back: each of the five references
      becomes its character, every other character stays. */
  function UnescapeHtml(s: string): string
    decreases |s|
  {
    if s == [] then []
    else if |s| < 4 || s[0] != '&' then [s[0]] + UnescapeHtml(s[1..])
    else if s[1] == 'a' && StartsWith(s, "&amp;") then "&" + UnescapeHtml(s[5..])
    else if s[1] == 'l' && StartsWith(s, "&lt;") then "<" + UnescapeHtml(s[4..])
    else if s[1] == 'g' && StartsWith(s, "&gt;") then ">" + UnescapeHtml(s[4..])
    else if s[1] == 'q' && StartsWith(s, "&quot;") then "\"" + UnescapeHtml(s[6..])
    else if s[1] == '#' && StartsWith(s, "&#039;") then "'" + UnescapeHtml(s[6..])
    else [s[0]] + UnescapeHtml(s[1..])
  }

  /** The escaped title shows exactly the topic: reading the references
      back gives the original text, so no two topics look alike. */
  lemma {:induction false} EscapeRoundTrip(s: string)
    ensures UnescapeHtml(EscapeHtml(s)) == s
    decreases |s|
  {
    if s != [] {
      EscapeRoundTrip(s[1..]);
      UnescapeAfterEscape(s[0], EscapeHtml(s[1..]));
      assert [s[0]] + s[1..] == s;
    }
  }

  /** Reading back one escaped character, whatever follows it. */
  lemma UnescapeAfterEscape(c: char, tail: string)
    ensures UnescapeHtml(EscapeChar(c) + tail) == [c] + UnescapeHtml(tail)
  {
    if c == '&' {
      UnescapeAmp(tail);
    } else if c == '<' {
      UnescapeLt(tail);
    } else if c == '>' {
      UnescapeGt(tail);
    } else if c == '"' {
      UnescapeQuot(tail);
    } else if c == '\'' {
      UnescapeApos(tail);
    } else {
      var e := [c] + tail;
      assert e[0] == c && e[1..] == tail;
    }
  }

  lemma UnescapeAmp(tail: string)
    ensures UnescapeHtml("&amp;" + tail) == "&" + UnescapeHtml(tail)
  {
    var e := "&amp;" + tail;
    assert e[..5] == "&amp;" && e[5..] == tail;
  }

  lemma UnescapeLt(tail: string)
    ensures UnescapeHtml("&lt;" + tail) == "<" + UnescapeHtml(tail)
  {
    var e := "&lt;" + tail;
    assert e[1] == 'l' && e[..4] == "&lt;" && e[4..] == tail;
  }

  lemma UnescapeGt(tail: string)
    ensures UnescapeHtml("&gt;" + tail) == ">" + UnescapeHtml(tail)
  {
    var e := "&gt;" + tail;
    assert e[1] == 'g' && e[..4] == "&gt;" && e[4..] == tail;
  }

  lemma UnescapeQuot(tail: string)
    ensures UnescapeHtml("&quot;" + tail) == "\"" + UnescapeHtml(tail)
  {
    var e := "&quot;" + tail;
    assert e[1] == 'q' && e[..6] == "&quot;" && e[6..] == tail;
  }

  lemma UnescapeApos(tail: string)
    ensures UnescapeHtml("&#039;" + tail) == "'" + UnescapeHtml(tail)
  {
    var e := "&#039;" + tail;
    assert e[1] == '#' && e[..6] == "&#039;" && e[6..] == tail;
  }

  /** `escapeHtml` is one-to-one. */
  lemma EscapeInjective(s: string, t: string)
    requires EscapeHtml(s) == EscapeHtml(t)
    ensures s == t
  {
    EscapeRoundTrip(s);
    EscapeRoundTrip(t);
  }

  const MsPerMinute: int := 60000
  const MsPerHour: int := 3600000
  const MsPerDay: int := 86400000

  /** `formatDate`: the milliseconds elapsed since the timestamp, floored
      to seconds, then minutes, hours and days; the largest non-zero unit
      is reported, and anything under a minute, or in the future, reads
      "剛剛" (just now). */
  function FormatDate(timestamp: int, nowMs: int): (r: string)
    ensures var diff := nowMs - timestamp * 1000;
      && (diff >= MsPerDay ==> r == NatToString(diff / MsPerDay) + " 天前")
      && (MsPerHour <= diff < MsPerDay ==> r == NatToString(diff / MsPerHour) + " 小時前")
      && (MsPerMinute <= diff < MsPerHour ==> r == NatToString(diff / MsPerMinute) + " 分鐘前")
      && (diff < MsPerMinute ==> r == "剛剛")
  {
    var diff := nowMs - timestamp * 1000;
    var seconds := diff / 1000;
    var minutes := seconds / 60;
    var hours := minutes / 60;
    var days := hours / 24;
    FloorChain(diff);
    if days > 0 then NatToString(days) + " 天前"
    else if hours > 0 then NatToString(hours) + " 小時前"
    else if minutes > 0 then NatToString(minutes) + " 分鐘前"
    else "剛剛"
  }

  /** Flooring step by step is flooring once by the product. */
  lemma FloorChain(diff: int)
    ensures diff / 1000 / 60 == diff / MsPerMinute
    ensures diff / 1000 / 60 / 60 == diff / MsPerHour
    ensures diff / 1000 / 60 / 60 / 24 == diff / MsPerDay
  {
  }

  /** What the panel's markup shows: nothing yet, the empty state, or a
      header count and one escaped title and relative time per topic. */
  datatype Rendered = Blank | EmptyState | ListView(count: nat, titles: seq<string>, times: seq<string>)

  /** `renderList` over the stored topics. */
  function RenderList(topics: seq<TopicItem>, nowMs: int): (r: Rendered)
    ensures topics == [] <==> r == EmptyState
    ensures r != Blank
    ensures r.ListView? ==>
      && r.count == |topics| == |r.titles| == |r.times|
      && (forall i :: 0 <= i < |topics| ==> r.titles[i] == EscapeHtml(topics[i].topic))
      && (forall i :: 0 <= i < |topics| ==> UnescapeHtml(r.titles[i]) == topics[i].topic)
      && (forall i :: 0 <= i < |topics| ==> r.times[i] == FormatDate(topics[i].timestamp, nowMs))
  {
    if topics == [] then EmptyState
    else
      var titles := seq(|topics|, i requires 0 <= i < |topics| => EscapeHtml(topics[i].topic));
      forall i | 0 <= i < |topics| ensures UnescapeHtml(titles[i]) == topics[i].topic {
        EscapeRoundTrip(topics[i].topic);
      }
      ListView(|topics|, titles,
        seq(|topics|, i requires 0 <= i < |topics| => FormatDate(topics[i].timestamp, nowMs)))
  }

  class TopicListUi {
    var topics: seq<TopicItem>
    var rendered: Rendered
    /** The DOM element's own visibility. */
    var visible: bool
    var lastVisibility: bool
    var x: real
    var y: real
    var hasCallback: bool
    /** Topics handed to the selection callback, oldest first. */
    var selections: seq<string>
    /** Subscribed to the scale manager's `resize`. */
    var listening: bool

    /** Only `show` and `hide` change the visibility and both set
        `lastVisibility` alongside it; a visible panel sits at (16, 60);
        at most ten topics are held. */
    ghost predicate Valid()
      reads this
    {
      && visible == lastVisibility
      && (visible ==> x == 16.0 && y == 60.0)
      && |topics| <= MaxTopics
    }

    constructor ()
      ensures Valid()
      ensures topics == [] && rendered == Blank && !visible && !lastVisibility
      ensures x == 0.0 && y == 0.0 && !hasCallback && selections == [] && listening
    {
      topics := [];
      rendered := Blank;
      visible := false;
      lastVisibility := false;
      x, y := 0.0, 0.0;
      hasCallback := false;
      selections := [];
      listening := true;
    }

    /** `updateTopics`: keeps the first ten topics in order and re-renders. */
    method UpdateTopics(ts: seq<TopicItem>, nowMs: int)
      requires Valid()
      modifies this
      ensures Valid()
      ensures |topics| == if |ts| < MaxTopics then |ts| else MaxTopics
      ensures topics == ts[..|topics|]
      ensures rendered == RenderList(topics, nowMs)
      ensures visible == old(visible) && lastVisibility == old(lastVisibility)
      ensures x == old(x) && y == old(y) && hasCallback == old(hasCallback)
      ensures selections == old(selections) && listening == old(listening)
    {
      topics := if |ts| < MaxTopics then ts else ts[..MaxTopics];
      rendered := RenderList(topics, nowMs);
    }

    /** `onTopicSelect`: registers the selection callback. */
    method OnTopicSelect()
      requires Valid()
      modifies this`hasCallback
      ensures Valid() && hasCallback
    {
      hasCallback := true;
    }

    /** A click on item `index`: the callback receives that topic's text,
        but only when the item exists and a callback is registered. */
    method ClickItem(index: int)
      requires Valid()
      modifies this`selections
      ensures Valid()
      ensures 0 <= index < |topics| && hasCallback ==> selections == old(selections) + [topics[index].topic]
      ensures !(0 <= index < |topics| && hasCallback) ==> selections == old(selections)
    {
      if 0 <= index < |topics| && hasCallback {
        selections := selections + [topics[index].topic];
      }
    }

    method Show()
      requires Valid()
      modifies this`x, this`y, this`visible, this`lastVisibility
      ensures Valid() && visible && lastVisibility && x == 16.0 && y == 60.0
    {
      x, y := 16.0, 60.0;
      visible := true;
      lastVisibility := true;
    }

    method Hide()
      requires Valid()
      modifies this`visible, this`lastVisibility
      ensures Valid() && !visible && !lastVisibility
    {
      visible := false;
      lastVisibility := false;
    }

    /** `toggle`: flips the visibility. */
    method Toggle()
      requires Valid()
      modifies this`x, this`y, this`visible, this`lastVisibility
      ensures Valid() && visible == !old(visible)
      ensures old(visible) ==> x == old(x) && y == old(y)
    {
      if visible {
        Hide();
      } else {
        Show();
      }
    }

    function IsVisible(): (r: bool)
      requires Valid()
      reads this
      ensures r == lastVisibility
    {
      visible
    }

    /** `handleResize`: re-pins the panel only while it is shown. */
    method HandleResize()
      requires Valid()
      modifies this`x, this`y
      ensures Valid()
      ensures lastVisibility ==> x == 16.0 && y == 60.0
      ensures !lastVisibility ==> x == old(x) && y == old(y)
    {
      if lastVisibility {
        x, y := 16.0, 60.0;
      }
    }

    method Destroy()
      requires Valid()
      modifies this`listening
      ensures Valid() && !listening
    {
      listening := false;
    }
  }
}
