/** The NPC style table (src/game/data/npcStyles.ts) and its lookups
    (src/game/utils/NPCStyleUtils.ts). Every style names frames of the
    13 x 11 NPC sprite sheet for four actions. */
module NpcStyles {
  import opened Text

  const SheetColumns: nat := 13
  const SheetRows: nat := 11
  /** Frames on the sheet, 13 x 11. */
  const SheetFrames: nat := 143

  /** `keyof NPCStyleFrames`. */
  datatype StyleAction = Idle | Walking | Sitting | Talking

  datatype StyleFrames = StyleFrames(idle: seq<int>, walking: seq<int>, sitting: seq<int>, talking: seq<int>) {
    function Of(a: StyleAction): seq<int> {
      match a
      case Idle => idle
      case Walking => walking
      case Sitting => sitting
      case Talking => talking
    }
  }

  datatype NpcStyle = NpcStyle(
    id: string, name: string, description: string, frames: StyleFrames,
    recommendedFor: seq<string>, defaultFrame: int)

  const BusinessMale1 := NpcStyle("business_male_1", "商務男性 1", "穿著正式西裝的男性角色",
    StyleFrames([0, 1, 2], [13, 14, 15, 16], [26, 27], [39, 40, 41]),
    ["經理", "主管", "客戶", "總監"], 0)

  const BusinessFemale1 := NpcStyle("business_female_1", "商務女性 1", "穿著正式套裝的女性角色",
    StyleFrames([3, 4, 5], [17, 18, 19, 20], [28, 29], [42, 43, 44]),
    ["經理", "設計師", "專員", "主管"], 3)

  const CasualMale1 := NpcStyle("casual_male_1", "休閒男性 1", "穿著休閒服裝的男性角色",
    StyleFrames([6, 7, 8], [21, 22, 23, 24], [30, 31], [45, 46, 47]),
    ["工程師", "實習生", "技術員", "開發者"], 6)

  const CasualFemale1 := NpcStyle("casual_female_1", "休閒女性 1", "穿著休閒服裝的女性角色",
    StyleFrames([9, 10, 11], [25, 26, 27, 28], [32, 33], [48, 49, 50]),
    ["設計師", "助理", "專員", "行政"], 9)

  /** `NPC_STYLES` in declaration order, which is also the order in which
      `Object.values` lists its (non-numeric) keys. */
  const StyleList: seq<NpcStyle> := [BusinessMale1, BusinessFemale1, CasualMale1, CasualFemale1]

  /** `NPC_STYLES` as a table keyed by style id. */
  const Styles: map<string, NpcStyle> := map[
    "business_male_1" := BusinessMale1,
    "business_female_1" := BusinessFemale1,
    "casual_male_1" := CasualMale1,
    "casual_female_1" := CasualFemale1]

  /** Every key is its style's id, and the listing holds each style of the
      table exactly once. */
  lemma TableWellFormed()
    ensures forall k :: k in Styles ==> Styles[k].id == k
    ensures |StyleList| == |Styles|
    ensures forall i :: 0 <= i < |StyleList| ==> StyleList[i].id in Styles && Styles[StyleList[i].id] == StyleList[i]
    ensures forall i, j :: 0 <= i < j < |StyleList| ==> StyleList[i].id != StyleList[j].id
  {
  }

  /** Every default frame is the style's first idle frame. */
  lemma DefaultFrameIsFirstIdle()
    ensures forall s :: s in StyleList ==> |s.frames.idle| > 0 && s.defaultFrame == s.frames.idle[0]
  {
  }

  /** Every action list is non-empty and every frame lies on the sheet. */
  lemma FramesOnSheet()
    ensures forall s, a :: s in StyleList ==> 2 <= |s.frames.Of(a)| <= 4
    ensures forall s, a, f :: s in StyleList && f in s.frames.Of(a) ==> 0 <= f < SheetFrames
    ensures SheetFrames == SheetColumns * SheetRows
  {
    forall s, a | s in StyleList
      ensures 2 <= |s.frames.Of(a)| <= 4
      ensures forall f :: f in s.frames.Of(a) ==> 0 <= f < SheetFrames
    {
    }
  }

  /** The frame lists are not disjoint across styles: the casual woman's
      walking cycle reuses both business styles' sitting frames 26 to 28. */
  lemma WalkingOverlapsSitting()
    ensures forall f :: 26 <= f <= 28 ==> f in CasualFemale1.frames.walking
    ensures 26 in BusinessMale1.frames.sitting && 27 in BusinessMale1.frames.sitting
    ensures 28 in BusinessFemale1.frames.sitting
  {
  }

  /** `getStyleById`: the style stored under the id, if any. */
  function GetStyleById(styleId: string): (r: Option<NpcStyle>)
    ensures r.Some? <==> styleId in Styles
    ensures r.Some? ==> r.value.id == styleId && r.value in StyleList
  {
    TableWellFormed();
    if styleId in Styles then Some(Styles[styleId]) else None
  }

  /** `getAllStyles`: every style of the table, once each, in declaration
      order. */
  function GetAllStyles(): (r: seq<NpcStyle>)
    ensures r == StyleList
    ensures forall s :: s in r <==> s in Styles.Values
  {
    TableWellFormed();
    assert forall s :: s in Styles.Values ==> s in StyleList by {
      forall s | s in Styles.Values ensures s in StyleList {
        var k :| k in Styles && Styles[k] == s;
      }
    }
    assert forall i :: 0 <= i < |StyleList| ==> StyleList[i] in Styles.Values by {
      forall i | 0 <= i < |StyleList| ensures StyleList[i] in Styles.Values {
        assert Styles[StyleList[i].id] == StyleList[i];
      }
    }
    StyleList
  }

  /** A style suits a job title when one of its roles occurs in the title
      or the title occurs in the role. */
  predicate Suits(s: NpcStyle, position: string) {
    exists role :: role in s.recommendedFor && (Contains(position, role) || Contains(role, position))
  }

  /** The styles of `styles` that suit the position, in their order. */
  function FilterSuited(styles: seq<NpcStyle>, position: string): (r: seq<NpcStyle>)
    ensures |r| <= |styles|
    ensures forall s :: s in r <==> s in styles && Suits(s, position)
    decreases |styles|
  {
    if styles == [] then []
    else
      var rest := FilterSuited(styles[1..], position);
      assert forall s :: s in styles <==> s == styles[0] || s in styles[1..];
      if Suits(styles[0], position) then [styles[0]] + rest else rest
  }

  /** `sub` is `s` with some elements dropped, order kept. */
  predicate IsSubsequence<T(==)>(sub: seq<T>, s: seq<T>)
    decreases |s|
  {
    if sub == [] then true
    else if s == [] then false
    else if sub[0] == s[0] then IsSubsequence(sub[1..], s[1..])
    else IsSubsequence(sub, s[1..])
  }

  lemma {:induction false} FilterSuitedIsSubsequence(styles: seq<NpcStyle>, position: string)
    ensures IsSubsequence(FilterSuited(styles, position), styles)
    decreases |styles|
  {
    if styles != [] {
      FilterSuitedIsSubsequence(styles[1..], position);
      var rest := FilterSuited(styles[1..], position);
      if Suits(styles[0], position) {
        assert ([styles[0]] + rest)[1..] == rest;
      } else if rest != [] {
        assert rest[0] in rest;
      }
    }
  }

  /** `getRecommendedStyles`: the styles that suit the position, as an
      order-keeping selection of `getAllStyles`. */
  function GetRecommendedStyles(position: string): (r: seq<NpcStyle>)
    ensures IsSubsequence(r, GetAllStyles())
    ensures forall s :: s in r <==> s in GetAllStyles() && Suits(s, position)
  {
    FilterSuitedIsSubsequence(GetAllStyles(), position);
    FilterSuited(GetAllStyles(), position)
  }

  /** Every role contains the empty title, so an empty position keeps every
      style (each style has at least one role). */
  lemma EmptyPositionSuitsAll()
    ensures GetRecommendedStyles("") == GetAllStyles()
  {
    forall s | s in StyleList ensures Suits(s, "") {
      ContainsEmpty(s.recommendedFor[0]);
    }
    FilterAllSuited(StyleList, "");
  }

  lemma {:induction false} FilterAllSuited(styles: seq<NpcStyle>, position: string)
    requires forall s :: s in styles ==> Suits(s, position)
    ensures FilterSuited(styles, position) == styles
    decreases |styles|
  {
    if styles != [] {
      assert forall s :: s in styles[1..] ==> s in styles;
      FilterAllSuited(styles[1..], position);
      assert [styles[0]] + styles[1..] == styles;
    }
  }

  /** JavaScript's `%` on integers: the remainder takes the dividend's sign. */
  function JsRem(a: int, n: nat): (r: int)
    requires n > 0
    ensures a >= 0 ==> r == a % n
    ensures a < 0 ==> -(n as int) < r <= 0 && r == -((-a) % n)
  {
    if a >= 0 then a % n else -((-a) % n)
  }

  /** `getFrameForAction`. An unknown style gives frame 0 and an empty
      action list the style's default frame; otherwise the frame index is
      reduced modulo the list's length. A negative index whose remainder is
      not zero reads past the list's start, which JavaScript answers with
      `undefined` (`None` here). */
  function GetFrameForAction(styleId: string, action: StyleAction, frameIndex: int := 0): (r: Option<int>)
    ensures styleId !in Styles ==> r == Some(0)
    ensures styleId in Styles && Styles[styleId].frames.Of(action) == [] ==> r == Some(Styles[styleId].defaultFrame)
    ensures styleId in Styles && frameIndex >= 0 && Styles[styleId].frames.Of(action) != [] ==>
      var frames := Styles[styleId].frames.Of(action);
      r == Some(frames[frameIndex % |frames|]) && r.value in frames
    ensures styleId in Styles && frameIndex < 0 && Styles[styleId].frames.Of(action) != [] ==>
      var frames := Styles[styleId].frames.Of(action);
      ((-frameIndex) % |frames| == 0 ==> r == Some(frames[0])) && ((-frameIndex) % |frames| != 0 ==> r.None?)
  {
    match GetStyleById(styleId)
    case None => Some(0)
    case Some(style) =>
      var frames := style.frames.Of(action);
      if |frames| == 0 then Some(style.defaultFrame)
      else
        var i := JsRem(frameIndex, |frames|);
        if 0 <= i < |frames| then Some(frames[i]) else None
  }

  /** Advancing the frame index by a whole cycle gives the same frame, and
      the default index gives the first frame. */
  lemma FramePeriodic(styleId: string, action: StyleAction, frameIndex: nat)
    requires styleId in Styles
    ensures var frames := Styles[styleId].frames.Of(action);
      && GetFrameForAction(styleId, action, frameIndex + |frames|) == GetFrameForAction(styleId, action, frameIndex)
      && GetFrameForAction(styleId, action) == Some(frames[0])
  {
    FramesOnSheet();
    TableWellFormed();
    var frames := Styles[styleId].frames.Of(action);
    assert Styles[styleId] in StyleList;
    ModShiftSmall(frameIndex, |frames|);
  }

  /** Adding the modulus keeps the remainder, for the list lengths the
      table uses. */
  lemma ModShiftSmall(i: int, n: int)
    requires 2 <= n <= 4
    ensures (i + n) % n == i % n
  {
    if n == 2 {
      assert (i + 2) % 2 == i % 2;
    } else if n == 3 {
      assert (i + 3) % 3 == i % 3;
    } else {
      assert (i + 4) % 4 == i % 4;
    }
  }

  /** For the shipped table every non-negative index yields a frame of
      the requested action, on the sheet. */
  lemma FrameAlwaysOnSheet(styleId: string, action: StyleAction, frameIndex: nat)
    requires styleId in Styles
    ensures GetFrameForAction(styleId, action, frameIndex).Some?
    ensures GetFrameForAction(styleId, action, frameIndex).value in Styles[styleId].frames.Of(action)
    ensures 0 <= GetFrameForAction(styleId, action, frameIndex).value < SheetFrames
  {
    FramesOnSheet();
    TableWellFormed();
    assert Styles[styleId] in StyleList;
  }
}
