/** The office scenes (src/game/scenes/Game.ts and src/game/scenes/GameV2.ts)
    as far as their own state goes: the background layout, the character
    table, and the round-table hotspots with their world circles, their
    name labels and the hover / dialogue flags that drive the labels. The
    two files differ only in the click event's name and in the load path,
    so one class with a `SceneVersion` covers both. */
module OfficeScene {
  import opened Text
  import opened Placement
  import opened Letterbox
  import opened NpcRegistry
  import DialogueV2

  datatype SceneVersion = V1 | V2

  /** A hotspot entry: its NPC in data coordinates, its world circle, its
      name label's position and visibility, and the two flags. */
  datatype HotspotEntry = HotspotEntry(
    npc: HotspotNpc, world: World,
    labelX: real, labelY: real, labelVisible: bool,
    isHovering: bool, isDialogueActive: bool)

  /** The name-label rule: shown exactly while hovered or speaking. */
  predicate LabelRule(e: HotspotEntry) {
    e.labelVisible == (e.isHovering || e.isDialogueActive)
  }

  /** Distance of the name label above the circle's top. */
  const LabelLift: real := 10.0

  /** `applyWorldTransformToHotspot`: the world circle is recomputed from
      the data under the given layout, and the name label is put just
      above the circle. */
  function Placed(e: HotspotEntry, l: Layout): (r: HotspotEntry)
    ensures r.world == TransformNpc(e.npc, l)
    ensures r.labelX == r.world.x && r.labelY == r.world.y - r.world.radius - LabelLift
    ensures r.npc == e.npc && r.labelVisible == e.labelVisible
    ensures r.isHovering == e.isHovering && r.isDialogueActive == e.isDialogueActive
  {
    var w := TransformNpc(e.npc, l);
    e.(world := w, labelX := w.x, labelY := w.y - w.radius - LabelLift)
  }

  /** The entry's world circle and label agree with the layout. */
  predicate Synced(e: HotspotEntry, l: Layout) {
    e == Placed(e, l)
  }

  /** Re-applying a layout changes nothing, and the result depends on the
      entry only through its NPC data and its flags. */
  lemma PlacedIdempotent(e: HotspotEntry, f: HotspotEntry, l: Layout)
    requires e.npc == f.npc && e.labelVisible == f.labelVisible
    requires e.isHovering == f.isHovering && e.isDialogueActive == f.isDialogueActive
    ensures Placed(Placed(e, l), l) == Placed(e, l)
    ensures Placed(e, l) == Placed(f, l)
    ensures Synced(Placed(e, l), l)
  {
  }

  /** The entry `createRoundTableHotspots` builds before placing it. */
  function NewEntry(npc: HotspotNpc): HotspotEntry {
    HotspotEntry(npc, World(0.0, 0.0, 0.0, None, None, None), 0.0, 0.0, false, false, false)
  }

  /** The `HotspotNPC` record of a config whose character is known. */
  function HotspotFrom(c: Character, cfg: HotspotNpcConfig): HotspotNpc {
    HotspotNpc(c.id, c.name, c.dialogue, cfg.x, cfg.y, cfg.radius,
               cfg.bubbleOffsetX, cfg.bubbleOffsetY, cfg.bubbleGap)
  }

  /** The map-then-filter of `createRoundTableHotspots`: configs whose
      character is unknown give no entry; the rest keep config order. */
  function BuildHotspots(characters: map<string, Character>, configs: seq<HotspotNpcConfig>): (r: seq<HotspotNpc>)
    ensures |r| <= |configs|
    ensures forall h :: h in r ==>
      exists cfg :: cfg in configs && cfg.characterId in characters && h == HotspotFrom(characters[cfg.characterId], cfg)
    ensures forall cfg :: cfg in configs && cfg.characterId in characters ==>
      HotspotFrom(characters[cfg.characterId], cfg) in r
    decreases |configs|
  {
    if configs == [] then []
    else
      var rest := BuildHotspots(characters, configs[1..]);
      assert forall cfg :: cfg in configs[1..] ==> cfg in configs;
      if configs[0].characterId in characters
      then [HotspotFrom(characters[configs[0].characterId], configs[0])] + rest
      else rest
  }

  /** Building from two lists one after the other gives the two results
      one after the other: the filter keeps config order. */
  lemma {:induction false} BuildHotspotsAppend(characters: map<string, Character>, a: seq<HotspotNpcConfig>, b: seq<HotspotNpcConfig>)
    ensures BuildHotspots(characters, a + b) == BuildHotspots(characters, a) + BuildHotspots(characters, b)
    decreases |a|
  {
    if a != [] {
      assert a + b == [a[0]] + (a[1..] + b);
      assert a == [a[0]] + a[1..];
      BuildHotspotsCons(characters, a[0], a[1..] + b);
      BuildHotspotsCons(characters, a[0], a[1..]);
      BuildHotspotsAppend(characters, a[1..], b);
    } else {
      assert a + b == b;
    }
  }

  /** The entry one config contributes: one hotspot, or none when its
      character is unknown. */
  function EntryOf(characters: map<string, Character>, cfg: HotspotNpcConfig): seq<HotspotNpc> {
    if cfg.characterId in characters then [HotspotFrom(characters[cfg.characterId], cfg)] else []
  }

  lemma BuildHotspotsCons(characters: map<string, Character>, cfg: HotspotNpcConfig, rest: seq<HotspotNpcConfig>)
    ensures BuildHotspots(characters, [cfg] + rest) == EntryOf(characters, cfg) + BuildHotspots(characters, rest)
  {
    var cs := [cfg] + rest;
    assert cs[0] == cfg && cs[1..] == rest;
  }

  /** The first entry for an NPC id, as `roundTableHotspots.find` gives. */
  function FindHotspot(hotspots: seq<HotspotEntry>, id: string): (r: Option<nat>)
    ensures r.Some? ==> r.value < |hotspots| && hotspots[r.value].npc.id == id
    ensures r.Some? ==> forall j :: 0 <= j < r.value ==> hotspots[j].npc.id != id
    ensures r.None? ==> forall j :: 0 <= j < |hotspots| ==> hotspots[j].npc.id != id
    decreases |hotspots|
  {
    if hotspots == [] then None
    else if hotspots[0].npc.id == id then Some(0)
    else
      match FindHotspot(hotspots[1..], id)
      case None => None
      case Some(j) => Some(j + 1)
  }

  /** The first-generation load path's default dialogue table: each
      character's single line is repeated in all three slots. */
  function DefaultDialogues(chars: seq<Character>): (r: seq<DialogueV2.CharacterV2>)
    ensures |r| == |chars|
    ensures forall k :: 0 <= k < |r| ==>
      && r[k].id == chars[k].id && r[k].name == chars[k].name && r[k].position == chars[k].position
      && forall i :: 0 <= i < 3 ==> r[k].dialogues.At(i) == chars[k].dialogue
  {
    seq(|chars|, k requires 0 <= k < |chars| =>
      DialogueV2.CharacterV2(chars[k].id, chars[k].name, chars[k].position,
        DialogueV2.Lines(chars[k].dialogue, chars[k].dialogue, chars[k].dialogue)))
  }

  /** The event a hotspot click emits, by scene version. */
  function ClickEvent(v: SceneVersion): string {
    match v
    case V1 => "show-dialogue"
    case V2 => "show-dialogue-v2"
  }

  class GameScene {
    const version: SceneVersion
    var hasBackground: bool
    var naturalWidth: real
    var naturalHeight: real
    var backgroundScale: real
    var scaleX: real
    var scaleY: real
    var offsetX: real
    var offsetY: real
    var displayWidth: real
    var displayHeight: real
    var characters: map<string, Character>
    var hotspots: seq<HotspotEntry>

    function CurrentLayout(): Layout
      reads this
    {
      Layout(scaleX, scaleY, offsetX, offsetY)
    }

    function StoredFit(): Fit
      reads this
    {
      Fit(backgroundScale, scaleX, scaleY, offsetX, offsetY, displayWidth, displayHeight)
    }

    /** Every hotspot is placed under the current layout and obeys the
        name-label rule. */
    ghost predicate Valid()
      reads this
    {
      && naturalWidth > 0.0 && naturalHeight > 0.0
      && forall i :: 0 <= i < |hotspots| ==> LabelRule(hotspots[i]) && Synced(hotspots[i], CurrentLayout())
    }

    /** The field initialisers: a 1024 x 1024 image at scale 1, offset 0,
        not yet displayed, with no characters and no hotspots. */
    constructor (version: SceneVersion)
      ensures Valid() && this.version == version
      ensures !hasBackground && naturalWidth == 1024.0 && naturalHeight == 1024.0
      ensures StoredFit() == Fit(1.0, 1.0, 1.0, 0.0, 0.0, 0.0, 0.0)
      ensures characters == map[] && hotspots == []
    {
      this.version := version;
      hasBackground := false;
      naturalWidth, naturalHeight := 1024.0, 1024.0;
      backgroundScale, scaleX, scaleY := 1.0, 1.0, 1.0;
      offsetX, offsetY := 0.0, 0.0;
      displayWidth, displayHeight := 0.0, 0.0;
      characters := map[];
      hotspots := [];
    }

    /** Re-places every hotspot under the current layout, in order. */
    method ApplyWorldTransformToAll()
      requires forall i :: 0 <= i < |hotspots| ==> LabelRule(hotspots[i])
      modifies this`hotspots
      ensures |hotspots| == |old(hotspots)|
      ensures forall i :: 0 <= i < |hotspots| ==> hotspots[i] == Placed(old(hotspots[i]), CurrentLayout())
      ensures forall i :: 0 <= i < |hotspots| ==> LabelRule(hotspots[i]) && Synced(hotspots[i], CurrentLayout())
    {
      var i := 0;
      while i < |hotspots|
        invariant 0 <= i <= |hotspots| == |old(hotspots)|
        invariant forall j :: 0 <= j < i ==> hotspots[j] == Placed(old(hotspots[j]), CurrentLayout())
        invariant forall j :: i <= j < |hotspots| ==> hotspots[j] == old(hotspots[j])
        invariant forall j :: 0 <= j < |hotspots| ==> LabelRule(hotspots[j])
      {
        hotspots := hotspots[i := Placed(hotspots[i], CurrentLayout())];
        i := i + 1;
      }
    }

    /** `configureBackgroundLayout`: nothing happens without a background;
        otherwise the fit is stored and every hotspot is re-placed. */
    method ConfigureBackgroundLayout(gameWidth: real, gameHeight: real)
      requires Valid()
      modifies this
      ensures Valid()
      ensures !old(hasBackground) ==> StoredFit() == old(StoredFit()) && hotspots == old(hotspots)
      ensures old(hasBackground) ==> StoredFit() == FitLayout(gameWidth, gameHeight, naturalWidth, naturalHeight)
      ensures |hotspots| == |old(hotspots)|
      ensures forall i :: 0 <= i < |hotspots| ==>
        && hotspots[i].npc == old(hotspots[i]).npc
        && hotspots[i].labelVisible == old(hotspots[i]).labelVisible
        && hotspots[i].isHovering == old(hotspots[i]).isHovering
        && hotspots[i].isDialogueActive == old(hotspots[i]).isDialogueActive
      ensures old(StoredFit()) == FitLayout(gameWidth, gameHeight, naturalWidth, naturalHeight) ==> hotspots == old(hotspots)
      ensures hasBackground == old(hasBackground) && naturalWidth == old(naturalWidth) && naturalHeight == old(naturalHeight)
      ensures characters == old(characters)
    {
      if !hasBackground {
        return;
      }
      var fit := FitLayout(gameWidth, gameHeight, naturalWidth, naturalHeight);
      backgroundScale := fit.scale;
      scaleX, scaleY := fit.scaleX, fit.scaleY;
      offsetX, offsetY := fit.offsetX, fit.offsetY;
      displayWidth, displayHeight := fit.displayWidth, fit.displayHeight;
      if |hotspots| > 0 {
        ApplyWorldTransformToAll();
      }
      assert old(StoredFit()) == fit ==> CurrentLayout() == old(CurrentLayout());
    }

    /** The background part of `create`: the image's natural size is
        recorded and the layout configured for the viewport. */
    method AttachBackground(naturalWidth: real, naturalHeight: real, gameWidth: real, gameHeight: real)
      requires Valid() && naturalWidth > 0.0 && naturalHeight > 0.0
      modifies this
      ensures Valid() && hasBackground
      ensures this.naturalWidth == naturalWidth && this.naturalHeight == naturalHeight
      ensures StoredFit() == FitLayout(gameWidth, gameHeight, naturalWidth, naturalHeight)
      ensures |hotspots| == |old(hotspots)| && characters == old(characters)
    {
      hasBackground := true;
      this.naturalWidth, this.naturalHeight := naturalWidth, naturalHeight;
      ConfigureBackgroundLayout(gameWidth, gameHeight);
    }

    /** `createRoundTableHotspots`: one entry per config with a known
        character, in config order, placed under the current layout, with
        its label hidden and both flags down. */
    method CreateRoundTableHotspots(configs: seq<HotspotNpcConfig>)
      requires Valid()
      modifies this`hotspots
      ensures Valid()
      ensures |hotspots| == |BuildHotspots(characters, configs)|
      ensures forall i :: 0 <= i < |hotspots| ==>
        hotspots[i] == Placed(NewEntry(BuildHotspots(characters, configs)[i]), CurrentLayout())
    {
      var npcs := BuildHotspots(characters, configs);
      hotspots := seq(|npcs|, i requires 0 <= i < |npcs| => NewEntry(npcs[i]));
      ApplyWorldTransformToAll();
    }

    /** `loadCharactersAndNPCs` once the registry has returned the data:
        registers every character, then builds the hotspots. The
        first-generation scene also derives its default dialogue table,
        which it hands to its dialogue manager; the second-generation
        scene derives none. */
    method LoadCharactersAndHotspots(data: CharactersData) returns (seeded: Option<seq<DialogueV2.CharacterV2>>)
      requires Valid()
      modifies this`characters, this`hotspots
      ensures Valid()
      ensures characters == RegisterAll(old(characters), data.characters)
      ensures |hotspots| == |BuildHotspots(characters, data.hotspotNpcs)|
      ensures forall i :: 0 <= i < |hotspots| ==>
        hotspots[i] == Placed(NewEntry(BuildHotspots(characters, data.hotspotNpcs)[i]), CurrentLayout())
      ensures version == V1 <==> seeded.Some?
      ensures seeded.Some? ==> seeded.value == DefaultDialogues(data.characters)
    {
      var i := 0;
      while i < |data.characters|
        invariant 0 <= i <= |data.characters|
        invariant characters == RegisterAll(old(characters), data.characters[..i])
        invariant hotspots == old(hotspots)
      {
        assert data.characters[..i + 1][..i] == data.characters[..i];
        characters := characters[data.characters[i].id := data.characters[i]];
        i := i + 1;
      }
      assert data.characters[..i] == data.characters;
      if version == V1 {
        seeded := Some(DefaultDialogues(data.characters));
      } else {
        seeded := None;
      }
      CreateRoundTableHotspots(data.hotspotNpcs);
    }

    /** `pointerover`: the hotspot is hovered and its label shown. */
    method PointerOver(i: nat)
      requires Valid() && i < |hotspots|
      modifies this`hotspots
      ensures Valid()
      ensures hotspots == old(hotspots)[i := old(hotspots[i]).(isHovering := true, labelVisible := true)]
      ensures hotspots[i].labelVisible
    {
      hotspots := hotspots[i := hotspots[i].(isHovering := true, labelVisible := true)];
    }

    /** `pointerout`: no longer hovered; the label stays only while the
        hotspot's NPC is speaking. */
    method PointerOut(i: nat)
      requires Valid() && i < |hotspots|
      modifies this`hotspots
      ensures Valid()
      ensures |hotspots| == |old(hotspots)|
      ensures forall j :: 0 <= j < |hotspots| && j != i ==> hotspots[j] == old(hotspots[j])
      ensures hotspots[i].npc == old(hotspots[i]).npc && hotspots[i].world == old(hotspots[i]).world
      ensures !hotspots[i].isHovering && hotspots[i].isDialogueActive == old(hotspots[i]).isDialogueActive
      ensures hotspots[i].labelVisible <==> old(hotspots[i]).isDialogueActive
    {
      var e := hotspots[i].(isHovering := false);
      if !e.isDialogueActive {
        e := e.(labelVisible := false);
      }
      hotspots := hotspots[i := e];
    }

    /** The `dialogue-shown` handler: the first hotspot of that NPC is
        marked speaking and its label shown; other ids change nothing. */
    method OnDialogueShown(npcId: string)
      requires Valid()
      modifies this`hotspots
      ensures Valid()
      ensures |hotspots| == |old(hotspots)|
      ensures FindHotspot(old(hotspots), npcId).None? ==> hotspots == old(hotspots)
      ensures FindHotspot(old(hotspots), npcId).Some? ==>
        var k := FindHotspot(old(hotspots), npcId).value;
        hotspots == old(hotspots)[k := old(hotspots[k]).(isDialogueActive := true, labelVisible := true)]
    {
      var found := FindHotspot(hotspots, npcId);
      if found.Some? {
        var k := found.value;
        hotspots := hotspots[k := hotspots[k].(isDialogueActive := true, labelVisible := true)];
      }
    }

    /** The `dialogue-hidden` handler: the first hotspot of that NPC stops
        speaking; its label stays only while hovered. */
    method OnDialogueHidden(npcId: string)
      requires Valid()
      modifies this`hotspots
      ensures Valid()
      ensures |hotspots| == |old(hotspots)|
      ensures FindHotspot(old(hotspots), npcId).None? ==> hotspots == old(hotspots)
      ensures FindHotspot(old(hotspots), npcId).Some? ==>
        var k := FindHotspot(old(hotspots), npcId).value;
        && (forall j :: 0 <= j < |hotspots| && j != k ==> hotspots[j] == old(hotspots[j]))
        && !hotspots[k].isDialogueActive && hotspots[k].isHovering == old(hotspots[k]).isHovering
        && (hotspots[k].labelVisible <==> old(hotspots[k]).isHovering)
        && hotspots[k].npc == old(hotspots[k]).npc && hotspots[k].world == old(hotspots[k]).world
    {
      var found := FindHotspot(hotspots, npcId);
      if found.Some? {
        var k := found.value;
        var e := hotspots[k].(isDialogueActive := false);
        if !e.isHovering {
          e := e.(labelVisible := false);
        }
        hotspots := hotspots[k := e];
      }
    }

    /** `pointerdown`: the request a click on hotspot i emits. It carries
        the NPC's id and name, no message, and the hotspot's data circle
        and offsets mapped through the current layout. */
    function PointerDown(i: nat): (r: (string, Payload))
      requires Valid() && i < |hotspots|
      reads this
      ensures r.0 == ClickEvent(version)
      ensures var npc := hotspots[i].npc;
        && r.1.npcId == Some(npc.id) && r.1.name == npc.name && r.1.message.None?
        && r.1.x == DataToWorld(npc.x, scaleX, offsetX)
        && r.1.y == DataToWorld(npc.y, scaleY, offsetY)
        && r.1.radius == Some(TransformNpc(npc, CurrentLayout()).radius)
        && r.1.bubbleOffsetX == TransformNpc(npc, CurrentLayout()).bubbleOffsetX
        && r.1.bubbleOffsetY == TransformNpc(npc, CurrentLayout()).bubbleOffsetY
        && r.1.bubbleGap == TransformNpc(npc, CurrentLayout()).bubbleGap
    {
      var e := hotspots[i];
      assert Synced(e, CurrentLayout());
      (ClickEvent(version),
       Payload(Some(e.npc.id), e.npc.name, None, e.world.x, e.world.y, Some(e.world.radius),
               e.world.bubbleOffsetX, e.world.bubbleOffsetY, e.world.bubbleGap))
    }
  }
}
