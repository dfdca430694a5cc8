/** The NPC registries (src/game/managers/NPCManager.ts and
    src/game/managers/NPCManagerV2.ts): a character table filled from the
    loaded data, and a table of standing NPC sprites, one per known
    character id, rebuilt from the standing configs. */
module NpcRegistry {
  import opened Text
  import DialogueV2

  /** `Character`; `dialogues` is the extension property the V2 registry
      attaches from the dialogue API. */
  datatype Character = Character(
    id: string, name: string, position: string, personality: string,
    dialogue: string, introduction: string, dialogues: Option<DialogueV2.Lines>)

  /** `StandingNpcConfig`; `facing` is read by the registries although the
      declared record has no such field, so it is optional here. */
  datatype StandingNpcConfig = StandingNpcConfig(
    characterId: string, x: real, y: real, styleId: string,
    action: Option<string>, facing: Option<string>)

  /** `HotspotNpcConfig`, in data coordinates. */
  datatype HotspotNpcConfig = HotspotNpcConfig(
    characterId: string, x: real, y: real, radius: real,
    bubbleOffsetX: Option<real>, bubbleOffsetY: Option<real>, bubbleGap: Option<real>)

  /** `CharactersData`, the content of `characters.json`. */
  datatype CharactersData = CharactersData(
    characters: seq<Character>, standingNpcs: seq<StandingNpcConfig>, hotspotNpcs: seq<HotspotNpcConfig>)

  /** `NPCData` as the registries build it for a standing NPC. */
  datatype NpcData = NpcData(
    id: string, name: string, position: string, dialogue: string,
    x: real, y: real, styleId: string, action: string, facing: string, npcType: string)

  /** The record a standing config turns into: identity from the
      character, placement and style from the config, action and facing
      falling back (for absent or empty values) to "idle" and "left". */
  function StandingData(c: Character, cfg: StandingNpcConfig): NpcData {
    NpcData(c.id, c.name, c.position, c.dialogue, cfg.x, cfg.y, cfg.styleId,
            OrElse(cfg.action, "idle"), OrElse(cfg.facing, "left"), "standing")
  }

  /** Every character is stored under its own id. */
  predicate WellKeyed(characters: map<string, Character>) {
    forall k :: k in characters ==> characters[k].id == k
  }

  /** The character table after registering `chars` in order over `m`: a
      later character with the same id replaces the earlier one. */
  function RegisterAll(m: map<string, Character>, chars: seq<Character>): map<string, Character>
    decreases |chars|
  {
    if chars == [] then m
    else RegisterAll(m, chars[..|chars| - 1])[chars[|chars| - 1].id := chars[|chars| - 1]]
  }

  /** The standing NPC table `createStandingNPCs` builds: configs with an
      unknown character are skipped, the others are stored under the
      character id, a later config overriding an earlier one. */
  function StandingPlan(characters: map<string, Character>, configs: seq<StandingNpcConfig>): map<string, NpcData>
    decreases |configs|
  {
    if configs == [] then map[]
    else
      var init := StandingPlan(characters, configs[..|configs| - 1]);
      var cfg := configs[|configs| - 1];
      if cfg.characterId in characters
      then init[characters[cfg.characterId].id := StandingData(characters[cfg.characterId], cfg)]
      else init
  }

  /** The V2 dialogue merge: each API character already in the table gets
      its three lines attached; unknown ids are skipped. */
  function MergeDialogues(m: map<string, Character>, api: seq<DialogueV2.CharacterV2>): map<string, Character>
    decreases |api|
  {
    if api == [] then m
    else
      var init := MergeDialogues(m, api[..|api| - 1]);
      var a := api[|api| - 1];
      if a.id in init then init[a.id := init[a.id].(dialogues := Some(a.dialogues))] else init
  }

  /** Registering characters keeps every earlier id and adds exactly the
      new ids, each mapped to its last occurrence. */
  lemma {:induction false} RegisterAllContents(m: map<string, Character>, chars: seq<Character>)
    ensures RegisterAll(m, chars).Keys == m.Keys + (set c | c in chars :: c.id)
    ensures forall k :: k in RegisterAll(m, chars) && k !in (set c | c in chars :: c.id) ==> RegisterAll(m, chars)[k] == m[k]
    ensures forall k :: k in RegisterAll(m, chars) ==> RegisterAll(m, chars)[k] in chars || (k in m && RegisterAll(m, chars)[k] == m[k])
    decreases |chars|
  {
    if chars != [] {
      var init := chars[..|chars| - 1];
      RegisterAllContents(m, init);
      assert chars == init + [chars[|chars| - 1]];
      assert (set c | c in chars :: c.id) == (set c | c in init :: c.id) + {chars[|chars| - 1].id};
    }
  }

  /** The standing table has an entry exactly for each config whose
      character is known. */
  lemma {:induction false} StandingPlanKeys(characters: map<string, Character>, configs: seq<StandingNpcConfig>)
    requires WellKeyed(characters)
    ensures StandingPlan(characters, configs).Keys
         == (set cfg | cfg in configs && cfg.characterId in characters :: cfg.characterId)
    decreases |configs|
  {
    if configs != [] {
      var init := configs[..|configs| - 1];
      var cfg := configs[|configs| - 1];
      StandingPlanKeys(characters, init);
      assert configs == init + [cfg];
      assert (set c | c in configs && c.characterId in characters :: c.characterId)
          == (set c | c in init && c.characterId in characters :: c.characterId)
             + (if cfg.characterId in characters then {cfg.characterId} else {});
    }
  }

  /** Every entry of the standing table belongs to a known character, is
      keyed by its own id, is a standing NPC, and comes from some config
      for that character, with the "idle"/"left" defaults applied. */
  lemma {:induction false} StandingPlanEntries(characters: map<string, Character>, configs: seq<StandingNpcConfig>)
    requires WellKeyed(characters)
    ensures forall k :: k in StandingPlan(characters, configs) ==>
      && k in characters
      && StandingPlan(characters, configs)[k].id == k
      && StandingPlan(characters, configs)[k].npcType == "standing"
      && exists cfg :: cfg in configs && cfg.characterId == k
           && StandingPlan(characters, configs)[k] == StandingData(characters[k], cfg)
    decreases |configs|
  {
    if configs != [] {
      var init := configs[..|configs| - 1];
      var cfg := configs[|configs| - 1];
      StandingPlanEntries(characters, init);
      var plan := StandingPlan(characters, configs);
      forall k | k in plan
        ensures k in characters && plan[k].id == k && plan[k].npcType == "standing"
        ensures exists c :: c in configs && c.characterId == k && plan[k] == StandingData(characters[k], c)
      {
        if cfg.characterId in characters && k == cfg.characterId {
          assert cfg in configs;
        } else {
          var c :| c in init && c.characterId == k && StandingPlan(characters, init)[k] == StandingData(characters[k], c);
          assert c in configs;
        }
      }
    }
  }

  /** A later config for the same character overrides an earlier one. */
  lemma LaterConfigWins(characters: map<string, Character>, configs: seq<StandingNpcConfig>, cfg: StandingNpcConfig)
    requires WellKeyed(characters) && cfg.characterId in characters
    ensures StandingPlan(characters, configs + [cfg])[cfg.characterId] == StandingData(characters[cfg.characterId], cfg)
  {
    assert (configs + [cfg])[..|configs|] == configs;
  }

  /** The dialogue merge never changes the set of characters, leaves ids
      not in the API list untouched, and changes nothing but `dialogues`. */
  lemma {:induction false} MergeDialoguesContents(m: map<string, Character>, api: seq<DialogueV2.CharacterV2>)
    ensures MergeDialogues(m, api).Keys == m.Keys
    ensures forall k :: k in m ==> MergeDialogues(m, api)[k] == m[k].(dialogues := MergeDialogues(m, api)[k].dialogues)
    ensures forall k :: k in m && (forall a :: a in api ==> a.id != k) ==> MergeDialogues(m, api)[k] == m[k]
    decreases |api|
  {
    if api != [] {
      var init := api[..|api| - 1];
      MergeDialoguesContents(m, init);
      assert forall a :: a in init ==> a in api;
    }
  }

  /** A command the registries forward to an NPC sprite whose class is not
      part of this model (style, action and animation switching, and the
      V2 sprite's position update). */
  datatype NpcCommand =
    | SetStyle(styleId: string, action: string)
    | SetAction(action: string)
    | PlayAnimation(action: string, duration: int)
    | UpdatePosition(x: real, y: real)

  /** The mutable part of a sprite, for saying what a command leaves alone. */
  datatype SpriteState = SpriteState(
    x: real, y: real, depth: real, interactive: bool, alive: bool, commands: seq<NpcCommand>)

  /** A standing NPC sprite (src/game/objects/NPC.ts): placed at the data
      coordinates, depth-sorted by y, interactive from the start. */
  class Npc {
    const data: NpcData
    var x: real
    var y: real
    var depth: real
    var interactive: bool
    var alive: bool
    var commands: seq<NpcCommand>

    constructor (data: NpcData)
      ensures this.data == data && x == data.x && y == data.y && depth == data.y
      ensures interactive && alive && commands == []
      ensures Pristine()
    {
      this.data := data;
      x := data.x;
      y := data.y;
      depth := data.y;
      interactive := true;
      alive := true;
      commands := [];
    }

    /** Placed at its data coordinates, depth-sorted by y, interactive,
        alive, and sent no command yet. */
    ghost predicate Pristine()
      reads this
    {
      x == data.x && y == data.y && depth == data.y && interactive && alive && commands == []
    }

    function State(): SpriteState
      reads this
    {
      SpriteState(x, y, depth, interactive, alive, commands)
    }

    method SetNpcInteractive(interactive: bool)
      modifies this`interactive
      ensures this.interactive == interactive
    {
      this.interactive := interactive;
    }

    method Forward(c: NpcCommand)
      modifies this`commands
      ensures commands == old(commands) + [c]
    {
      commands := commands + [c];
    }

    method Destroy()
      modifies this`alive
      ensures !alive
    {
      alive := false;
    }
  }

  /** A sprite for every entry of a standing table, carrying that entry's
      data and still as its constructor left it. */
  ghost predicate SpritesFor(npcs: map<string, Npc>, plan: map<string, NpcData>)
    reads npcs.Values
  {
    && npcs.Keys == plan.Keys
    && (forall k :: k in npcs ==> npcs[k].data == plan[k])
    && (forall k :: k in npcs ==> npcs[k].Pristine())
  }

  /** The sprite-creating loop of `createStandingNPCs`: one fresh sprite
      per config whose character is known, stored under the character id,
      a later config replacing the sprite of an earlier one. */
  method BuildStandingNpcs(characters: map<string, Character>, configs: seq<StandingNpcConfig>)
    returns (npcs: map<string, Npc>)
    requires WellKeyed(characters)
    ensures SpritesFor(npcs, StandingPlan(characters, configs))
    ensures forall k :: k in npcs ==> fresh(npcs[k])
    ensures forall k :: k in npcs ==> k in characters && npcs[k].data.id == k
  {
    npcs := map[];
    var i := 0;
    while i < |configs|
      invariant 0 <= i <= |configs|
      invariant SpritesFor(npcs, StandingPlan(characters, configs[..i]))
      invariant forall k :: k in npcs ==> fresh(npcs[k])
    {
      assert configs[..i + 1][..i] == configs[..i];
      var cfg := configs[i];
      if cfg.characterId in characters {
        var character := characters[cfg.characterId];
        var npc := new Npc(StandingData(character, cfg));
        npcs := npcs[character.id := npc];
      }
      i := i + 1;
    }
    assert configs[..i] == configs;
    StandingPlanEntries(characters, configs);
  }

  /** `NPCManager`. */
  class NpcManager {
    var npcs: map<string, Npc>
    var characters: map<string, Character>

    /** Every sprite belongs to a known character and is stored under its
        own id (so no sprite is stored twice). */
    ghost predicate Valid()
      reads this
    {
      && WellKeyed(characters)
      && npcs.Keys <= characters.Keys
      && forall k :: k in npcs ==> npcs[k].data.id == k
    }

    constructor ()
      ensures Valid() && npcs == map[] && characters == map[]
    {
      npcs := map[];
      characters := map[];
    }

    /** `loadNPCData` once the JSON has been fetched: registers the
        characters, then rebuilds the standing NPCs. */
    method LoadNpcData(data: CharactersData)
      requires Valid()
      modifies this, npcs.Values
      ensures Valid()
      ensures characters == RegisterAll(old(characters), data.characters)
      ensures SpritesFor(npcs, StandingPlan(characters, data.standingNpcs))
      ensures forall k :: k in npcs ==> fresh(npcs[k])
      ensures forall n :: n in old(npcs.Values) ==> !n.alive
    {
      var i := 0;
      while i < |data.characters|
        invariant 0 <= i <= |data.characters|
        invariant characters == RegisterAll(old(characters), data.characters[..i])
        invariant npcs == old(npcs) && Valid()
        invariant old(characters).Keys <= characters.Keys
      {
        assert data.characters[..i + 1][..i] == data.characters[..i];
        characters := characters[data.characters[i].id := data.characters[i]];
        i := i + 1;
      }
      assert data.characters[..i] == data.characters;
      CreateStandingNpcs(data.standingNpcs);
    }

    /** Destroys every sprite and empties the table. */
    method ClearNpcs()
      requires Valid()
      modifies this`npcs, npcs.Values
      ensures Valid() && npcs == map[]
      ensures forall n :: n in old(npcs.Values) ==> !n.alive
    {
      var remaining := npcs.Keys;
      while remaining != {}
        invariant remaining <= npcs.Keys && npcs == old(npcs)
        invariant forall k :: k in npcs && k !in remaining ==> !npcs[k].alive
        decreases remaining
      {
        var k :| k in remaining;
        npcs[k].Destroy();
        remaining := remaining - {k};
      }
      npcs := map[];
    }

    /** `createStandingNPCs`: clears the table, then creates one sprite per
        config whose character is known, following `StandingPlan`. */
    method CreateStandingNpcs(configs: seq<StandingNpcConfig>)
      requires Valid()
      modifies this`npcs, npcs.Values
      ensures Valid()
      ensures SpritesFor(npcs, StandingPlan(characters, configs))
      ensures forall k :: k in npcs ==> fresh(npcs[k])
      ensures forall n :: n in old(npcs.Values) ==> !n.alive
    {
      ClearNpcs();
      npcs := BuildStandingNpcs(characters, configs);
    }

    function GetNpc(id: string): (r: Option<Npc>)
      reads this
      ensures r.Some? <==> id in npcs
      ensures r.Some? ==> r.value == npcs[id]
    {
      if id in npcs then Some(npcs[id]) else None
    }

    function GetCharacter(id: string): (r: Option<Character>)
      reads this
      ensures r.Some? <==> id in characters
      ensures r.Some? ==> r.value == characters[id]
    {
      if id in characters then Some(characters[id]) else None
    }

    /** Moves a known sprite and re-sorts it by its new y; unknown ids are
        ignored. */
    method UpdateNpcPosition(id: string, x: real, y: real)
      requires Valid()
      modifies if id in npcs then {npcs[id]} else {}
      ensures id in npcs ==> npcs[id].x == x && npcs[id].y == y && npcs[id].depth == y
      ensures id in npcs ==> npcs[id].State() == old(npcs[id].State()).(x := x, y := y, depth := y)
    {
      if id in npcs {
        var npc := npcs[id];
        npc.x := x;
        npc.y := y;
        npc.depth := y;
      }
    }

    method SetNpcInteractive(id: string, interactive: bool)
      requires Valid()
      modifies if id in npcs then {npcs[id]} else {}
      ensures id in npcs ==> npcs[id].interactive == interactive
      ensures id in npcs ==> npcs[id].State() == old(npcs[id].State()).(interactive := interactive)
    {
      if id in npcs {
        npcs[id].SetNpcInteractive(interactive);
      }
    }

    /** `setNPCStyle`; the action defaults to "idle". */
    method SetNpcStyle(id: string, styleId: string, action: Option<string>)
      requires Valid()
      modifies if id in npcs then {npcs[id]} else {}
      ensures id in npcs ==> npcs[id].commands == old(npcs[id].commands) + [SetStyle(styleId, action.GetOr("idle"))]
      ensures id in npcs ==> npcs[id].State() == old(npcs[id].State()).(commands := npcs[id].commands)
    {
      if id in npcs {
        npcs[id].Forward(SetStyle(styleId, action.GetOr("idle")));
      }
    }

    method SetNpcAction(id: string, action: string)
      requires Valid()
      modifies if id in npcs then {npcs[id]} else {}
      ensures id in npcs ==> npcs[id].commands == old(npcs[id].commands) + [SetAction(action)]
      ensures id in npcs ==> npcs[id].State() == old(npcs[id].State()).(commands := npcs[id].commands)
    {
      if id in npcs {
        npcs[id].Forward(SetAction(action));
      }
    }

    /** `playNPCAnimation`; the duration defaults to 200 ms. */
    method PlayNpcAnimation(id: string, action: string, duration: Option<int>)
      requires Valid()
      modifies if id in npcs then {npcs[id]} else {}
      ensures id in npcs ==> npcs[id].commands == old(npcs[id].commands) + [PlayAnimation(action, duration.GetOr(200))]
      ensures id in npcs ==> npcs[id].State() == old(npcs[id].State()).(commands := npcs[id].commands)
    {
      if id in npcs {
        npcs[id].Forward(PlayAnimation(action, duration.GetOr(200)));
      }
    }

    /** Destroys the sprites; the character table stays. */
    method Destroy()
      requires Valid()
      modifies this`npcs, npcs.Values
      ensures Valid() && npcs == map[] && characters == old(characters)
      ensures forall n :: n in old(npcs.Values) ==> !n.alive
    {
      ClearNpcs();
    }
  }

  /** `NPCManagerV2`: the same tables; sprite position updates are
      forwarded, API dialogues are merged into the character table, and
      `destroy` empties both tables. */
  class NpcManagerV2 {
    var npcs: map<string, Npc>
    var characters: map<string, Character>

    ghost predicate Valid()
      reads this
    {
      && WellKeyed(characters)
      && npcs.Keys <= characters.Keys
      && forall k :: k in npcs ==> npcs[k].data.id == k
    }

    constructor ()
      ensures Valid() && npcs == map[] && characters == map[]
    {
      npcs := map[];
      characters := map[];
    }

    /** `loadNPCData` once the JSON has been fetched; the data is handed
        back to the scene. */
    method LoadNpcData(data: CharactersData) returns (r: CharactersData)
      requires Valid()
      modifies this, npcs.Values
      ensures Valid() && r == data
      ensures characters == RegisterAll(old(characters), data.characters)
      ensures SpritesFor(npcs, StandingPlan(characters, data.standingNpcs))
      ensures forall k :: k in npcs ==> fresh(npcs[k])
      ensures forall n :: n in old(npcs.Values) ==> !n.alive
    {
      var i := 0;
      while i < |data.characters|
        invariant 0 <= i <= |data.characters|
        invariant characters == RegisterAll(old(characters), data.characters[..i])
        invariant npcs == old(npcs) && Valid()
        invariant old(characters).Keys <= characters.Keys
      {
        assert data.characters[..i + 1][..i] == data.characters[..i];
        characters := characters[data.characters[i].id := data.characters[i]];
        i := i + 1;
      }
      assert data.characters[..i] == data.characters;
      CreateStandingNpcs(data.standingNpcs);
      r := data;
    }

    /** `updateDialoguesFromAPI`, following `MergeDialogues`. */
    method UpdateDialoguesFromApi(api: seq<DialogueV2.CharacterV2>)
      requires Valid()
      modifies this`characters
      ensures Valid()
      ensures characters == MergeDialogues(old(characters), api)
      ensures characters.Keys == old(characters).Keys
    {
      var i := 0;
      while i < |api|
        invariant 0 <= i <= |api|
        invariant characters == MergeDialogues(old(characters), api[..i])
        invariant characters.Keys == old(characters).Keys && Valid()
      {
        assert api[..i + 1][..i] == api[..i];
        var a := api[i];
        if a.id in characters {
          characters := characters[a.id := characters[a.id].(dialogues := Some(a.dialogues))];
        }
        i := i + 1;
      }
      assert api[..i] == api;
    }

    method ClearNpcs()
      requires Valid()
      modifies this`npcs, npcs.Values
      ensures Valid() && npcs == map[]
      ensures forall n :: n in old(npcs.Values) ==> !n.alive
    {
      var remaining := npcs.Keys;
      while remaining != {}
        invariant remaining <= npcs.Keys && npcs == old(npcs)
        invariant forall k :: k in npcs && k !in remaining ==> !npcs[k].alive
        decreases remaining
      {
        var k :| k in remaining;
        npcs[k].Destroy();
        remaining := remaining - {k};
      }
      npcs := map[];
    }

    method CreateStandingNpcs(configs: seq<StandingNpcConfig>)
      requires Valid()
      modifies this`npcs, npcs.Values
      ensures Valid()
      ensures SpritesFor(npcs, StandingPlan(characters, configs))
      ensures forall k :: k in npcs ==> fresh(npcs[k])
      ensures forall n :: n in old(npcs.Values) ==> !n.alive
    {
      ClearNpcs();
      npcs := BuildStandingNpcs(characters, configs);
    }

    function GetNpc(id: string): (r: Option<Npc>)
      reads this
      ensures r.Some? <==> id in npcs
      ensures r.Some? ==> r.value == npcs[id]
    {
      if id in npcs then Some(npcs[id]) else None
    }

    function GetCharacter(id: string): (r: Option<Character>)
      reads this
      ensures r.Some? <==> id in characters
      ensures r.Some? ==> r.value == characters[id]
    {
      if id in characters then Some(characters[id]) else None
    }

    /** Forwards the move to a known sprite; unknown ids are ignored. */
    method UpdateNpcPosition(id: string, x: real, y: real)
      requires Valid()
      modifies if id in npcs then {npcs[id]} else {}
      ensures id in npcs ==> npcs[id].commands == old(npcs[id].commands) + [UpdatePosition(x, y)]
      ensures id in npcs ==> npcs[id].State() == old(npcs[id].State()).(commands := npcs[id].commands)
    {
      if id in npcs {
        npcs[id].Forward(UpdatePosition(x, y));
      }
    }

    method SetNpcInteractive(id: string, interactive: bool)
      requires Valid()
      modifies if id in npcs then {npcs[id]} else {}
      ensures id in npcs ==> npcs[id].interactive == interactive
      ensures id in npcs ==> npcs[id].State() == old(npcs[id].State()).(interactive := interactive)
    {
      if id in npcs {
        npcs[id].SetNpcInteractive(interactive);
      }
    }

    /** Destroys the sprites and forgets every character. */
    method Destroy()
      requires Valid()
      modifies this`npcs, this`characters, npcs.Values
      ensures Valid() && npcs == map[] && characters == map[]
      ensures forall n :: n in old(npcs.Values) ==> !n.alive
    {
      ClearNpcs();
      characters := map[];
    }
  }
}
