# Office NPC dialogue engine, modelled in Dafny

The office is a Phaser scene with characters sitting at a round table.
Clicking a character's circular hotspot asks a dialogue manager to show a
speech bubble above it. The second-generation manager reveals each
character's three lines one click at a time. The third line is a longer
"thought" bubble, and clicking someone else restarts that person. A bubble
hides itself after a few seconds. Name labels show while a hotspot is
hovered or its character is speaking. The whole picture is letterboxed
into the viewport, so the hotspots are mapped from image coordinates to
world coordinates.

Around this engine sit several smaller parts:

- the NPC registries;
- the style table with its frame lookup;
- three UI widgets: the past-topics panel, the topic banner and the corner buttons with the share link;
- a sound cache;
- two offline Python tools: the sprite-sheet cutter and the sensitive-field remover.

One Dafny module models each source file. The two office scenes share one
module, because they differ only in the click event's name and the load
path.

| module | models |
|---|---|
| `Text` | string helpers (prefix, substring, decimal digits, option fallback) |
| `Placement` | src/game/utils/DialogueUtils.ts |
| `Bubble` | src/game/objects/DialogueBubble.ts, with an explicit scene clock |
| `DialogueV2` | src/game/managers/DialogueManagerV2.ts |
| `DialogueV1` | src/game/managers/DialogueManager.ts |
| `Letterbox` | the layout and transform helpers of src/game/scenes/Game.ts and GameV2.ts |
| `OfficeScene` | the scene state of Game.ts and GameV2.ts: layout fields, characters, hotspots |
| `NpcRegistry` | src/game/managers/NPCManager.ts, NPCManagerV2.ts and the NPC sprite's state |
| `NpcStyles` | src/game/data/npcStyles.ts and src/game/utils/NPCStyleUtils.ts |
| `TopicList` | src/game/ui/TopicListUI.ts |
| `TopicTitle` | src/game/ui/TopicTitleUI.ts |
| `ControlButtons` | src/game/ui/ControlButtons.ts |
| `UriComponent` | ECMAScript `encodeURIComponent` and the decoding that inverts it |
| `Sound` | src/game/utils/SoundManager.ts |
| `SpriteSheet` | tools/sprite_processor.py |
| `SensitiveFields` | tools/remove_sensitive_fields.py |

Timers and tweens are explicit. A `Bubble.Scene` holds the clock, the
pending actions and the log of `dialogue-shown` / `dialogue-hidden`
notices:

- `show` schedules an entry-tween end and an auto-hide;
- `hide` schedules a fade end;
- `Bubble.Fire` performs the action that is due next.

The auto-hide is never cancelled, exactly as in the source. The
`DialogueV2` scenario therefore shows a pre-empted bubble's timer firing
later. That timer clears the *new* owner and announces the new owner as
hidden while the new bubble is still on screen.

Coordinates and sizes are `real`. Text measurement is a function parameter
(`measure`). Phaser rendering is not modelled.

## Model

| member | source | states |
|---|---|---|
| Placement.ResolveStandingBubbleOffset | src/game/utils/DialogueUtils.ts:15-17 | the result is the base offset plus the extra offset, with an absent extra counting as 0 |
| Placement.ComputeBubblePosition | src/game/utils/DialogueUtils.ts:19-52 | x is clamped: x ≥ minX, and x ≤ maxX when minX ≤ maxX; x equals the target inside the bounds and the violated bound outside. y ≥ minY; y is either the target or minY, and it is the target whenever the target reaches minY |
| Placement.StandingIgnoresGeometry | src/game/utils/DialogueUtils.ts:40-43 | with no radius, the position is the same for any bubble height, tail size or gap, and the target y is anchorY + baseOffsetY + (offsetY ?? 0) |
| Placement.XIndependentOfMode | src/game/utils/DialogueUtils.ts:45-48 | x depends only on anchor x, the x offset and the bounds; it is the same in hotspot and standing mode |
| Placement.HotspotMonotone | src/game/utils/DialogueUtils.ts:35-39 | in hotspot mode, a larger radius, tail, bubble height or gap (gap defaulting to 12) never lowers the bubble, that is, never increases y |
| Placement.HotspotExample | src/game/utils/DialogueUtils.ts:35-39 | the worked example (radius 40, height 60, tail 12, gap 12) lands at (500, 406) inside the bounds; the same payload with radius 0 still takes hotspot mode and lands at (500, 446), whatever the standing base offset |
| Bubble.EntryDuration | src/game/objects/DialogueBubble.ts:278-298 | the entry tween lasts 800 ms for a thought and 200 ms for normal speech |
| Bubble.BubbleSize | src/game/objects/DialogueBubble.ts:56-61 | width = max(textWidth + 2·12, 80), so it is ≥ 80; height = textHeight + 2·12; the same for both bubble types |
| Bubble.DialogueBubble.constructor | src/game/objects/DialogueBubble.ts:14-43 | the bubble keeps its type and anchor, its size is `BubbleSize` of the measured text, and it starts attached; the getters return this size's height and the tail size 12 |
| Bubble.DialogueBubble.SetPosition | src/game/objects/DialogueBubble.ts:14-35 | the container moves to the given point and nothing else changes |
| Bubble.DialogueBubble.Show | src/game/objects/DialogueBubble.ts:272-309 | exactly two actions are scheduled: the entry-tween end after `EntryDuration` and an auto-hide carrying the callback after `duration`; the clock and the notices are unchanged |
| Bubble.DialogueBubble.Hide | src/game/objects/DialogueBubble.ts:311-331 | an attached bubble starts fading and schedules a fade end 150 ms later that carries the callback; a detached bubble reports `immediate`, so the caller runs the callback at once and then destroys it |
| Bubble.DialogueBubble.Destroy | src/game/objects/DialogueBubble.ts:333-338 | the bubble is detached and destroyed; no pending timer is removed |
| Bubble.Scene.Schedule | src/game/objects/DialogueBubble.ts:301-308 | one pending action is appended, due `delay` ms from now |
| Bubble.Fire | src/game/objects/DialogueBubble.ts:301-330 | the next due action completes and the clock moves to its deadline. An entry-tween end makes the bubble visible. An auto-hide on an attached bubble starts the fade. A fade end, or an auto-hide on a detached bubble, returns the callback to run and then the bubble to destroy |
| DialogueV2.Click | src/game/managers/DialogueManagerV2.ts:58-104 | the request is dropped exactly when the id is missing or has no lines, and a dropped request changes nothing. Otherwise the line shown is lines[index] with index ≤ 2; the kind is thought ⇔ index = 2 and the duration is 6000 ⇔ index = 2 (normal/4000 below); the clicked NPC becomes owner and the lines table is kept |
| DialogueV2.DialoguesOfContents | src/game/managers/DialogueManagerV2.ts:41-48 | after loading, the table's keys are exactly the given ids, and each id maps to its last entry's lines |
| DialogueV2.ClickTouchesOnlyClicked | src/game/managers/DialogueManagerV2.ts:74-104 | a request keeps the ledger's key set and every count in 0..2, and changes no count other than the clicked NPC's |
| DialogueV2.ClickIndex | src/game/managers/DialogueManagerV2.ts:74-104 | with c the count after the switch reset, the index is min(c, 2), and the count becomes c + 1 when below 2 and otherwise stays 2 |
| DialogueV2.SwitchStartsOver | src/game/managers/DialogueManagerV2.ts:74-78 | while a different NPC owns the bubble, the clicked NPC restarts at line 0 and its count becomes 1 |
| DialogueV2.ClickRankOk | src/game/managers/DialogueManagerV2.ts:102-104 | every request keeps all counts in {0, 1, 2} |
| DialogueV2.RepeatedClicks | src/game/managers/DialogueManagerV2.ts:81-104 | n successive clicks on one NPC show lines min(c + k, 2) for k = 0..n−1 (0, 1, 2, 2, … from a fresh start) |
| DialogueV2.LeeThenWang | src/game/managers/DialogueManagerV2.ts:58-113 | a worked run: lee's three lines come out in order, the third as a 6000 ms thought; wang then starts at line 0 while lee stays at 2; an unknown id is dropped |
| DialogueV2.DialogueManagerV2.constructor | src/game/managers/DialogueManagerV2.ts:23-36 | both tables are empty, there is no bubble and no owner, and the manager is subscribed |
| DialogueV2.DialogueManagerV2.SetCharacterDialogues | src/game/managers/DialogueManagerV2.ts:41-53 | both maps are replaced: the lines table by `DialoguesOf(chars)`, and the ledger by every given id at 0 |
| DialogueV2.DialogueManagerV2.OnBubbleHidden | src/game/managers/DialogueManagerV2.ts:140-145 | the hide callback clears the current owner, whoever it is now, and announces that owner as hidden if there was one |
| DialogueV2.DialogueManagerV2.HideCurrentBubble | src/game/managers/DialogueManagerV2.ts:148-158 | with a bubble present: it starts fading (or is destroyed once detached), `dialogue-hidden` is emitted for the owner, and both bubble and owner are cleared. With no bubble, only the already-null bubble stays null |
| DialogueV2.DialogueManagerV2.ShowDialogueV2 | src/game/managers/DialogueManagerV2.ts:58-146 | the new ledger is `Click` of the old one. A dropped request changes nothing. Otherwise the old bubble is hidden and its owner announced hidden before `dialogue-shown` for the clicked NPC. A fresh bubble of the chosen kind is placed by `ComputeBubblePosition` and shown for the chosen duration with the owner-clearing callback; the pending actions grow by exactly the fade, entry and auto-hide timers |
| DialogueV2.DialogueManagerV2.Present | src/game/managers/DialogueManagerV2.ts:106-146 | the second half of a shown request: previous bubble hidden, owner set, notices emitted, and the new bubble created, placed and shown |
| DialogueV2.DialogueManagerV2.OnShowDialogueV2Event | src/game/managers/DialogueManagerV2.ts:28-36 | the clock never moves. While subscribed, the listener does what `ShowDialogueV2` does: the ledger follows `Click`; a dropped click changes no bubble, notice or timer; a shown click fades or destroys the old bubble, announces the hidden owner and then the clicked NPC, and adds a fresh bubble of the chosen kind at `ComputeBubblePosition` with its entry and owner-clearing auto-hide timers. While unsubscribed, nothing changes, including the old bubble's phase |
| DialogueV2.DialogueManagerV2.ResetAllClickCounts | src/game/managers/DialogueManagerV2.ts:163-168 | every existing count becomes 0 and no id is added |
| DialogueV2.DialogueManagerV2.GetClickCount | src/game/managers/DialogueManagerV2.ts:173-175 | the stored count for a known id, 0 for an unknown id, always in 0..2 |
| DialogueV2.DialogueManagerV2.Destroy | src/game/managers/DialogueManagerV2.ts:177-182 | the current bubble is hidden as `HideCurrentBubble` does: its owner is announced and cleared, an attached bubble fades with a 150 ms fade end, a detached one is destroyed, and the clock is unchanged. The manager unsubscribes and both maps are emptied |
| DialogueV2.DialogueManagerV2.Tick | src/game/objects/DialogueBubble.ts:301-316 | when a timer falls due, the manager's tables and bubble stay as they are. A finishing action whose callback is the manager's clears the *current* owner and announces it hidden, before the bubble is destroyed; other actions leave the owner alone |
| DialogueV2.ScenarioSetup | src/game/managers/DialogueManagerV2.ts:41-53 | two characters loaded with both counts 0 and nothing shown |
| DialogueV2.ScenarioClickX | src/game/managers/DialogueManagerV2.ts:58-146 | X clicked at t = 0: X's count becomes 1, X owns the bubble, `dialogue-shown(x)` is emitted, and its auto-hide is pending at 4000 |
| DialogueV2.ScenarioClickY | src/game/managers/DialogueManagerV2.ts:106-113 | Y clicked at t = 1000: X's bubble fades (fade end at 1150), `dialogue-hidden(x)` comes before `dialogue-shown(y)`, and X's auto-hide at 4000 stays pending |
| DialogueV2.ScenarioTweensEnd | src/game/objects/DialogueBubble.ts:318-330 | X's fade ends and X's bubble is destroyed with no callback; Y's bubble becomes visible |
| DialogueV2.ScenarioStaleTimer | src/game/objects/DialogueBubble.ts:301-316 | at t = 4000, X's stale auto-hide runs the callback on its destroyed bubble. It clears owner Y and emits `dialogue-hidden(y)` while Y's bubble is still visible |
| DialogueV2.ScenarioClickXAgain | src/game/managers/DialogueManagerV2.ts:74-104 | with the owner cleared, clicking X is no switch: X continues at line 1 and its count becomes 2 |
| DialogueV1.PlaceV1 | src/game/managers/DialogueManager.ts:33-45 | x ∈ [120, 904]: the anchor plus offset (default 0) when that lies inside, 120 below it and 904 above it. y = max(80, anchorY + offsetY), with offsetY defaulting to −150 |
| DialogueV1.PlaceV1IsStandingPlacement | src/game/managers/DialogueManager.ts:40-45 | without offsets, the first-generation placement equals standing-mode `ComputeBubblePosition` with bounds [120, 904] × [80, ∞) and base offset −150 |
| DialogueV1.DialogueManager.constructor | src/game/managers/DialogueManager.ts:9-26 | no bubble, and the manager is subscribed to `show-dialogue` |
| DialogueV1.DialogueManager.HideCurrentBubble | src/game/managers/DialogueManager.ts:61-66 | an attached bubble gets a fade with no callback, the reference is dropped, and no notice is emitted |
| DialogueV1.DialogueManager.ShowDialogue | src/game/managers/DialogueManager.ts:28-59 | the old bubble is hidden first: it is fading if it was still attached, destroyed otherwise. Then a fresh normal bubble is placed at `PlaceV1` and shown for 4000 ms with no callback. Exactly those timers are added, no notice is sent and the clock does not move |
| DialogueV1.DialogueManager.OnShowDialogueEvent | src/game/managers/DialogueManager.ts:14-26 | while subscribed, the listener does what `ShowDialogue` does with the payload's anchor and offsets: the old bubble fades (or is destroyed if already detached), and a fresh normal bubble is placed at `PlaceV1`, sized by the message (an absent message measured as ""), with the old bubble's fade, the 200 ms entry and the 4000 ms auto-hide added. No notice either way and the clock never moves; while unsubscribed, the current bubble, its phase and attachment, and the timers stay as they were |
| DialogueV1.DialogueManager.Destroy | src/game/managers/DialogueManager.ts:68-71 | the manager unsubscribes after hiding the current bubble as `HideCurrentBubble` does: no notice, an attached bubble fades with a 150 ms fade end and no callback, a detached one is destroyed, and the clock is unchanged |
| Letterbox.FitLayout | src/game/scenes/Game.ts:202-225 | display = natural·scale; the image fits the viewport with equality on at least one axis; it is centred (2·offset + display = viewport per axis); and the stored scaleX = scaleY = fit scale. GameV2.ts:148-171 is the same code |
| Letterbox.FitScaleIsLargest | src/game/scenes/Game.ts:202-204 | any scale that fits the image inside the viewport is at most the fit scale |
| Letterbox.ScaleOr1 | src/game/scenes/Game.ts:238-246 | the `\|\| 1` fallback: a zero scale becomes 1 and other scales are kept, so the result is never 0 |
| Letterbox.DataWorldRoundTrip | src/game/scenes/Game.ts:238-246 | data → world → data and world → data → world are identities, for every stored scale including 0 |
| Letterbox.DataToWorldIncreasing | src/game/scenes/Game.ts:238-246 | for a non-negative scale the mapping is strictly increasing |
| Letterbox.TransformNpc | src/game/scenes/Game.ts:248-275 | the centre goes through data→world; radius and gap scale by max(sx, sy); offsets X and Y scale by sx and sy; absent offsets and gap stay absent. GameV2.ts:194-221 is the same code |
| Letterbox.DefaultLayoutIsIdentity | src/game/scenes/Game.ts:26-34 | under the initial layout (scale 1, offset 0) the world circle equals the data circle |
| Letterbox.FitKeepsHitArea | src/game/scenes/Game.ts:248-275 | under a fit layout, a point lies in the world hit circle exactly when its image point lies in the data circle |
| OfficeScene.Placed | src/game/scenes/Game.ts:521-549 | the world circle is `TransformNpc` of the data, the label sits at the world centre 10 above the circle, and the NPC data and flags are kept |
| OfficeScene.PlacedIdempotent | src/game/scenes/Game.ts:521-549 | re-applying the transform changes nothing, and the result does not depend on the previous world circle |
| OfficeScene.BuildHotspots | src/game/scenes/Game.ts:371-487 | every entry comes from a config whose character is known, and every such config yields its entry |
| OfficeScene.BuildHotspotsAppend | src/game/scenes/Game.ts:485-487 | the filter commutes with concatenation, so entries keep config order |
| OfficeScene.FindHotspot | src/game/scenes/Game.ts:495-503 | the first hotspot with that NPC id, or none when no hotspot has it |
| OfficeScene.DefaultDialogues | src/game/scenes/Game.ts:292-304 | one entry per character with its id, name and position, and its single line in all three slots |
| OfficeScene.GameScene.constructor | src/game/scenes/Game.ts:26-34 | a 1024 × 1024 image at scale 1 and offset 0, no background, no characters, no hotspots |
| OfficeScene.GameScene.ApplyWorldTransformToAll | src/game/scenes/Game.ts:227-232 | every hotspot is replaced by `Placed` under the current layout, in order; the label rule is kept |
| OfficeScene.GameScene.ConfigureBackgroundLayout | src/game/scenes/Game.ts:192-236 | without a background nothing changes. Otherwise the stored fit is `FitLayout` and every hotspot is re-placed with its data and flags kept; with the same size again the hotspots do not change. GameV2.ts:138-179 is the same code |
| OfficeScene.GameScene.AttachBackground | src/game/scenes/Game.ts:82-115 | the natural size is recorded and the fit stored for the viewport |
| OfficeScene.GameScene.CreateRoundTableHotspots | src/game/scenes/Game.ts:371-492 | one entry per config with a known character, in config order, placed under the current layout, with the label hidden and both flags down. GameV2.ts:301-420 is the same code |
| OfficeScene.GameScene.LoadCharactersAndHotspots | src/game/scenes/GameV2.ts:226-241 | characters are registered and hotspots built. The first-generation scene derives the default dialogue table (Game.ts:280-311); the second-generation scene seeds none |
| OfficeScene.GameScene.PointerOver | src/game/scenes/Game.ts:454-458 | the hotspot is hovered, its label shown, and nothing else changes |
| OfficeScene.GameScene.PointerOut | src/game/scenes/Game.ts:460-466 | hover ends, and the label stays visible exactly when the NPC is speaking |
| OfficeScene.GameScene.OnDialogueShown | src/game/scenes/Game.ts:495-503 | the first hotspot of the NPC becomes speaking with its label shown; an unknown id changes nothing |
| OfficeScene.GameScene.OnDialogueHidden | src/game/scenes/Game.ts:505-515 | the first hotspot of the NPC stops speaking, and its label stays exactly while hovered; an unknown id changes nothing. Every handler keeps label visible ⇔ hovering ∨ speaking |
| OfficeScene.GameScene.PointerDown | src/game/scenes/GameV2.ts:396-409 | emits `show-dialogue` (V1) or `show-dialogue-v2` (V2), carrying the NPC's id and name and its world circle, offsets and gap under the current layout |
| NpcRegistry.RegisterAllContents | src/game/managers/NPCManager.ts:20-33 | the character table keeps earlier ids, adds exactly the new ids, and maps each to a listed character or its earlier entry |
| NpcRegistry.StandingPlanKeys | src/game/managers/NPCManager.ts:35-65 | the standing table has a key exactly for each config whose character is known |
| NpcRegistry.StandingPlanEntries | src/game/managers/NPCManager.ts:40-63 | each entry belongs to a known character, is keyed by its id and has npcType "standing". It comes from some config for that character, with action and facing defaulting to "idle" and "left" |
| NpcRegistry.LaterConfigWins | src/game/managers/NPCManager.ts:63 | a later config for the same character overrides the earlier entry |
| NpcRegistry.MergeDialoguesContents | src/game/managers/NPCManagerV2.ts:50-61 | the merge keeps the key set, changes only the `dialogues` field, and leaves characters the API does not list untouched |
| NpcRegistry.Npc.constructor | src/game/objects/NPC.ts:9-35 | the sprite sits at its data position with depth = y, is interactive and alive, and has received no command |
| NpcRegistry.Npc.SetNpcInteractive | src/game/objects/NPC.ts:99-109 | the interactive flag is set |
| NpcRegistry.Npc.Destroy | src/game/objects/NPC.ts:111-118 | the sprite is no longer alive |
| NpcRegistry.BuildStandingNpcs | src/game/managers/NPCManager.ts:35-65 | one fresh pristine sprite per entry of the standing table, stored under its character id |
| NpcRegistry.NpcManager.constructor | src/game/managers/NPCManager.ts:16-18 | both tables are empty |
| NpcRegistry.NpcManager.LoadNpcData | src/game/managers/NPCManager.ts:20-33 | characters are registered, and the old sprites are destroyed and replaced by fresh sprites for the standing table |
| NpcRegistry.NpcManager.ClearNpcs | src/game/managers/NPCManager.ts:71-76 | every sprite is destroyed and the table emptied |
| NpcRegistry.NpcManager.CreateStandingNpcs | src/game/managers/NPCManager.ts:35-65 | clears first, then holds exactly one fresh sprite per config with a known character |
| NpcRegistry.NpcManager.GetNpc | src/game/managers/NPCManager.ts:78-80 | the stored sprite, or none for an unknown id |
| NpcRegistry.NpcManager.GetCharacter | src/game/managers/NPCManager.ts:86-88 | the stored character, or none for an unknown id |
| NpcRegistry.NpcManager.UpdateNpcPosition | src/game/managers/NPCManager.ts:94-101 | a known sprite gets x, y and depth = y and keeps every other field; for an unknown id the frame is empty, so nothing changes |
| NpcRegistry.NpcManager.SetNpcInteractive | src/game/managers/NPCManager.ts:103-108 | a known sprite's flag is set and its other fields are kept; an unknown id changes nothing |
| NpcRegistry.NpcManager.SetNpcStyle | src/game/managers/NPCManager.ts:113-122 | a known sprite receives setStyle with the action defaulting to "idle", and only its command log changes; an unknown id changes nothing |
| NpcRegistry.NpcManager.SetNpcAction | src/game/managers/NPCManager.ts:127-135 | a known sprite receives setAction, and only its command log changes; an unknown id changes nothing |
| NpcRegistry.NpcManager.PlayNpcAnimation | src/game/managers/NPCManager.ts:140-149 | a known sprite receives playActionAnimation with the duration defaulting to 200, and only its command log changes; an unknown id changes nothing |
| NpcRegistry.NpcManager.Destroy | src/game/managers/NPCManager.ts:151-153 | the sprites are destroyed and emptied, and the character table is left intact |
| NpcRegistry.NpcManagerV2.constructor | src/game/managers/NPCManagerV2.ts:21-23 | both tables are empty |
| NpcRegistry.NpcManagerV2.LoadNpcData | src/game/managers/NPCManagerV2.ts:28-44 | characters are registered, sprites are rebuilt for the standing table, and the loaded data is returned |
| NpcRegistry.NpcManagerV2.UpdateDialoguesFromApi | src/game/managers/NPCManagerV2.ts:50-61 | the table becomes `MergeDialogues` of the old one, and its key set never changes |
| NpcRegistry.NpcManagerV2.ClearNpcs | src/game/managers/NPCManagerV2.ts:102-107 | every sprite is destroyed and the table emptied |
| NpcRegistry.NpcManagerV2.CreateStandingNpcs | src/game/managers/NPCManagerV2.ts:63-100 | clears first, skips unknown characters, and stores fresh sprites under character ids with the "idle"/"left"/"standing" defaults |
| NpcRegistry.NpcManagerV2.GetNpc | src/game/managers/NPCManagerV2.ts:109-111 | the stored sprite, or none |
| NpcRegistry.NpcManagerV2.GetCharacter | src/game/managers/NPCManagerV2.ts:117-119 | the stored character, or none |
| NpcRegistry.NpcManagerV2.UpdateNpcPosition | src/game/managers/NPCManagerV2.ts:125-130 | a known sprite receives the move, and only its command log changes; an unknown id changes nothing |
| NpcRegistry.NpcManagerV2.SetNpcInteractive | src/game/managers/NPCManagerV2.ts:132-137 | a known sprite's flag is set and its other fields are kept; an unknown id changes nothing |
| NpcRegistry.NpcManagerV2.Destroy | src/game/managers/NPCManagerV2.ts:139-142 | sprites are destroyed, and both the NPC map and the character map are emptied |
| NpcStyles.TableWellFormed | src/game/data/npcStyles.ts:26-82 | every key is its style's id, and the listing holds each style exactly once |
| NpcStyles.DefaultFrameIsFirstIdle | src/game/data/npcStyles.ts:19-80 | every style's default frame is its first idle frame |
| NpcStyles.FramesOnSheet | src/game/data/npcStyles.ts:3-82 | every action list has 2 to 4 frames, each frame lies in 0..142, and 143 = 13 × 11 |
| NpcStyles.WalkingOverlapsSitting | src/game/data/npcStyles.ts:35-75 | casual_female_1's walking frames 26-28 are also business sitting frames |
| NpcStyles.GetStyleById | src/game/utils/NPCStyleUtils.ts:7-9 | a style is returned exactly when the id is a key, and it has that id |
| NpcStyles.GetAllStyles | src/game/utils/NPCStyleUtils.ts:11-13 | every style of the table, each once, in declaration order |
| NpcStyles.FilterSuited | src/game/utils/NPCStyleUtils.ts:15-21 | keeps exactly the styles for which some role r satisfies: position contains r, or r contains position |
| NpcStyles.FilterSuitedIsSubsequence | src/game/utils/NPCStyleUtils.ts:15-21 | the filter keeps the original order |
| NpcStyles.GetRecommendedStyles | src/game/utils/NPCStyleUtils.ts:15-21 | an order-preserving subsequence of all styles, holding exactly the suited ones |
| NpcStyles.EmptyPositionSuitsAll | src/game/utils/NPCStyleUtils.ts:18-19 | an empty position keeps every style |
| NpcStyles.JsRem | src/game/utils/NPCStyleUtils.ts:34 | JavaScript `%`: the remainder takes the dividend's sign |
| NpcStyles.GetFrameForAction | src/game/utils/NPCStyleUtils.ts:23-35 | an unknown style gives 0; an empty action list gives the default frame; otherwise frames[i mod len], a member of the list; a negative index with a non-zero remainder reads `undefined` |
| NpcStyles.FramePeriodic | src/game/utils/NPCStyleUtils.ts:26-34 | advancing the index by the list length gives the same frame, and the default index gives the first frame |
| NpcStyles.FrameAlwaysOnSheet | src/game/utils/NPCStyleUtils.ts:23-35 | for a known style and any index ≥ 0 the result is defined, in the action's list and on the sheet |
| TopicList.EscapeChar | src/game/ui/TopicListUI.ts:341-350 | the five specials become references beginning with `&` and ending with `;`; any other character stays as it is; none of < > " ' is emitted |
| TopicList.EscapeHtml | src/game/ui/TopicListUI.ts:341-350 | the output never shortens the input and contains no raw < > " '; a text without specials is unchanged |
| TopicList.EscapeRoundTrip | src/game/ui/TopicListUI.ts:341-350 | reading the character references back (section 13.1.4 of the HTML Living Standard) gives the original text |
| TopicList.EscapeInjective | src/game/ui/TopicListUI.ts:341-350 | different topics escape differently |
| TopicList.FormatDate | src/game/ui/TopicListUI.ts:318-336 | with diff = now − 1000·timestamp: days when ≥ 1 day, else hours, else minutes, else "剛剛"; the future also reads "剛剛" |
| TopicList.RenderList | src/game/ui/TopicListUI.ts:42-87 | an empty list renders the empty state. Otherwise the header count equals the topic count, each title is `EscapeHtml` of its topic (so it holds no raw < > " ') and reads back to that topic, and each time is `FormatDate` |
| TopicList.TopicListUi.constructor | src/game/ui/TopicListUI.ts:14-29 | no topics, nothing rendered, hidden, no callback, subscribed to resize |
| TopicList.TopicListUi.UpdateTopics | src/game/ui/TopicListUI.ts:34-37 | keeps the first min(10, n) topics in order and re-renders; visibility and position are unchanged |
| TopicList.TopicListUi.OnTopicSelect | src/game/ui/TopicListUI.ts:355-357 | the callback is registered |
| TopicList.TopicListUi.ClickItem | src/game/ui/TopicListUI.ts:305-311 | the callback receives topics[i].topic exactly when that item exists and a callback is set |
| TopicList.TopicListUi.Show | src/game/ui/TopicListUI.ts:362-369 | visible at (16, 60), with `lastVisibility` set |
| TopicList.TopicListUi.Hide | src/game/ui/TopicListUI.ts:374-377 | hidden, with `lastVisibility` cleared |
| TopicList.TopicListUi.Toggle | src/game/ui/TopicListUI.ts:382-388 | flips the visibility |
| TopicList.TopicListUi.IsVisible | src/game/ui/TopicListUI.ts:393-395 | reports `lastVisibility` |
| TopicList.TopicListUi.HandleResize | src/game/ui/TopicListUI.ts:400-405 | re-pins to (16, 60) only while `lastVisibility` holds |
| TopicList.TopicListUi.Destroy | src/game/ui/TopicListUI.ts:410-413 | unsubscribes from resize |
| TopicTitle.Backdrop | src/game/ui/TopicTitleUI.ts:67-91 | (textWidth + 40) × (textHeight + 20), centred on the origin |
| TopicTitle.TopicTitleUi.constructor | src/game/ui/TopicTitleUI.ts:12-48 | hidden with no topic, at (width/2, 40) |
| TopicTitle.TopicTitleUi.SetTopic | src/game/ui/TopicTitleUI.ts:53-62 | stores and shows the topic, and redraws the backdrop around the measured text |
| TopicTitle.TopicTitleUi.Hide | src/game/ui/TopicTitleUI.ts:105-108 | hidden, with the topic reset to "" |
| TopicTitle.TopicTitleUi.Show | src/game/ui/TopicTitleUI.ts:113-117 | visible only when a non-empty topic is held, otherwise unchanged |
| TopicTitle.TopicTitleUi.GetTopic | src/game/ui/TopicTitleUI.ts:122-124 | the stored topic ("" initially and after `hide`) |
| TopicTitle.TopicTitleUi.HandleResize | src/game/ui/TopicTitleUI.ts:96-100 | re-centred at (width/2, 40) |
| TopicTitle.TopicTitleUi.Destroy | src/game/ui/TopicTitleUI.ts:136-139 | unsubscribes from resize |
| TopicTitle.HideThenShow | src/game/ui/TopicTitleUI.ts:105-117 | `show` right after `hide` leaves the banner hidden with topic "" |
| ControlButtons.StyleFor | src/game/ui/ControlButtons.ts:69-73 | "分享" → 📤/#2196F3; else "過去" → 📜/#FF9800; else 🔄/#4CAF50 |
| ControlButtons.CreateButton | src/game/ui/ControlButtons.ts:62-122 | the label is the chosen icon, a space and the text, at the given anchor |
| ControlButtons.ConstructorStyles | src/game/ui/ControlButtons.ts:17-57 | the three buttons get the share, past and retry styles, and the retry label is the "not visible" text |
| ControlButtons.BuildShareUrl | src/game/ui/ControlButtons.ts:152-162 | no topic: origin + base + "/"; a topic: origin + base + "/?topic=" + encodeURIComponent(topic); a missing base counts as "" |
| ControlButtons.ShareUrlCarriesTopic | src/game/ui/ControlButtons.ts:152-162 | the link's `topic` parameter decodes back to exactly the topic and holds no &, =, # or space; an empty topic gives the bare root |
| ControlButtons.ControlBar.constructor | src/game/ui/ControlButtons.ts:17-57 | share at (width − 16, 16) right-aligned, past topics at (16, 16), retry at (140, 16); no topic, input hidden |
| ControlButtons.ControlBar.HandleResize | src/game/ui/ControlButtons.ts:127-131 | only the share button moves, to (width − 16, 16) |
| ControlButtons.ControlBar.HandleShare | src/game/ui/ControlButtons.ts:136-147 | the link handed to the clipboard is the share URL of the current topic |
| ControlButtons.ControlBar.ToggleInput | src/game/ui/ControlButtons.ts:188-209 | the retry callback (if set) sees the old flag, then the flag flips, and the label follows it ("⬆️ 收起" while the input is visible, else "🔄 重新討論"); the button is otherwise unchanged |
| ControlButtons.ControlBar.ClickPastTopics | src/game/ui/ControlButtons.ts:17-57 | a click calls the past-topics callback when one is set |
| ControlButtons.ControlBar.SetCurrentTopic | src/game/ui/ControlButtons.ts:214-216 | the topic is stored |
| ControlButtons.ControlBar.OnRetry | src/game/ui/ControlButtons.ts:221-223 | the retry callback is registered |
| ControlButtons.ControlBar.OnPastTopics | src/game/ui/ControlButtons.ts:228-230 | the past-topics callback is registered |
| ControlButtons.ControlBar.Destroy | src/game/ui/ControlButtons.ts:235-240 | unsubscribes from resize |
| ControlButtons.ToggleTwice | src/game/ui/ControlButtons.ts:188-209 | two toggles restore the flag and the label |
| UriComponent.Utf8 | src/game/ui/ControlButtons.ts:161 | 1 to 4 bytes: one exactly below 0x80, a lead byte announcing the length, and continuation bytes in 0x80..0xBF (section 3 of RFC 3629) |
| UriComponent.DecodeUtf8Char | src/game/ui/ControlButtons.ts:161 | each character's bytes decode back to it |
| UriComponent.Utf8RoundTrip | src/game/ui/ControlButtons.ts:161 | UTF-8 decoding inverts UTF-8 encoding on every string |
| UriComponent.HexDigit | src/game/ui/ControlButtons.ts:161 | an upper-case hex digit, never `%` |
| UriComponent.EscapeByte | src/game/ui/ControlButtons.ts:161 | `%XX` is three characters, each kept or `%` |
| UriComponent.PercentBytes | src/game/ui/ControlButtons.ts:161 | three characters per byte, all safe |
| UriComponent.EncodeChar | src/game/ui/ControlButtons.ts:161 | at least one character, all safe |
| UriComponent.EncodeUriComponent | src/game/ui/ControlButtons.ts:161 | never shorter than its input, holds only `%` and the characters `encodeURIComponent` leaves unescaped (A–Z a–z 0–9 - _ . ! ~ * ' ( )), and is the identity on text made of those characters |
| UriComponent.PercentDecodeEncoded | src/game/ui/ControlButtons.ts:161 | percent-decoding the encoding gives the text's UTF-8 bytes |
| UriComponent.EncodeRoundTrip | src/game/ui/ControlButtons.ts:161 | `decodeURIComponent(encodeURIComponent(s)) = s` for every text |
| Sound.ResolveSoundPath | src/game/utils/SoundManager.ts:22-37 | an http(s) URL is returned unchanged. Any other path starts with the base (or "") and is base + path when it has no leading "/" |
| Sound.LeadingSlashRemovedOnce | src/game/utils/SoundManager.ts:29-36 | "/p" resolves like "p", and "//p" keeps one slash: exactly one leading "/" is removed |
| Sound.Gain | src/game/utils/SoundManager.ts:89 | clamped to [0, 1]; the identity inside the range |
| Sound.SoundManager.constructor | src/game/utils/SoundManager.ts:9-17 | an empty cache, no fetches, no plays |
| Sound.SoundManager.LoadSound | src/game/utils/SoundManager.ts:42-61 | a hit returns the cached buffer with no fetch. A miss fetches: a decoded response is cached under the URL, and a failure leaves the cache as it was and is passed on |
| Sound.SoundManager.PlaySound | src/game/utils/SoundManager.ts:68-102 | resolves, loads and plays at `Gain(volume)`; a failed load plays nothing and is swallowed |
| Sound.SoundManager.PreloadSound | src/game/utils/SoundManager.ts:107-115 | loads the resolved path and swallows a failure |
| Sound.SoundManager.ClearCache | src/game/utils/SoundManager.ts:127-129 | the cache is empty |
| Sound.SoundManager.ClearSound | src/game/utils/SoundManager.ts:134-136 | only the given key is removed |
| Sound.SoundManager.ClearResolvedSound | src/game/utils/SoundManager.ts:134-136 | the sound the path plays is removed |
| Sound.ClearSoundMissesResolvedKey | src/game/utils/SoundManager.ts:134-136 | after playing "/click.mp3" with no base, `clearSound("/click.mp3")` leaves "click.mp3" cached |
| Sound.ClearResolvedSoundForgets | src/game/utils/SoundManager.ts:134-136 | clearing by the resolved path forgets the sound, so the next play fetches it again |
| SpriteSheet.Analyze | tools/sprite_processor.py:12-40 | cell = width // 13 by height // 11 (13·cell ≤ width < 13·(cell + 1), and likewise for rows); 143 frames |
| SpriteSheet.FrameInsideImage | tools/sprite_processor.py:55-76 | frame i has row·13 + col = i, a box exactly one cell in size, and the box lies inside the image |
| SpriteSheet.EnumerateFrames | tools/sprite_processor.py:202-213 | 143 records, record i being cell i in row-major order |
| SpriteSheet.ExtractFrames | tools/sprite_processor.py:42-83 | rows outside and columns inside give the same numbering and boxes as `main`'s enumeration |
| SpriteSheet.Pad3 | tools/sprite_processor.py:105 | three digits below 1000, all digits |
| SpriteSheet.Pad3RoundTrip | tools/sprite_processor.py:105 | the three digits read back as the number |
| SpriteSheet.FrameNameInjective | tools/sprite_processor.py:105 | distinct frames below 1000 get distinct names |
| SpriteSheet.EntryFor | tools/sprite_processor.py:109-127 | the frame is at the crop box's corner with the cell size; not rotated or trimmed; the source rectangle is one cell at the origin |
| SpriteSheet.CreateSpriteAtlasConfig | tools/sprite_processor.py:85-129 | one texture the size of the image, and its frames are `AtlasFrames` of the records |
| SpriteSheet.AtlasOfEnumeration | tools/sprite_processor.py:104-127 | for the enumerated frames, every frame i sits under "npc_" + its 3-digit number with its own entry, and every key is some frame's name |
| SensitiveFields.Cleaned | tools/remove_sensitive_fields.py:23-28 | a character loses exactly `personality` and `introduction`, every other field is kept, and a non-dict is unchanged |
| SensitiveFields.CountTouched | tools/remove_sensitive_fields.py:30-32 | at most one per character |
| SensitiveFields.CleanAll | tools/remove_sensitive_fields.py:23-28 | each character is `Cleaned` |
| SensitiveFields.CleanCharacters | tools/remove_sensitive_fields.py:21-32 | succeeds exactly when no element makes Python raise. On success the list is cleaned and the count equals the number of characters that had one of the two keys |
| SensitiveFields.CheckKeys | tools/remove_sensitive_fields.py:22-23 | iterating a dict of characters succeeds exactly when no key contains a sensitive name |
| SensitiveFields.RemoveSensitiveFields | tools/remove_sensitive_fields.py:10-41 | without `characters`: no change and count 0. For a list: written exactly when no element raises, with the cleaned list and the count. For other shapes: the outcome Python gives |
| SensitiveFields.CleanedDocument | tools/remove_sensitive_fields.py:21-28 | no sensitive key remains; all other character keys and all top-level keys are kept |
| SensitiveFields.CleanedStaysOk | tools/remove_sensitive_fields.py:23-32 | the cleaned list still passes, has nothing to remove, and cleaning it again changes nothing |
| SensitiveFields.SecondRunIsIdempotent | tools/remove_sensitive_fields.py:21-32 | a second run on the output changes nothing and counts 0 |

## Left out

- Phaser rendering: graphics paths, easing curves, containers, zones, depth, text styles and DOM markup. Only sizes, positions, visibility and the timer durations remain.
- Text measurement: `measure` is a parameter, and Phaser's word wrap is not modelled.
- Network and file I/O, which become parameters of the model:
  - the characters JSON fetch;
  - the sound fetch and decode (a `response` parameter);
  - the Python scripts' reads, writes, backups and printing;
  - the clipboard and `prompt` in `handleShare`;
  - `window.location` (an `origin` parameter);
  - the `<base>` element (a `baseHref` parameter).
- The copied-feedback animation of the share button (src/game/ui/ControlButtons.ts:167-183): it is rendering only.
- `autoShowFirstDialogue` and `updateCharactersDialogue` in both scenes: they only chain calls to members that are modelled (`SetCharacterDialogues`, `UpdateDialoguesFromApi`, `ShowDialogueV2`), and their timing relies on `delayedCall`s into the event bus.
- `OfficeScene.GameScene.LoadCharactersAndHotspots`: models the evident intent of the first-generation path, not the code as written. `NPCManager.loadNPCData` (src/game/managers/NPCManager.ts:20) resolves to `void`, so `data` at src/game/scenes/Game.ts:283 is undefined. `data.characters.forEach` then throws at Game.ts:286, and the catch at Game.ts:308 swallows the error. As written, the first-generation scene therefore registers no characters, seeds no dialogues and builds no hotspots. The model instead takes the loaded data as a parameter and does all three. The second-generation path (src/game/scenes/GameV2.ts:226-241) receives its data and is modelled as written.
- The calls the first-generation Game.ts makes to methods its managers do not define (`setCharacterDialogues`, `getClickCount`, `resetAllClickCounts`, `updateDialoguesFromAPI`): `LoadCharactersAndHotspots` returns the default table instead, and no V1 click counting is invented.
- Debug helpers on `window` and the event-bus wiring of the scenes are not part of this model.
- `getAllNPCs`, `getAllCharacters` and `createNPCs`: the first two depend on JavaScript Map insertion order, which the `map` model does not keep, and `createNPCs` is empty.
- `preloadSounds`: it runs `preloadSound` for each path concurrently (`Promise.all`), and the model is sequential. `PreloadSound` covers one path.
- Floating point: NaN, infinities and rounding are not modelled, and coordinates are `real`.
- Timestamps and frame indexes are integers. A fractional JavaScript number is not modelled.
- Lone UTF-16 surrogates: Dafny characters are Unicode scalar values, so `encodeURIComponent`'s URIError on a lone surrogate cannot arise. `DecodeUriComponent` is a reference decoder used only to state the round trip.
- JavaScript object prototype keys (for example `"constructor"` as a style id), and JSON key order in the Python tool.
- Python's own tools: `extract_sprite_frames` crops and saves images. Only its numbering and boxes are modelled, and file names are not.
- The NPC sprite's own methods (`setStyle`, `setAction`, `playActionAnimation`, `updatePosition`) are not part of the shown source. The managers' forwarding is recorded as a command log on the sprite.
- Aliasing between a scene's event-bus payloads and the hotspot entries: payloads are copied values.
- Listener re-registration: `setupEventListeners` is called once per manager, and the subscription is a flag.
- `DialogueV1.DialogueManager.OnShowDialogueEvent`: an absent message is laid out as the empty text. The source passes `undefined` to Phaser's text object, which renders it as empty.
- `Bubble.DialogueBubble.Show`: the default duration of 4000 is stated by the callers (`DefaultDuration`), not by a default argument.
- `Letterbox.FitLayout`: it requires a positive natural size. The scene always has one: 1024 initially, and otherwise the loaded image's size.
- `TopicTitle.TopicTitleUi.GetTopic`: a getter whose contract is the stored field itself; `HideThenShow` states the behaviour around it.
- `ControlButtons.ControlBar.HandleShare`: only the link is modelled; the clipboard write and its fallback are I/O.
- `NpcRegistry.NpcManagerV2.UpdateDialoguesFromApi`: characters are copied values in the model. The source assigns `dialogues` on the stored character object in place (src/game/managers/NPCManagerV2.ts:52-55), so any other holder of that same object would see the change too; the model updates only the manager's table.
- `NpcRegistry.BuildStandingNpcs`: builds one sprite per entry of `StandingPlan`, so a later config for the same character id simply wins. The source (src/game/managers/NPCManager.ts:40-63) constructs a sprite for every config; an overridden one stays alive in the scene but is no longer in the registry, so `clearNPCs` never destroys it. That orphaned sprite is not modelled.
- `SensitiveFields.RemoveSensitiveFields`: for a dict-valued `characters` it states only whether Python raises. The file is rewritten unchanged.
- `SensitiveFields.RemoveSensitiveFields`: takes the document as a JSON object. A top-level array, string or number is not modelled; on one, `data.get` at tools/remove_sensitive_fields.py:21 raises AttributeError and nothing is written.

## Findings

| source | as written | input that shows it | evidently intended | confidence | as-written member | corrected member |
|---|---|---|---|---|---|---|
| src/game/utils/SoundManager.ts:134-136 | `clearSound(url)` deletes the key exactly as given, but the cache is keyed by the resolved URL | `playSound("/click.mp3")` with no `<base>` caches under "click.mp3"; then `clearSound("/click.mp3")` removes nothing | clearing a sound by the path it was played with forgets it | medium, not executed | Sound.ClearSoundMissesResolvedKey | Sound.ClearResolvedSoundForgets |
