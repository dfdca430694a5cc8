/** The progressive-reveal dialogue engine
    (src/game/managers/DialogueManagerV2.ts). Each character has three
    lines; a per-NPC click count picks the line, the third line is shown
    as a longer "thought", clicking a different NPC while another one owns
    the bubble restarts the clicked NPC, and at most one bubble is kept.

    The pure part (`Click` over a `Ledger`) states the transition; the
    class `DialogueManagerV2` is the mutable manager, proved to follow it. */
module DialogueV2 {
  import opened Text
  import opened Placement
  import opened Bubble

  /** A character's three lines, in reveal order. */
  datatype Lines = Lines(first: string, second: string, third: string) {
    function At(i: nat): string
      requires i < 3
    {
      if i == 0 then first else if i == 1 then second else third
    }
  }

  /** `CharacterV2`, one entry of a topic conversation. */
  datatype CharacterV2 = CharacterV2(id: string, name: string, position: string, dialogues: Lines)

  const LastIndex: nat := 2
  const NormalDuration: nat := 4000
  const ThoughtDuration: nat := 6000

  /** The lines table after loading `chars` in order: a later entry with the
      same id replaces an earlier one. */
  function DialoguesOf(chars: seq<CharacterV2>): map<string, Lines>
    decreases |chars|
  {
    if chars == [] then map[]
    else DialoguesOf(chars[..|chars| - 1])[chars[|chars| - 1].id := chars[|chars| - 1].dialogues]
  }

  function Ids(chars: seq<CharacterV2>): set<string> {
    set c | c in chars :: c.id
  }

  /** A ledger with every given id at count 0. */
  function ZeroCounts(ids: set<string>): map<string, int> {
    map k | k in ids :: 0
  }

  /** Every stored click count is 0, 1 or 2. */
  predicate CountsInRange(counts: map<string, int>) {
    forall k :: k in counts ==> 0 <= counts[k] <= LastIndex
  }

  /** The manager's dialogue state: the lines table, the click ledger and
      the NPC that currently owns the bubble (`currentNpcId`). */
  datatype Ledger = Ledger(dialogues: map<string, Lines>, counts: map<string, int>, owner: Option<string>)

  /** What one dialogue request produces. */
  datatype Reaction =
    | Dropped
    | Showing(npcId: string, index: nat, message: string, kind: BubbleType, duration: nat)

  /** The request comes while a different NPC owns the bubble. */
  predicate IsSwitch(owner: Option<string>, id: string) {
    Truthy(owner) && owner.value != id
  }

  /** The clicked NPC's count once a switch has reset it; an id without an
      entry reads as 0. */
  function EffectiveCount(counts: map<string, int>, owner: Option<string>, id: string): int {
    if IsSwitch(owner, id) then 0 else if id in counts then counts[id] else 0
  }

  /** One dialogue request (`showDialogueV2`), as a function of the state:
      the reaction and the next state. */
  function Click(l: Ledger, npcId: Option<string>): (r: (Reaction, Ledger))
    requires CountsInRange(l.counts)
    ensures r.0.Dropped? <==> !Truthy(npcId) || npcId.value !in l.dialogues
    ensures r.0.Dropped? ==> r.1 == l
    ensures r.0.Showing? ==>
      && r.0.npcId == npcId.value
      && r.0.index <= LastIndex
      && r.0.message == l.dialogues[r.0.npcId].At(r.0.index)
      && r.1.owner == Some(r.0.npcId)
      && r.1.dialogues == l.dialogues
    ensures r.0.Showing? ==>
      && (r.0.kind == Thought <==> r.0.index == LastIndex)
      && (r.0.duration == ThoughtDuration <==> r.0.index == LastIndex)
      && (r.0.index < LastIndex ==> r.0.kind == Normal && r.0.duration == NormalDuration)
  {
    if !Truthy(npcId) || npcId.value !in l.dialogues then (Dropped, l)
    else
      var id := npcId.value;
      var c := EffectiveCount(l.counts, l.owner, id);
      var index: nat := if c < LastIndex then c else LastIndex;
      var kind := if index == LastIndex then Thought else Normal;
      var duration := if index == LastIndex then ThoughtDuration else NormalDuration;
      var next := if c < LastIndex then c + 1 else c;
      (Showing(id, index, l.dialogues[id].At(index), kind, duration),
       Ledger(l.dialogues, l.counts[id := next], Some(id)))
  }

  /** `setCharacterDialogues` fills the table with exactly the given ids,
      each with its last entry's lines. */
  lemma {:induction false} DialoguesOfContents(chars: seq<CharacterV2>)
    ensures DialoguesOf(chars).Keys == Ids(chars)
    ensures forall i :: 0 <= i < |chars| && (forall j :: i < j < |chars| ==> chars[j].id != chars[i].id)
              ==> DialoguesOf(chars)[chars[i].id] == chars[i].dialogues
    decreases |chars|
  {
    if chars != [] {
      var init := chars[..|chars| - 1];
      DialoguesOfContents(init);
      assert chars == init + [chars[|chars| - 1]];
      assert Ids(chars) == Ids(init) + {chars[|chars| - 1].id};
      forall i | 0 <= i < |chars| && (forall j :: i < j < |chars| ==> chars[j].id != chars[i].id)
        ensures DialoguesOf(chars)[chars[i].id] == chars[i].dialogues
      {
        if i < |chars| - 1 {
          assert chars[i] == init[i];
          assert forall j :: i < j < |init| ==> init[j].id != init[i].id by {
            forall j | i < j < |init| ensures init[j].id != init[i].id {
              assert init[j] == chars[j];
            }
          }
        }
      }
    }
  }

  /** A request only ever touches the clicked NPC's count, never adds an
      id the table lacks, and keeps every count in 0..2. */
  lemma ClickTouchesOnlyClicked(l: Ledger, npcId: Option<string>)
    requires CountsInRange(l.counts) && l.counts.Keys == l.dialogues.Keys
    ensures var r := Click(l, npcId);
      && r.1.counts.Keys == l.counts.Keys
      && CountsInRange(r.1.counts)
      && (forall k :: k in l.counts && (r.0.Dropped? || k != r.0.npcId) ==> r.1.counts[k] == l.counts[k])
  {
  }

  /** The line shown is min(count, 2) of the clicked NPC, counted after the
      switch reset; the count then grows by one unless it is already 2. */
  lemma ClickIndex(l: Ledger, id: string)
    requires CountsInRange(l.counts) && id != "" && id in l.dialogues && id in l.counts
    ensures var r := Click(l, Some(id));
      var c := if IsSwitch(l.owner, id) then 0 else l.counts[id];
      && r.0.Showing?
      && r.0.index == (if c < 2 then c else 2)
      && r.1.counts[id] == (if c < 2 then c + 1 else 2)
  {
  }

  /** Clicking a different NPC than the bubble's owner starts that NPC over
      at its first line, whatever its count was. */
  lemma SwitchStartsOver(l: Ledger, id: string)
    requires CountsInRange(l.counts) && id != "" && id in l.dialogues
    requires Truthy(l.owner) && l.owner.value != id
    ensures Click(l, Some(id)).0.index == 0
    ensures Click(l, Some(id)).1.counts[id] == 1
  {
  }

  /** The line indices shown by n successive clicks on one NPC. */
  function ClickRun(l: Ledger, id: string, n: nat): seq<nat>
    requires CountsInRange(l.counts)
    decreases n
  {
    if n == 0 then []
    else
      var r := Click(l, Some(id));
      ClickRankOk(l, Some(id));
      if r.0.Dropped? then [] else [r.0.index] + ClickRun(r.1, id, n - 1)
  }

  /** A click keeps the ledger's counts in range (used by `ClickRun`). */
  lemma ClickRankOk(l: Ledger, npcId: Option<string>)
    requires CountsInRange(l.counts)
    ensures CountsInRange(Click(l, npcId).1.counts)
  {
  }

  /** Repeated clicks on one NPC show the lines 0, 1, 2, 2, ... counted
      from where its streak stands: with a starting count c the k-th click
      shows min(c + k, 2). */
  lemma {:induction false} RepeatedClicks(l: Ledger, id: string, n: nat)
    requires CountsInRange(l.counts) && id != "" && id in l.dialogues
    ensures var c := EffectiveCount(l.counts, l.owner, id);
      && |ClickRun(l, id, n)| == n
      && forall k :: 0 <= k < n ==> ClickRun(l, id, n)[k] == (if c + k < 2 then c + k else 2)
    decreases n
  {
    if n > 0 {
      var c := EffectiveCount(l.counts, l.owner, id);
      var r := Click(l, Some(id));
      ClickRankOk(l, Some(id));
      var c' := EffectiveCount(r.1.counts, r.1.owner, id);
      assert c' == (if c < 2 then c + 1 else 2);
      RepeatedClicks(r.1, id, n - 1);
      var run := ClickRun(l, id, n);
      assert run == [r.0.index] + ClickRun(r.1, id, n - 1);
      forall k | 0 <= k < n
        ensures run[k] == (if c + k < 2 then c + k else 2)
      {
        if k > 0 {
          assert run[k] == ClickRun(r.1, id, n - 1)[k - 1];
        }
      }
    }
  }

  /** The three-line walkthrough: lee's lines come out in order, the third
      as a six-second thought, and the count stays at 2; then clicking wang
      while lee owns the bubble starts wang at line 0 and leaves lee at 2. */
  lemma LeeThenWang()
    ensures
      var lee := Lines("hi", "how's it", "thinking...");
      var l0 := Ledger(map["lee" := lee, "wang" := Lines("w0", "w1", "w2")], map["lee" := 0, "wang" := 0], None);
      var s1 := Click(l0, Some("lee"));
      var s2 := Click(s1.1, Some("lee"));
      var s3 := Click(s2.1, Some("lee"));
      var s4 := Click(s3.1, Some("wang"));
      && s1.0 == Showing("lee", 0, "hi", Normal, 4000) && s1.1.counts["lee"] == 1
      && s2.0 == Showing("lee", 1, "how's it", Normal, 4000) && s2.1.counts["lee"] == 2
      && s3.0 == Showing("lee", 2, "thinking...", Thought, 6000) && s3.1.counts["lee"] == 2
      && s4.0 == Showing("wang", 0, "w0", Normal, 4000) && s4.1.counts == map["lee" := 2, "wang" := 1]
      && Click(s4.1, Some("ghost")).0 == Dropped
  {
    var lee := Lines("hi", "how's it", "thinking...");
    var l0 := Ledger(map["lee" := lee, "wang" := Lines("w0", "w1", "w2")], map["lee" := 0, "wang" := 0], None);
    var s1 := Click(l0, Some("lee"));
    assert s1.1.counts == map["lee" := 1, "wang" := 0];
    var s2 := Click(s1.1, Some("lee"));
    assert s2.1.counts == map["lee" := 2, "wang" := 0];
    var s3 := Click(s2.1, Some("lee"));
    assert s3.1.counts == map["lee" := 2, "wang" := 0];
    var s4 := Click(s3.1, Some("wang"));
    assert s4.1.counts == map["lee" := 2, "wang" := 1];
  }

  /** The notice `hideCurrentBubble` emits for the previous owner. */
  function HiddenFor(hadBubble: bool, owner: Option<string>): seq<Notice> {
    if hadBubble && Truthy(owner) then [DialogueHidden(owner.value)] else []
  }

  /** The timers `hide()` (no callback) adds for a bubble: a fade while it
      is attached, nothing once it is detached. */
  function FadeFor(b: DialogueBubble?, wasAttached: bool, now: int): seq<Pending> {
    if b != null && wasAttached then [Pending(now + FadeDuration, FadeTweenEnd(b, NoCallback))] else []
  }

  class DialogueManagerV2 {
    const scene: Scene
    /** `gameConfig.dialogue.bounds` and the standing base offset. */
    const bounds: Bounds
    const standingOffsetY: real
    var currentBubble: DialogueBubble?
    var currentNpcId: Option<string>
    var characterDialogues: map<string, Lines>
    var clickCounts: map<string, int>
    /** Subscribed to `show-dialogue-v2`. */
    var listening: bool

    ghost predicate Valid()
      reads this, scene
    {
      && scene.Valid()
      && clickCounts.Keys == characterDialogues.Keys
      && CountsInRange(clickCounts)
      && (currentBubble != null ==> currentBubble.scene == scene)
      && (currentNpcId.Some? ==> currentBubble != null && currentNpcId.value != "")
    }

    ghost function State(): Ledger
      reads this
    {
      Ledger(characterDialogues, clickCounts, currentNpcId)
    }

    constructor (scene: Scene, bounds: Bounds, standingOffsetY: real)
      requires scene.Valid()
      ensures Valid() && this.scene == scene && this.bounds == bounds && this.standingOffsetY == standingOffsetY
      ensures characterDialogues == map[] && clickCounts == map[]
      ensures currentBubble == null && currentNpcId == None && listening
    {
      this.scene := scene;
      this.bounds := bounds;
      this.standingOffsetY := standingOffsetY;
      currentBubble := null;
      currentNpcId := None;
      characterDialogues := map[];
      clickCounts := map[];
      listening := true;
    }

    /** Replaces the lines table and the ledger: exactly the given ids, every
        count 0. The owner and the bubble are left as they are. */
    method SetCharacterDialogues(chars: seq<CharacterV2>)
      requires Valid()
      modifies this`characterDialogues, this`clickCounts
      ensures Valid()
      ensures characterDialogues == DialoguesOf(chars)
      ensures clickCounts == ZeroCounts(Ids(chars))
    {
      characterDialogues := map[];
      clickCounts := map[];
      var i := 0;
      while i < |chars|
        invariant 0 <= i <= |chars|
        invariant characterDialogues == DialoguesOf(chars[..i])
        invariant clickCounts == ZeroCounts(characterDialogues.Keys)
      {
        assert chars[..i + 1][..i] == chars[..i];
        characterDialogues := characterDialogues[chars[i].id := chars[i].dialogues];
        clickCounts := clickCounts[chars[i].id := 0];
        i := i + 1;
      }
      assert chars[..i] == chars;
      DialoguesOfContents(chars);
    }

    /** The hide callback passed to every bubble this manager shows: it
        announces the hide for whoever owns the bubble *now* and clears the
        owner. */
    method OnBubbleHidden()
      requires Valid()
      modifies this`currentNpcId, scene
      ensures Valid()
      ensures currentNpcId == None
      ensures scene.notices == old(scene.notices) + (if Truthy(old(currentNpcId)) then [DialogueHidden(old(currentNpcId).value)] else [])
      ensures scene.now == old(scene.now) && scene.pending == old(scene.pending)
    {
      if Truthy(currentNpcId) {
        scene.Emit(DialogueHidden(currentNpcId.value));
      }
      currentNpcId := None;
    }

    /** Drops the current bubble: announces the hide for its owner, starts
        the bubble's fade without a callback, and forgets bubble and owner. */
    method HideCurrentBubble()
      requires Valid()
      modifies this`currentBubble, this`currentNpcId, scene, currentBubble
      ensures Valid()
      ensures currentBubble == null
      ensures old(currentBubble) != null ==> currentNpcId == None
      ensures old(currentBubble) == null ==> currentNpcId == old(currentNpcId)
      ensures scene.notices == old(scene.notices) + HiddenFor(old(currentBubble) != null, old(currentNpcId))
      ensures scene.pending == old(scene.pending)
        + FadeFor(old(currentBubble), old(currentBubble) != null && old(currentBubble.attached), old(scene.now))
      ensures scene.now == old(scene.now)
      ensures old(currentBubble) != null && !old(currentBubble.attached) ==> old(currentBubble).phase == Destroyed
      ensures old(currentBubble) != null && old(currentBubble.attached) ==> old(currentBubble).phase == Fading
      ensures old(currentBubble) != null ==> old(currentBubble).attached == old(currentBubble.attached)
    {
      if currentBubble != null {
        if Truthy(currentNpcId) {
          scene.Emit(DialogueHidden(currentNpcId.value));
        }
        var immediate := currentBubble.Hide(NoCallback);
        if immediate {
          currentBubble.Destroy();
        }
        currentBubble := null;
        currentNpcId := None;
      }
    }

    /** `showDialogueV2`: follows `Click` on the ledger. A dropped request
        changes nothing. Otherwise the previous bubble is hidden (its owner
        announced hidden) before the clicked NPC is announced shown, and a
        fresh bubble of the chosen kind is placed by `ComputeBubblePosition`
        and shown for the chosen duration with the owner-clearing callback. */
    method ShowDialogueV2(payload: Payload, measure: string -> Size)
      requires Valid()
      modifies this, scene, currentBubble
      ensures Valid()
      ensures State() == Click(old(State()), payload.npcId).1
      ensures listening == old(listening)
      ensures scene.now == old(scene.now)
      ensures var r := Click(old(State()), payload.npcId).0;
        r.Dropped? ==>
          && currentBubble == old(currentBubble)
          && scene.notices == old(scene.notices) && scene.pending == old(scene.pending)
      ensures var r := Click(old(State()), payload.npcId).0;
        r.Showing? ==>
          && currentBubble != null && fresh(currentBubble)
          && (old(currentBubble) != null ==>
                && old(currentBubble).attached == old(currentBubble.attached)
                && old(currentBubble).phase == (if old(currentBubble.attached) then Fading else Destroyed))
          && currentBubble.bubbleType == r.kind
          && currentBubble.size == BubbleSize(measure(r.message).width, measure(r.message).height)
          && currentBubble.phase == Entering && currentBubble.attached
          && Point(currentBubble.x, currentBubble.y)
             == ComputeBubblePosition(payload, Geometry(currentBubble.size.height, TailSize), bounds, standingOffsetY)
          && scene.notices == old(scene.notices)
             + HiddenFor(old(currentBubble) != null, old(currentNpcId)) + [DialogueShown(r.npcId)]
          && scene.pending == old(scene.pending)
             + FadeFor(old(currentBubble), old(currentBubble) != null && old(currentBubble.attached), old(scene.now))
             + [Pending(old(scene.now) + EntryDuration(r.kind), EntryTweenEnd(currentBubble)),
                Pending(old(scene.now) + r.duration, AutoHide(currentBubble, ClearOwner))]
    {
      ghost var r := Click(State(), payload.npcId);
      var npcId := payload.npcId;
      if !Truthy(npcId) {
        return;
      }
      var id := npcId.value;
      if id !in characterDialogues {
        return;
      }
      var dialogues := characterDialogues[id];
      if Truthy(currentNpcId) && currentNpcId.value != id {
        clickCounts := clickCounts[id := 0];
      }
      var currentCount := if id in clickCounts then clickCounts[id] else 0;
      var dialogueIndex: nat := if currentCount < 2 then currentCount else 2;
      var message := dialogues.At(dialogueIndex);
      var dialogueType := if dialogueIndex == 2 then Thought else Normal;
      var displayDuration: nat := if dialogueIndex == 2 then ThoughtDuration else NormalDuration;
      if currentCount < 2 {
        clickCounts := clickCounts[id := currentCount + 1];
      }
      assert r.0 == Showing(id, dialogueIndex, message, dialogueType, displayDuration);
      assert r.1 == Ledger(characterDialogues, clickCounts, Some(id));
      Present(payload, id, message, dialogueType, displayDuration, measure);
    }

    /** The second half of `showDialogueV2`: the previous bubble goes, the
        owner becomes `id` and is announced, and a new bubble with `message`
        is placed and shown for `duration` with the owner-clearing callback. */
    method Present(payload: Payload, id: string, message: string, kind: BubbleType, duration: nat, measure: string -> Size)
      requires Valid() && id != ""
      modifies this`currentBubble, this`currentNpcId, scene, currentBubble
      ensures Valid()
      ensures old(currentBubble) != null ==>
        && old(currentBubble).attached == old(currentBubble.attached)
        && old(currentBubble).phase == (if old(currentBubble.attached) then Fading else Destroyed)
      ensures currentNpcId == Some(id)
      ensures currentBubble != null && fresh(currentBubble)
      ensures currentBubble.bubbleType == kind
      ensures currentBubble.size == BubbleSize(measure(message).width, measure(message).height)
      ensures currentBubble.phase == Entering && currentBubble.attached
      ensures Point(currentBubble.x, currentBubble.y)
        == ComputeBubblePosition(payload, Geometry(currentBubble.size.height, TailSize), bounds, standingOffsetY)
      ensures scene.now == old(scene.now)
      ensures scene.notices == old(scene.notices) + HiddenFor(old(currentBubble) != null, old(currentNpcId)) + [DialogueShown(id)]
      ensures scene.pending == old(scene.pending)
        + FadeFor(old(currentBubble), old(currentBubble) != null && old(currentBubble.attached), old(scene.now))
        + [Pending(old(scene.now) + EntryDuration(kind), EntryTweenEnd(currentBubble)),
           Pending(old(scene.now) + duration, AutoHide(currentBubble, ClearOwner))]
    {
      HideCurrentBubble();
      currentNpcId := Some(id);
      scene.Emit(DialogueShown(id));
      var text := measure(message);
      var b := new DialogueBubble(scene, payload.x, payload.y, text.width, text.height, kind);
      currentBubble := b;
      var pos := ComputeBubblePosition(payload, Geometry(b.GetBubbleHeight(), b.GetTailSize()), bounds, standingOffsetY);
      b.SetPosition(pos.x, pos.y);
      b.Show(duration, ClearOwner);
    }

    /** The `show-dialogue-v2` listener: requests reach the manager only
        while it is subscribed. */
    method OnShowDialogueV2Event(payload: Payload, measure: string -> Size)
      requires Valid()
      modifies this, scene, currentBubble
      ensures Valid()
      ensures scene.now == old(scene.now)
      ensures !old(listening) ==>
        && State() == old(State()) && currentBubble == old(currentBubble)
        && scene.notices == old(scene.notices) && scene.pending == old(scene.pending)
        && (old(currentBubble) != null ==>
              old(currentBubble).phase == old(currentBubble.phase) && old(currentBubble).attached == old(currentBubble.attached))
      ensures old(listening) ==> State() == Click(old(State()), payload.npcId).1
      ensures var r := Click(old(State()), payload.npcId).0;
        old(listening) && r.Dropped? ==>
          && currentBubble == old(currentBubble)
          && scene.notices == old(scene.notices) && scene.pending == old(scene.pending)
      ensures var r := Click(old(State()), payload.npcId).0;
        old(listening) && r.Showing? ==>
          && currentBubble != null && fresh(currentBubble)
          && (old(currentBubble) != null ==>
                && old(currentBubble).attached == old(currentBubble.attached)
                && old(currentBubble).phase == (if old(currentBubble.attached) then Fading else Destroyed))
          && currentBubble.bubbleType == r.kind
          && currentBubble.size == BubbleSize(measure(r.message).width, measure(r.message).height)
          && currentBubble.phase == Entering && currentBubble.attached
          && Point(currentBubble.x, currentBubble.y)
             == ComputeBubblePosition(payload, Geometry(currentBubble.size.height, TailSize), bounds, standingOffsetY)
          && scene.notices == old(scene.notices)
             + HiddenFor(old(currentBubble) != null, old(currentNpcId)) + [DialogueShown(r.npcId)]
          && scene.pending == old(scene.pending)
             + FadeFor(old(currentBubble), old(currentBubble) != null && old(currentBubble.attached), old(scene.now))
             + [Pending(old(scene.now) + EntryDuration(r.kind), EntryTweenEnd(currentBubble)),
                Pending(old(scene.now) + r.duration, AutoHide(currentBubble, ClearOwner))]
    {
      if listening {
        ShowDialogueV2(payload, measure);
      }
    }

    /** Zeroes every existing count, adding no id. */
    method ResetAllClickCounts()
      requires Valid()
      modifies this`clickCounts
      ensures Valid()
      ensures clickCounts == ZeroCounts(old(clickCounts).Keys)
    {
      ghost var keys := clickCounts.Keys;
      var remaining := clickCounts.Keys;
      while remaining != {}
        invariant remaining <= keys && clickCounts.Keys == keys
        invariant CountsInRange(clickCounts)
        invariant forall k :: k in keys && k !in remaining ==> clickCounts[k] == 0
        decreases remaining
      {
        var k :| k in remaining;
        clickCounts := clickCounts[k := 0];
        remaining := remaining - {k};
      }
    }

    /** A stored count, or 0 for an id the ledger lacks. */
    function GetClickCount(npcId: string): (c: int)
      requires Valid()
      reads this, scene
      ensures 0 <= c <= LastIndex
      ensures npcId !in characterDialogues ==> c == 0
      ensures npcId in clickCounts ==> c == clickCounts[npcId]
    {
      if npcId in clickCounts then clickCounts[npcId] else 0
    }

    /** Hides the current bubble, unsubscribes and empties both tables. */
    method Destroy()
      requires Valid()
      modifies this, scene, currentBubble
      ensures Valid()
      ensures currentBubble == null && !listening
      ensures characterDialogues == map[] && clickCounts == map[]
      ensures old(currentBubble) != null ==> currentNpcId == None
      ensures old(currentBubble) == null ==> currentNpcId == old(currentNpcId)
      ensures scene.notices == old(scene.notices) + HiddenFor(old(currentBubble) != null, old(currentNpcId))
      ensures scene.pending == old(scene.pending)
        + FadeFor(old(currentBubble), old(currentBubble) != null && old(currentBubble.attached), old(scene.now))
      ensures scene.now == old(scene.now)
      ensures old(currentBubble) != null && !old(currentBubble.attached) ==> old(currentBubble).phase == Destroyed
      ensures old(currentBubble) != null && old(currentBubble.attached) ==> old(currentBubble).phase == Fading
    {
      HideCurrentBubble();
      listening := false;
      characterDialogues := map[];
      clickCounts := map[];
    }

    /** One turn of the event loop: the next due timer or tween completes.
        A hide callback that falls due runs before the bubble is destroyed,
        and it clears whatever owner the manager has at that moment, even
        when the bubble it belongs to was pre-empted long ago. */
    method Tick(i: nat)
      requires Valid() && IsNextDue(scene.pending, i)
      modifies this`currentNpcId, scene, scene.pending[i].action.target
      ensures Valid()
      ensures characterDialogues == old(characterDialogues) && clickCounts == old(clickCounts)
      ensures currentBubble == old(currentBubble)
      ensures scene.now == old(scene.pending[i].due)
      ensures var a := old(scene.pending[i].action);
        var finishes := Finishes(a, old(a.target.attached));
        var clears := finishes && a.callback == ClearOwner;
        && currentNpcId == (if clears then None else old(currentNpcId))
        && scene.notices == old(scene.notices)
           + (if clears && Truthy(old(currentNpcId)) then [DialogueHidden(old(currentNpcId).value)] else [])
      ensures var a := old(scene.pending[i].action);
        && scene.pending == old(Without(scene.pending, i))
           + (if a.AutoHide? && old(a.target.attached) then [Pending(scene.now + FadeDuration, FadeTweenEnd(a.target, a.callback))] else [])
        && (Finishes(a, old(a.target.attached)) ==> !a.target.attached && a.target.phase == Destroyed)
        && (!Finishes(a, old(a.target.attached)) ==> a.target.attached == old(a.target.attached))
        && (a.EntryTweenEnd? ==> a.target.phase == (if old(a.target.phase) == Entering then Visible else old(a.target.phase)))
        && (a.AutoHide? && old(a.target.attached) ==> a.target.phase == Fading)
    {
      var callback, finish := Fire(scene, i);
      if callback == ClearOwner {
        OnBubbleHidden();
      }
      if finish != null {
        finish.Destroy();
      }
    }
  }

  /** Scenario helpers: the next due timer among a few. */
  lemma NextDueOf2(ps: seq<Pending>, i: nat)
    requires |ps| == 2 && i < 2 && ps[i].due <= ps[0].due && ps[i].due <= ps[1].due
    ensures IsNextDue(ps, i)
  {
  }

  lemma NextDueOf3(ps: seq<Pending>, i: nat)
    requires |ps| == 3 && i < 3 && ps[i].due <= ps[0].due && ps[i].due <= ps[1].due && ps[i].due <= ps[2].due
    ensures IsNextDue(ps, i)
  {
  }

  lemma NextDueOf4(ps: seq<Pending>, i: nat)
    requires |ps| == 4 && i < 4 && ps[i].due <= ps[0].due && ps[i].due <= ps[1].due
    requires ps[i].due <= ps[2].due && ps[i].due <= ps[3].due
    ensures IsNextDue(ps, i)
  {
  }

  const ScenarioLines := map["x" := Lines("x0", "x1", "x2"), "y" := Lines("y0", "y1", "y2")]

  function Measure(s: string): Size {
    Size(50.0, 20.0)
  }

  function ClickOn(id: string, x: real): Payload {
    Payload(Some(id), id, None, x, 300.0, Some(40.0), None, None, None)
  }

  /** The scenario's starting point: X and Y are loaded, nothing shown. */
  method ScenarioSetup() returns (scene: Scene, mgr: DialogueManagerV2)
    ensures fresh(scene) && fresh(mgr)
    ensures mgr.Valid() && mgr.scene == scene
    ensures mgr.characterDialogues == ScenarioLines && mgr.clickCounts == map["x" := 0, "y" := 0]
    ensures mgr.currentBubble == null && mgr.currentNpcId == None
    ensures scene.now == 0 && scene.pending == [] && scene.notices == []
  {
    scene := new Scene();
    mgr := new DialogueManagerV2(scene, Bounds(120.0, 904.0, 80.0), -150.0);
    var chars := [CharacterV2("x", "X", "pm", Lines("x0", "x1", "x2")),
                  CharacterV2("y", "Y", "dev", Lines("y0", "y1", "y2"))];
    mgr.SetCharacterDialogues(chars);
    assert chars[..1] == [chars[0]];
    assert Ids(chars) == {"x", "y"};
  }

  /** X is clicked at t = 0 and its bubble's entry tween ends at t = 200. */
  method ScenarioClickX(scene: Scene, mgr: DialogueManagerV2) returns (a: DialogueBubble)
    requires mgr.Valid() && mgr.scene == scene
    requires mgr.characterDialogues == ScenarioLines && mgr.clickCounts == map["x" := 0, "y" := 0]
    requires mgr.currentBubble == null && mgr.currentNpcId == None
    requires scene.now == 0 && scene.pending == [] && scene.notices == []
    modifies mgr, scene
    ensures fresh(a)
    ensures mgr.Valid() && a.scene == scene
    ensures mgr.characterDialogues == ScenarioLines && mgr.clickCounts == map["x" := 1, "y" := 0]
    ensures mgr.currentBubble == a && mgr.currentNpcId == Some("x")
    ensures a.attached && a.phase == Visible
    ensures scene.now == 200 && scene.pending == [Pending(4000, AutoHide(a, ClearOwner))]
    ensures scene.notices == [DialogueShown("x")]
  {
    assert Click(mgr.State(), Some("x")).0 == Showing("x", 0, "x0", Normal, 4000);
    mgr.ShowDialogueV2(ClickOn("x", 300.0), Measure);
    a := mgr.currentBubble;
    assert |scene.pending| == 2;
    NextDueOf2(scene.pending, 0);
    mgr.Tick(0);
  }

  /** Y is clicked at t = 1000: X's bubble starts fading, Y's appears. */
  method ScenarioClickY(scene: Scene, mgr: DialogueManagerV2, a: DialogueBubble) returns (b: DialogueBubble)
    requires mgr.Valid() && mgr.scene == scene && a.scene == scene
    requires mgr.characterDialogues == ScenarioLines && mgr.clickCounts == map["x" := 1, "y" := 0]
    requires mgr.currentBubble == a && mgr.currentNpcId == Some("x")
    requires a.attached && a.phase == Visible
    requires scene.now == 200 && scene.pending == [Pending(4000, AutoHide(a, ClearOwner))]
    requires scene.notices == [DialogueShown("x")]
    modifies mgr, scene, a
    ensures fresh(b) && b != a
    ensures mgr.Valid() && b.scene == scene
    ensures mgr.characterDialogues == ScenarioLines && mgr.clickCounts == map["x" := 1, "y" := 1]
    ensures mgr.currentBubble == b && mgr.currentNpcId == Some("y")
    ensures a.attached && a.phase == Fading && b.attached && b.phase == Entering
    ensures scene.now == 1000
    ensures scene.pending == [Pending(4000, AutoHide(a, ClearOwner)), Pending(1150, FadeTweenEnd(a, NoCallback)),
                              Pending(1200, EntryTweenEnd(b)), Pending(5000, AutoHide(b, ClearOwner))]
    ensures scene.notices == [DialogueShown("x"), DialogueHidden("x"), DialogueShown("y")]
  {
    scene.AdvanceTo(1000);
    assert Click(mgr.State(), Some("y")).0 == Showing("y", 0, "y0", Normal, 4000);
    mgr.ShowDialogueV2(ClickOn("y", 600.0), Measure);
    b := mgr.currentBubble;
  }

  /** X's fade ends (t = 1150) and Y's entry tween ends (t = 1200); X's
      auto-hide is still pending. */
  method ScenarioTweensEnd(scene: Scene, mgr: DialogueManagerV2, a: DialogueBubble, b: DialogueBubble)
    requires mgr.Valid() && mgr.scene == scene && a.scene == scene && b.scene == scene && a != b
    requires mgr.characterDialogues == ScenarioLines && mgr.clickCounts == map["x" := 1, "y" := 1]
    requires mgr.currentBubble == b && mgr.currentNpcId == Some("y")
    requires a.attached && a.phase == Fading && b.attached && b.phase == Entering
    requires scene.now == 1000
    requires scene.pending == [Pending(4000, AutoHide(a, ClearOwner)), Pending(1150, FadeTweenEnd(a, NoCallback)),
                               Pending(1200, EntryTweenEnd(b)), Pending(5000, AutoHide(b, ClearOwner))]
    requires scene.notices == [DialogueShown("x"), DialogueHidden("x"), DialogueShown("y")]
    modifies mgr, scene, a, b
    ensures mgr.Valid()
    ensures mgr.characterDialogues == ScenarioLines && mgr.clickCounts == map["x" := 1, "y" := 1]
    ensures mgr.currentBubble == b && mgr.currentNpcId == Some("y")
    ensures !a.attached && b.attached && b.phase == Visible
    ensures scene.now == 1200
    ensures scene.pending == [Pending(4000, AutoHide(a, ClearOwner)), Pending(5000, AutoHide(b, ClearOwner))]
    ensures scene.notices == [DialogueShown("x"), DialogueHidden("x"), DialogueShown("y")]
  {
    NextDueOf4(scene.pending, 1);
    mgr.Tick(1);
    assert |scene.pending| == 3;
    NextDueOf3(scene.pending, 1);
    mgr.Tick(1);
  }

  /** t = 4000: X's auto-hide fires on its destroyed bubble, runs the
      owner-clearing callback at once and announces Y hidden, while Y's
      bubble stays on screen until its own timer at t = 5000. */
  method ScenarioStaleTimer(scene: Scene, mgr: DialogueManagerV2, a: DialogueBubble, b: DialogueBubble)
    requires mgr.Valid() && mgr.scene == scene && a.scene == scene && b.scene == scene && a != b
    requires mgr.characterDialogues == ScenarioLines && mgr.clickCounts == map["x" := 1, "y" := 1]
    requires mgr.currentBubble == b && mgr.currentNpcId == Some("y")
    requires !a.attached && b.attached && b.phase == Visible
    requires scene.now == 1200
    requires scene.pending == [Pending(4000, AutoHide(a, ClearOwner)), Pending(5000, AutoHide(b, ClearOwner))]
    requires scene.notices == [DialogueShown("x"), DialogueHidden("x"), DialogueShown("y")]
    modifies mgr, scene, a
    ensures mgr.Valid()
    ensures mgr.characterDialogues == ScenarioLines && mgr.clickCounts == map["x" := 1, "y" := 1]
    ensures mgr.currentBubble == b && b.attached && b.phase == Visible
    ensures mgr.currentNpcId == None
    ensures scene.now == 4000 && scene.pending == [Pending(5000, AutoHide(b, ClearOwner))]
    ensures scene.notices == [DialogueShown("x"), DialogueHidden("x"), DialogueShown("y"), DialogueHidden("y")]
  {
    NextDueOf2(scene.pending, 0);
    mgr.Tick(0);
  }

  /** t = 4000, after the stale timer: clicking X is not a switch any
      more, so X continues at its second line instead of starting over. */
  method ScenarioClickXAgain(scene: Scene, mgr: DialogueManagerV2, b: DialogueBubble)
    requires mgr.Valid() && mgr.scene == scene
    requires mgr.characterDialogues == ScenarioLines && mgr.clickCounts == map["x" := 1, "y" := 1]
    requires mgr.currentBubble == b && mgr.currentNpcId == None
    modifies mgr, scene, b
    ensures mgr.clickCounts == map["x" := 2, "y" := 1] && mgr.currentNpcId == Some("x")
    ensures mgr.currentBubble != null && mgr.currentBubble.bubbleType == Normal
    ensures scene.notices == old(scene.notices) + [DialogueShown("x")]
  {
    assert Click(mgr.State(), Some("x")).0 == Showing("x", 1, "x1", Normal, 4000);
    mgr.ShowDialogueV2(ClickOn("x", 300.0), Measure);
  }

  /** A pre-empted bubble's auto-hide still fires at its own deadline and
      announces the *new* owner as hidden while the new bubble is on
      screen; with the owner cleared, the next click on another NPC is no
      longer a switch and does not restart it. */
  method PreemptedTimerScenario()
  {
    var scene, mgr := ScenarioSetup();
    var a := ScenarioClickX(scene, mgr);
    var b := ScenarioClickY(scene, mgr, a);
    ScenarioTweensEnd(scene, mgr, a, b);
    ScenarioStaleTimer(scene, mgr, a, b);
    assert scene.notices == [DialogueShown("x"), DialogueHidden("x"), DialogueShown("y"), DialogueHidden("y")];
    assert mgr.currentBubble == b && b.phase == Visible && mgr.currentNpcId == None;
    ScenarioClickXAgain(scene, mgr, b);
    assert mgr.clickCounts["x"] == 2;
  }
}
