/** The sound helper (src/game/utils/SoundManager.ts): sound paths are
    resolved against the page's base path, decoded sounds are cached by
    resolved URL, and the volume is clamped to [0, 1]. Fetching and decoding
    are the caller's: each load receives the response it would get, or
    `None` when fetching or decoding fails. */
module Sound {
  import opened Text

  /** Decoded audio, as the audio context returns it. */
  datatype AudioBuffer = AudioBuffer(samples: seq<int>)

  /** A sound started: its resolved URL, its buffer and its gain. */
  datatype Played = Played(url: string, buffer: AudioBuffer, gain: real)

  predicate Absolute(path: string) {
    StartsWith(path, "http://") || StartsWith(path, "https://")
  }

  /** `resolveSoundPath`: a full URL stays as it is; any other path loses
      one leading `/` and is appended to the `<base>` element's `href`
      (empty when there is none). */
  function ResolveSoundPath(path: string, baseHref: Option<string>): (r: string)
    ensures Absolute(path) ==> r == path
    ensures !Absolute(path) ==> StartsWith(r, OrElse(baseHref, ""))
    ensures !Absolute(path) && !StartsWith(path, "/") ==> r == OrElse(baseHref, "") + path
  {
    if Absolute(path) then path
    else
      var cleanPath := if StartsWith(path, "/") then path[1..] else path;
      StartsWithConcat(OrElse(baseHref, ""), cleanPath);
      OrElse(baseHref, "") + cleanPath
  }

  /** A site-relative and a document-relative spelling of the same path
      resolve alike, and only one slash is removed. */
  lemma LeadingSlashRemovedOnce(path: string, baseHref: Option<string>)
    requires !Absolute(path)
    ensures !StartsWith(path, "/") ==> ResolveSoundPath("/" + path, baseHref) == ResolveSoundPath(path, baseHref)
    ensures ResolveSoundPath("//" + path, baseHref) == OrElse(baseHref, "") + "/" + path
  {
    var p1, p2 := "/" + path, "//" + path;
    SlashNotAbsolute(path);
    SlashNotAbsolute("/" + path);
    assert p2 == "/" + p1;
  }

  /** A path after a slash is not a full URL; the slash is what goes. */
  lemma SlashNotAbsolute(path: string)
    ensures !Absolute("/" + path) && StartsWith("/" + path, "/") && ("/" + path)[1..] == path
  {
    var p := "/" + path;
    assert p[0] == '/';
    assert p[..1] == "/";
    assert |p| >= 7 ==> p[..7][0] == '/';
    assert |p| >= 8 ==> p[..8][0] == '/';
  }

  /** `Math.max(0, Math.min(1, volume))`. */
  function Gain(volume: real): (r: real)
    ensures 0.0 <= r <= 1.0
    ensures 0.0 <= volume <= 1.0 ==> r == volume
    ensures volume < 0.0 ==> r == 0.0
    ensures volume > 1.0 ==> r == 1.0
  {
    if volume < 0.0 then 0.0 else if volume > 1.0 then 1.0 else volume
  }

  /** The manager's static state: the cache, and what it fetched and
      played, oldest first. */
  class SoundManager {
    var cache: map<string, AudioBuffer>
    var fetches: seq<string>
    var plays: seq<Played>

    /** Every cached sound was fetched under its key. */
    ghost predicate Valid()
      reads this
    {
      forall url :: url in cache ==> url in fetches
    }

    constructor ()
      ensures Valid() && cache == map[] && fetches == [] && plays == []
    {
      cache := map[];
      fetches := [];
      plays := [];
    }

    /** `loadSound`: a cached URL is answered from the cache without a
        fetch; otherwise the URL is fetched, and a decoded response is
        cached under it while a failure leaves the cache alone and is
        passed on (`None`). */
    method LoadSound(url: string, response: Option<AudioBuffer>) returns (r: Option<AudioBuffer>)
      requires Valid()
      modifies this`cache, this`fetches
      ensures Valid()
      ensures url in old(cache) ==> r == Some(old(cache)[url]) && cache == old(cache) && fetches == old(fetches)
      ensures url !in old(cache) ==> fetches == old(fetches) + [url] && r == response
      ensures url !in old(cache) && response.Some? ==> cache == old(cache)[url := response.value]
      ensures url !in old(cache) && response.None? ==> cache == old(cache)
    {
      if url in cache {
        return Some(cache[url]);
      }
      fetches := fetches + [url];
      if response.Some? {
        cache := cache[url := response.value];
      }
      r := response;
    }

    /** `playSound`: resolves the path, loads it and starts it at the
        clamped gain; a failed load is reported and swallowed. */
    method PlaySound(path: string, volume: real, baseHref: Option<string>, response: Option<AudioBuffer>)
      returns (started: bool)
      requires Valid()
      modifies this
      ensures Valid()
      ensures var url := ResolveSoundPath(path, baseHref);
        && (url in old(cache) ==> started && plays == old(plays) + [Played(url, old(cache)[url], Gain(volume))]
                                  && cache == old(cache) && fetches == old(fetches))
        && (url !in old(cache) ==> started == response.Some? && fetches == old(fetches) + [url])
        && (url !in old(cache) && response.Some? ==>
              plays == old(plays) + [Played(url, response.value, Gain(volume))] && cache == old(cache)[url := response.value])
        && (url !in old(cache) && response.None? ==> plays == old(plays) && cache == old(cache))
    {
      var url := ResolveSoundPath(path, baseHref);
      var buffer := LoadSound(url, response);
      if buffer.Some? {
        plays := plays + [Played(url, buffer.value, Gain(volume))];
        started := true;
      } else {
        started := false;
      }
    }

    /** `preloadSound`: loads the resolved path and swallows a failure. */
    method PreloadSound(path: string, baseHref: Option<string>, response: Option<AudioBuffer>)
      requires Valid()
      modifies this`cache, this`fetches
      ensures Valid()
      ensures var url := ResolveSoundPath(path, baseHref);
        url in old(cache) ==> cache == old(cache) && fetches == old(fetches)
      ensures var url := ResolveSoundPath(path, baseHref);
        url !in old(cache) ==> fetches == old(fetches) + [url]
      ensures var url := ResolveSoundPath(path, baseHref);
        url !in old(cache) ==> cache == if response.Some? then old(cache)[url := response.value] else old(cache)
    {
      var _ := LoadSound(ResolveSoundPath(path, baseHref), response);
    }

    method ClearCache()
      requires Valid()
      modifies this`cache
      ensures Valid() && cache == map[]
    {
      cache := map[];
    }

    /** `clearSound` as written: drops the key exactly as given, although
        the cache is keyed by resolved URLs. */
    method ClearSound(url: string)
      requires Valid()
      modifies this`cache
      ensures Valid() && cache == old(cache) - {url}
    {
      cache := cache - {url};
    }

    /** `clearSound` as evidently intended: drops the sound the same path
        plays, so the next play fetches it again. */
    method ClearResolvedSound(path: string, baseHref: Option<string>)
      requires Valid()
      modifies this`cache
      ensures Valid() && cache == old(cache) - {ResolveSoundPath(path, baseHref)}
      ensures ResolveSoundPath(path, baseHref) !in cache
    {
      cache := cache - {ResolveSoundPath(path, baseHref)};
    }
  }

  lemma ClickResolves()
    ensures ResolveSoundPath("/click.mp3", None) == "click.mp3"
  {
    var p := "/click.mp3";
    assert p[0] == '/' && p[..1] == "/" && p[1..] == "click.mp3";
    assert p[..7] != "http://" && p[..8] != "https://" by {
      assert p[..7][0] == '/' && p[..8][0] == '/';
    }
  }

  /** Playing "/click.mp3" with no `<base>` caches it as "click.mp3", so
      `clearSound("/click.mp3")` leaves the decoded sound in the cache. */
  method ClearSoundMissesResolvedKey(buffer: AudioBuffer) returns (m: SoundManager)
    ensures m.Valid() && "click.mp3" in m.cache && m.cache["click.mp3"] == buffer
  {
    m := new SoundManager();
    ClickResolves();
    var _ := m.PlaySound("/click.mp3", 1.0, None, Some(buffer));
    m.ClearSound("/click.mp3");
  }

  /** Clearing by the played path, resolved, forgets the sound, so the
      next play fetches it again. */
  method ClearResolvedSoundForgets(buffer: AudioBuffer) returns (m: SoundManager)
    ensures m.Valid() && "click.mp3" !in m.cache
    ensures m.fetches == ["click.mp3", "click.mp3"]
  {
    m := new SoundManager();
    ClickResolves();
    var _ := m.PlaySound("/click.mp3", 1.0, None, Some(buffer));
    m.ClearResolvedSound("/click.mp3", None);
    var _ := m.PlaySound("/click.mp3", 1.0, None, None);
  }
}
