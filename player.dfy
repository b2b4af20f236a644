/**
 * The player object: the media element it wraps and the parts of its
 * control bar whose state the player's methods change.
 */
module Player {
  import opened Optional
  import opened TimeFormat
  import opened ClassList
  import opened Sources
  import opened Tracks

  /**
   * The HTML media element as the player sees it. `load`, `play` and
   * `pause` are the browser's: loading pauses and rewinds, playing and
   * pausing flip `paused`.
   */
  class Media {
    var src: string
    var paused: bool
    /** Whole seconds. */
    var currentTime: nat
    var volume: real
    const textTracks: array<TextTrack>

    constructor (tracks: seq<TextTrack>)
      ensures src == "" && paused && currentTime == 0 && volume == 1.0
      ensures fresh(textTracks) && textTracks[..] == tracks
    {
      src := "";
      paused := true;
      currentTime := 0;
      volume := 1.0;
      textTracks := new TextTrack[|tracks|](i requires 0 <= i < |tracks| => tracks[i]);
    }

    /** The `volume` setter: a value outside [0, 1] throws `IndexSizeError` and changes nothing. */
    method SetVolume(v: real) returns (thrown: bool)
      modifies this
      ensures thrown <==> !(0.0 <= v <= 1.0)
      ensures volume == if thrown then old(volume) else v
      ensures src == old(src) && paused == old(paused) && currentTime == old(currentTime)
    {
      thrown := !(0.0 <= v <= 1.0);
      if !thrown {
        volume := v;
      }
    }

    method Load()
      modifies this
      ensures paused && currentTime == 0
      ensures src == old(src) && volume == old(volume)
    {
      paused := true;
      currentTime := 0;
    }

    method Play()
      modifies this
      ensures !paused
      ensures src == old(src) && currentTime == old(currentTime) && volume == old(volume)
    {
      paused := false;
    }

    method Pause()
      modifies this
      ensures paused
      ensures src == old(src) && currentTime == old(currentTime) && volume == old(volume)
    {
      paused := true;
    }
  }

  /** What `setSrc` is handed. */
  datatype SrcArg =
    | SourceList(list: seq<Source>)   // a NodeList, HTMLCollection or array
    | Url(url: string)                // a string
    | SourceObject(source: Source)    // any other object: a `<source>` element or a plain object
    | Other                           // anything else except `null`, on which `setSrc` throws

  /**
   * Whether the single-source form of `setSrc` takes object `s`: where the
   * page defines `HTMLSourceElement`, only its instances; where it does
   * not, any object with an own `src` property.
   */
  predicate Loadable(p: Platform, s: Source) {
    if p.sourceElementType then s.isElement else s.ownSrc
  }

  /**
   * The URL `setSrc(arg)` ends up loading, if any: for a list, the first
   * survivor's URL when the element had no source yet and the single-source
   * form takes that survivor.
   */
  function LoadTarget(p: Platform, arg: SrcArg, currentSrc: string): (r: Option<string>)
    ensures arg.Other? ==> r.None?
    ensures arg.Url? ==> r == Some(arg.url)
    ensures arg.SourceObject? ==> (r.Some? <==> Loadable(p, arg.source)) && (r.Some? ==> r.value == arg.source.src)
    ensures arg.SourceList? && currentSrc != "" ==> r.None?
  {
    match arg
    case SourceList(list) =>
      var survivors := Negotiate(p, list);
      if currentSrc == "" && survivors != [] && Loadable(p, survivors[0]) then Some(survivors[0].src) else None
    case Url(url) => Some(url)
    case SourceObject(source) => if Loadable(p, source) then Some(source.src) else None
    case Other => None
  }

  /**
   * A list loads into an element without a source exactly when its first
   * playable candidate exists and the single-source form takes it, and then
   * it loads that candidate.
   */
  lemma LoadTargetOfList(p: Platform, list: seq<Source>)
    ensures LoadTarget(p, SourceList(list), "").Some? <==> exists j :: FirstPlayable(p, list, j) && Loadable(p, list[j])
    ensures LoadTarget(p, SourceList(list), "").Some? ==>
      exists j :: FirstPlayable(p, list, j) && LoadTarget(p, SourceList(list), "").value == list[j].src
  {
    NegotiateNonEmpty(p, list);
    if Negotiate(p, list) != [] {
      FirstSurvivor(p, list);
    }
  }

  /** The play button starts without `mp-pause`. */
  lemma PlayButtonInitially()
    ensures !HasClass("mp-button mp-play", "mp-pause") && AtMostOnce("mp-button mp-play", "mp-pause")
  {
  }

  /** The volume button starts without `mp-mute`. */
  lemma VolumeButtonInitially()
    ensures !HasClass("mp-button mp-volume", "mp-mute") && AtMostOnce("mp-button mp-volume", "mp-mute")
  {
  }

  /** The progress bar starts without `mp-loading`. */
  lemma ProgressInitially()
    ensures !HasClass("mp-progress-total", "mp-loading") && AtMostOnce("mp-progress-total", "mp-loading")
  {
  }

  /**
   * The loop of the list form of `setSrc`: push, in order, each candidate
   * whose type the element can play and, if it has a media query and the
   * window has `matchMedia`, for which that call's result is truthy.
   */
  method CollectSources(p: Platform, list: seq<Source>) returns (kept: seq<Source>)
    ensures kept == Negotiate(p, list)
  {
    kept := [];
    var i := 0;
    while i < |list|
      invariant 0 <= i <= |list|
      invariant kept == Negotiate(p, list[..i])
    {
      assert list[..i + 1][..i] == list[..i];
      if p.canPlayType(list[i].mimeType) != "" {
        if list[i].media != "" && p.matchMedia.Some? {
          if p.matchMedia.value(list[i].media) {
            kept := kept + [list[i]];
          }
        } else {
          kept := kept + [list[i]];
        }
      }
      i := i + 1;
    }
    assert list[..i] == list;
  }

  /** The three state classes are plain tokens. */
  lemma StateClassesAreTokens()
    ensures IsToken("mp-pause") && IsToken("mp-mute") && IsToken("mp-loading")
  {
  }

  /**
   * The progress bar's `className` after the loader's cycle: `mp-loading`
   * added when a source starts loading, removed again on `canplay`.
   */
  ghost function LoaderCycle(s: string): (r: string)
    ensures AtMostOnce(s, "mp-loading") ==> !HasClass(r, "mp-loading") && AtMostOnce(r, "mp-loading")
  {
    StateClassesAreTokens();
    if AtMostOnce(s, "mp-loading") then
      AddThenRemove(s, "mp-loading");
      Removed(Added(s, "mp-loading"), "mp-loading")
    else Removed(Added(s, "mp-loading"), "mp-loading")
  }

  class MediaPlayer {
    const media: Media
    /** Whether the custom control bar has been built (`this.controls`). */
    var hasControls: bool
    /** The `.mp-play` container. */
    const playButton: Element
    /** The `.mp-volume` container. */
    const volumeButton: Element
    /** The `.mp-progress-total` bar. */
    const progressTotal: Element
    var posterShown: bool
    var overlayShown: bool
    /** The negotiated sources. */
    var sources: seq<Source>
    /** The text of `.mp-time-current`. */
    var timeCurrent: string
    /** The text of `.mp-time-total`. */
    var timeTotal: string

    /** The control elements are distinct and each state class stands on its element at most once. */
    ghost predicate Valid()
      reads this, playButton, volumeButton, progressTotal
    {
      && playButton != volumeButton && playButton != progressTotal && volumeButton != progressTotal
      && AtMostOnce(playButton.className, "mp-pause")
      && AtMostOnce(volumeButton.className, "mp-mute")
      && AtMostOnce(progressTotal.className, "mp-loading")
    }

    /**
     * `new MediaPlayer(el, options)` on a fresh copy `media` of the element
     * whose `<source>` children are `children`: the player's parts start
     * hidden and unstyled, then `create` runs. `nativeControls` is the
     * outcome of the options and user-agent tests; `controlsAttribute` says
     * whether `getAttribute('controls')` is a non-empty string (a bare
     * `controls` attribute reads as "" and builds no bar).
     */
    constructor (media: Media, p: Platform, children: seq<Source>, nativeControls: bool, controlsAttribute: bool)
      modifies media
      ensures Valid()
      ensures this.media == media && hasControls == (!nativeControls && controlsAttribute)
      ensures sources == Negotiate(p, children)
      ensures media.src == LoadTarget(p, SourceList(children), old(media.src)).GetOr(old(media.src))
      ensures media.paused && media.currentTime == 0 && media.volume == old(media.volume)
      ensures playButton.className == "mp-button mp-play" && !HasClass(playButton.className, "mp-pause")
      ensures volumeButton.className == "mp-button mp-volume" && !HasClass(volumeButton.className, "mp-mute")
      ensures progressTotal.className == "mp-progress-total" && !HasClass(progressTotal.className, "mp-loading")
      ensures posterShown == !nativeControls && overlayShown == !nativeControls
      ensures timeCurrent == "00:00" && timeTotal == "00:00"
    {
      PlayButtonInitially();
      VolumeButtonInitially();
      ProgressInitially();
      this.media := media;
      hasControls := false;
      playButton := new Element("mp-button mp-play");
      volumeButton := new Element("mp-button mp-volume");
      progressTotal := new Element("mp-progress-total");
      posterShown := false;
      overlayShown := false;
      sources := [];
      timeCurrent := "00:00";
      timeTotal := "00:00";
      new;
      Create(p, children, nativeControls, controlsAttribute);
    }

    /**
     * `create(el)`: the sources are negotiated and the first survivor
     * loaded before any control exists, so no loader shows; then the poster
     * and play overlay appear unless the native controls are used, the
     * control bar is built when `getAttribute('controls')` is non-empty and
     * native controls are not used, and the element is loaded, which pauses
     * and rewinds it.
     */
    method Create(p: Platform, children: seq<Source>, nativeControls: bool, controlsAttribute: bool)
      requires Valid() && !hasControls
      modifies this, media, progressTotal
      ensures Valid()
      ensures hasControls == (!nativeControls && controlsAttribute)
      ensures sources == Negotiate(p, children)
      ensures media.src == LoadTarget(p, SourceList(children), old(media.src)).GetOr(old(media.src))
      ensures media.paused && media.currentTime == 0 && media.volume == old(media.volume)
      ensures progressTotal.className == old(progressTotal.className)
      ensures posterShown == !nativeControls && overlayShown == !nativeControls
      ensures timeCurrent == old(timeCurrent) && timeTotal == old(timeTotal)
    {
      var _ := SetSrc(p, SourceList(children));
      posterShown := !nativeControls;
      overlayShown := !nativeControls;
      hasControls := !nativeControls && controlsAttribute;
      media.Load();
    }

    /** `play()`: show the pause state, hide poster and overlay, start the element. */
    method Play()
      requires Valid() && hasControls
      modifies this, playButton, media
      ensures Valid()
      ensures playButton.className == Added(old(playButton.className), "mp-pause")
      ensures HasClass(playButton.className, "mp-pause") && !media.paused
      ensures !posterShown && !overlayShown
      ensures media.src == old(media.src) && media.currentTime == old(media.currentTime) && media.volume == old(media.volume)
      ensures sources == old(sources) && timeCurrent == old(timeCurrent) && timeTotal == old(timeTotal)
      ensures hasControls
    {
      AddedAtMostOnce(playButton.className, "mp-pause");
      playButton.AddClass("mp-pause");
      posterShown := false;
      overlayShown := false;
      media.Play();
    }

    /** `pause()`: drop the pause state and pause the element. */
    method Pause()
      requires Valid() && hasControls
      modifies playButton, media
      ensures Valid()
      ensures playButton.className == Removed(old(playButton.className), "mp-pause")
      ensures !HasClass(playButton.className, "mp-pause") && media.paused
      ensures media.src == old(media.src) && media.currentTime == old(media.currentTime) && media.volume == old(media.volume)
    {
      playButton.RemoveClass("mp-pause");
      media.Pause();
    }

    /** `togglePlay()`: play when paused, pause otherwise; the button shows "pause" exactly while playing. */
    method TogglePlay()
      requires Valid() && hasControls
      modifies this, playButton, media
      ensures Valid()
      ensures media.paused == !old(media.paused)
      ensures playButton.className ==
        if old(media.paused) then Added(old(playButton.className), "mp-pause")
        else Removed(old(playButton.className), "mp-pause")
      ensures HasClass(playButton.className, "mp-pause") <==> !media.paused
      ensures old(media.paused) ==> !posterShown && !overlayShown
      ensures !old(media.paused) ==> posterShown == old(posterShown) && overlayShown == old(overlayShown)
      ensures media.src == old(media.src) && media.currentTime == old(media.currentTime) && media.volume == old(media.volume)
      ensures sources == old(sources) && timeCurrent == old(timeCurrent) && timeTotal == old(timeTotal)
      ensures hasControls
    {
      if media.paused {
        Play();
      } else {
        Pause();
      }
    }

    /** `toggleVolume()`: mute when sounding, full volume when muted; the button shows "mute" exactly at volume 0. */
    method ToggleVolume()
      requires Valid() && hasControls
      modifies volumeButton, media
      ensures Valid()
      ensures media.volume == if old(media.volume) == 0.0 then 1.0 else 0.0
      ensures volumeButton.className ==
        if old(media.volume) == 0.0 then Removed(old(volumeButton.className), "mp-mute")
        else Added(old(volumeButton.className), "mp-mute")
      ensures HasClass(volumeButton.className, "mp-mute") <==> media.volume == 0.0
      ensures media.src == old(media.src) && media.paused == old(media.paused) && media.currentTime == old(media.currentTime)
    {
      if media.volume == 0.0 {
        media.volume := 1.0;
        volumeButton.RemoveClass("mp-mute");
      } else {
        media.volume := 0.0;
        AddedAtMostOnce(volumeButton.className, "mp-mute");
        volumeButton.AddClass("mp-mute");
      }
    }

    /** `setDuration(d)`: the total clock shows `mm:ss`, reading back as the seconds within the hour. */
    method SetDuration(duration: nat)
      requires hasControls
      modifies this
      ensures timeTotal == Format(duration, false)
      ensures |timeTotal| == 5 && timeTotal[2] == ':' && ParseTime(timeTotal) == Some(duration % 3600)
      ensures timeCurrent == old(timeCurrent) && sources == old(sources)
      ensures hasControls
      ensures posterShown == old(posterShown) && overlayShown == old(overlayShown)
    {
      FormatShape(duration);
      FormatRoundTripNoHours(duration);
      timeTotal := Format(duration, false);
    }

    /** `setCurrentTime(t)`: the current clock shows `mm:ss`, reading back as the seconds within the hour. */
    method SetCurrentTime(time: nat)
      requires hasControls
      modifies this
      ensures timeCurrent == Format(time, false)
      ensures |timeCurrent| == 5 && timeCurrent[2] == ':' && ParseTime(timeCurrent) == Some(time % 3600)
      ensures timeTotal == old(timeTotal) && sources == old(sources)
      ensures hasControls
      ensures posterShown == old(posterShown) && overlayShown == old(overlayShown)
    {
      FormatShape(time);
      FormatRoundTripNoHours(time);
      timeCurrent := Format(time, false);
    }

    /**
     * `setSrc(arg)` on platform `p`, with the element's `loadedmetadata` and
     * `canplay` events run to completion: a list is negotiated into
     * `sources` and its first survivor loaded when the element had no
     * source; a single source is loaded with the play state and position
     * kept. An object the single-source form does not take, and anything
     * else, is rejected with `false`; the list form returns nothing.
     */
    method SetSrc(p: Platform, arg: SrcArg) returns (rejected: bool)
      requires Valid()
      modifies this, media, progressTotal
      ensures Valid()
      ensures hasControls == old(hasControls)
      ensures rejected <==> arg.Other? || (arg.SourceObject? && !Loadable(p, arg.source))
      ensures arg.SourceList? ==> sources == Negotiate(p, arg.list)
      ensures !arg.SourceList? ==> sources == old(sources)
      ensures media.src == LoadTarget(p, arg, old(media.src)).GetOr(old(media.src))
      ensures media.paused == old(media.paused) && media.currentTime == old(media.currentTime)
      ensures media.volume == old(media.volume)
      ensures progressTotal.className ==
        if hasControls && LoadTarget(p, arg, old(media.src)).Some?
        then LoaderCycle(old(progressTotal.className))
        else old(progressTotal.className)
      ensures hasControls && LoadTarget(p, arg, old(media.src)).Some? ==> !HasClass(progressTotal.className, "mp-loading")
      ensures posterShown == old(posterShown) && overlayShown == old(overlayShown)
      ensures timeCurrent == old(timeCurrent) && timeTotal == old(timeTotal)
    {
      if arg.SourceList? {
        SetSourceList(p, arg.list);
        rejected := false;
      } else {
        rejected := SetSingleSource(p, arg);
      }
    }

    /** The list form of `setSrc`: negotiate, then load the first survivor into an element without a source. */
    method SetSourceList(p: Platform, list: seq<Source>)
      requires Valid()
      modifies this, media, progressTotal
      ensures Valid()
      ensures hasControls == old(hasControls)
      ensures sources == Negotiate(p, list)
      ensures media.src == LoadTarget(p, SourceList(list), old(media.src)).GetOr(old(media.src))
      ensures media.paused == old(media.paused) && media.currentTime == old(media.currentTime)
      ensures media.volume == old(media.volume)
      ensures progressTotal.className ==
        if hasControls && LoadTarget(p, SourceList(list), old(media.src)).Some?
        then LoaderCycle(old(progressTotal.className))
        else old(progressTotal.className)
      ensures posterShown == old(posterShown) && overlayShown == old(overlayShown)
      ensures timeCurrent == old(timeCurrent) && timeTotal == old(timeTotal)
    {
      sources := CollectSources(p, list);
      if media.src == "" && |sources| > 0 {
        // `setSrc(this.sources[0])`, whose result is dropped
        var _ := SetSingleSource(p, SourceObject(sources[0]));
      }
    }

    /**
     * The single-source form of `setSrc`: take the URL of a source object
     * the platform accepts, or of a string, and load it; reject anything
     * else with `false`.
     */
    method SetSingleSource(p: Platform, arg: SrcArg) returns (rejected: bool)
      requires Valid() && !arg.SourceList?
      modifies media, progressTotal
      ensures Valid()
      ensures rejected <==> LoadTarget(p, arg, old(media.src)).None?
      ensures media.src == LoadTarget(p, arg, old(media.src)).GetOr(old(media.src))
      ensures media.paused == old(media.paused) && media.currentTime == old(media.currentTime)
      ensures media.volume == old(media.volume)
      ensures progressTotal.className ==
        if hasControls && !rejected then LoaderCycle(old(progressTotal.className))
        else old(progressTotal.className)
    {
      rejected := false;
      match arg
      case Url(url) =>
        Reload(url);
      case SourceObject(source) =>
        if Loadable(p, source) {
          Reload(source.src);
        } else {
          rejected := true;
        }
      case Other =>
        rejected := true;
    }

    /**
     * The single-source branch of `setSrc`: load `url` under the loader,
     * restore the position on `loadedmetadata`, and on `canplay` drop the
     * loader and resume playing if the element was playing before.
     */
    method Reload(url: string)
      requires Valid()
      modifies media, progressTotal
      ensures Valid()
      ensures media.src == url
      ensures media.paused == old(media.paused) && media.currentTime == old(media.currentTime)
      ensures media.volume == old(media.volume)
      ensures progressTotal.className ==
        if hasControls then LoaderCycle(old(progressTotal.className))
        else old(progressTotal.className)
      ensures hasControls ==> !HasClass(progressTotal.className, "mp-loading")
    {
      var paused := media.paused;
      var currentTime := media.currentTime;
      media.src := url;
      // showLoader
      if hasControls {
        AddedAtMostOnce(progressTotal.className, "mp-loading");
        progressTotal.AddClass("mp-loading");
      }
      media.Load();
      // loadedmetadata
      media.currentTime := currentTime;
      // canplay: the loader's listener was registered first
      if hasControls {
        progressTotal.RemoveClass("mp-loading");
      }
      if !paused {
        media.Play();
      }
    }

    /**
     * The change handler of source item `i`: `setSrc(sources[i])`, which
     * loads that source, under the loader, when the single-source form
     * takes it, and otherwise changes nothing. The menu is built once, so
     * after a later `setSrc(list)` with fewer survivors an item can index
     * past `sources`; then `setSrc(undefined)` rejects and nothing changes.
     */
    method SwitchSource(p: Platform, i: nat) returns (rejected: bool)
      requires Valid()
      modifies this, media, progressTotal
      ensures Valid()
      ensures sources == old(sources) && hasControls == old(hasControls)
      ensures rejected <==> !(i < |old(sources)| && Loadable(p, old(sources[i])))
      ensures media.src == if !rejected then old(sources[i].src) else old(media.src)
      ensures media.paused == old(media.paused) && media.currentTime == old(media.currentTime)
      ensures media.volume == old(media.volume)
      ensures progressTotal.className ==
        if hasControls && !rejected
        then LoaderCycle(old(progressTotal.className))
        else old(progressTotal.className)
      ensures hasControls && !rejected ==> !HasClass(progressTotal.className, "mp-loading")
      ensures posterShown == old(posterShown) && overlayShown == old(overlayShown)
      ensures timeCurrent == old(timeCurrent) && timeTotal == old(timeTotal)
    {
      rejected := SetSrc(p, if i < |sources| then SourceObject(sources[i]) else Other);
    }

    /**
     * `setVolume(volume)`: every real is finite, so the `isFinite` guard
     * passes; the element's `volume` setter then throws (`thrown`) and keeps
     * the old volume unless the value lies in [0, 1].
     */
    method SetVolume(volume: real) returns (thrown: bool)
      modifies media
      ensures thrown <==> !(0.0 <= volume <= 1.0)
      ensures media.volume == if thrown then old(media.volume) else volume
      ensures media.src == old(media.src) && media.paused == old(media.paused) && media.currentTime == old(media.currentTime)
    {
      thrown := media.SetVolume(volume);
    }

    /**
     * The change handler of the track item with value `v`: every track of
     * the chosen track's kind is disabled, then the chosen one toggled,
     * which turns it on. The "None" items (value -1) change nothing.
     */
    method SelectTrack(v: int)
      modifies media.textTracks
      ensures media.textTracks[..] == Select(old(media.textTracks[..]), v)
    {
      var tracks := media.textTracks;
      if 0 <= v < tracks.Length {
        var kind := tracks[v].kind;
        var i := 0;
        while i < tracks.Length
          invariant 0 <= i <= tracks.Length
          invariant forall k :: 0 <= k < i ==>
            tracks[k] == if old(tracks[k]).kind == kind then old(tracks[k]).(mode := Disabled) else old(tracks[k])
          invariant forall k :: i <= k < tracks.Length ==> tracks[k] == old(tracks[k])
        {
          if tracks[i].kind == kind {
            tracks[i] := tracks[i].(mode := Disabled);
          }
          i := i + 1;
        }
        tracks[v] := tracks[v].(mode := if tracks[v].mode == Disabled then Showing else Disabled);
      }
    }

    /** The track loop of `createControls`: the radio items of the track menu. */
    method BuildTrackMenu() returns (items: seq<MenuItem>)
      ensures items == TrackMenu(media.textTracks[..]).items
    {
      var tracks := media.textTracks;
      var noneAdded: seq<string> := [];
      items := [];
      var i := 0;
      while i < tracks.Length
        invariant 0 <= i <= tracks.Length
        invariant TrackMenu(tracks[..i]) == MenuState(items, noneAdded)
      {
        assert tracks[..i + 1][..i] == tracks[..i];
        if !OwnProperty(noneAdded, tracks[i].kind) {
          items := items + [TrackItem(NoneTrack(tracks[i].kind), -1)];
          noneAdded := noneAdded + [tracks[i].kind];
        }
        items := items + [TrackItem(tracks[i], i)];
        i := i + 1;
      }
      assert tracks[..i] == tracks[..];
    }

    /** The source loop of `createControls`: the radio items of the source menu. */
    method BuildSourceMenu() returns (items: seq<MenuItem>)
      ensures items == SourceMenu(sources)
    {
      items := [];
      var i := 0;
      while i < |sources|
        invariant 0 <= i <= |sources|
        invariant items == SourceMenu(sources[..i])
      {
        items := items + [SourceItem(sources[i], i)];
        i := i + 1;
      }
      assert sources[..i] == sources;
    }
  }
}
