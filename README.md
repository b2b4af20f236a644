# MediaPlayer core in Dafny

MediaPlayer wraps an HTML5 `<audio>`/`<video>` element in a custom control
bar. This project models the logic under that bar, with the browser replaced
by plain records:

- `utils.timeFormat` renders whole seconds as `[hh:]mm:ss` (`TimeFormat`).
- `hasClass`/`addClass`/`removeClass` work on an element's `className` token list (`ClassList`). The token search follows the regular expression `(\s|^)cls(\s|$)`, with JavaScript's full `\s` set.
- Source negotiation keeps the candidate `<source>` elements the browser can play and, for a candidate with a media query, for which `window.matchMedia(query)` is truthy (`Sources`; a `MediaQueryList` object always is, so the query itself is not decided). `canPlayType`, `matchMedia` and whether the page defines `HTMLSourceElement` are parameters.
- Text tracks, the track-selection handler and the radio menus for tracks and sources (`Tracks`).
- The player object (`Player`):
  - a `Media` class holds `src`, `paused`, `currentTime`, `volume` and the array of text tracks;
  - a `MediaPlayer` class holds the control elements it updates;
  - its constructor runs `create`, including the `setSrc` call that happens before the control bar exists;
  - its methods cover `setSrc` (list form, single-source form and the reload sequence), the track and source change handlers, the menu loops, `play`/`pause`/`togglePlay`, `toggleVolume`, `setVolume`, `setDuration` and `setCurrentTime`.

Pure code is modelled as functions and lemmas. Code that updates things in place is modelled as class methods with `modifies` clauses and loop invariants. Each method is proved against the specification function beside it:

- `CollectSources` against `Negotiate`, and `SetSrc` against `Negotiate` and `LoadTarget`;
- `SelectTrack` against `Select`;
- `BuildTrackMenu` against `TrackMenu`;
- `BuildSourceMenu` against `SourceMenu`.

## Model

| member | source | states |
|---|---|---|
| TimeFormat.Decimal | src/mediaplayer.js:64-66 | the decimal rendering of a number is one digit exactly below 10, two digits exactly from 10 to 99, and has no leading zero |
| TimeFormat.DecimalRoundTrip | src/mediaplayer.js:64-66 | reading a rendered number back gives the number |
| TimeFormat.Pad | src/mediaplayer.js:64-66 | a padded field is all digits, at least two long, exactly two below 100, and reads back as the value |
| TimeFormat.Split | src/mediaplayer.js:60-63 | hours*3600 + minutes*60 + seconds equals the time, and minutes and seconds are below 60 |
| TimeFormat.SplitUnique | src/mediaplayer.js:60-63 | any split with minutes and seconds below 60 is that split |
| TimeFormat.FormatFromClock | src/mediaplayer.js:67-72 | the text without hours is the padded minutes, ":", and the padded seconds of any valid split |
| TimeFormat.PadExamples | src/mediaplayer.js:64-66 | 0, 1 and 59 pad to "00", "01" and "59" |
| TimeFormat.Format | src/mediaplayer.js:59-73 | the text ends in a colon and two second digits; it is five characters exactly when hours are not shown, and at least eight with a second colon before the minutes when they are |
| TimeFormat.FormatShape | src/mediaplayer.js:67-72 | without hours the text is always five characters `mm:ss` |
| TimeFormat.FormatWithHours | src/mediaplayer.js:67-72 | with hours the text is the padded hours and ":" followed by the text without hours |
| TimeFormat.FormatDropsHours | src/mediaplayer.js:67-72 | without hours, whole hours are dropped (t and t mod 3600 render alike) |
| TimeFormat.FormatRoundTrip | src/mediaplayer.js:59-73 | the text with hours parses back to the original seconds |
| TimeFormat.FormatRoundTripNoHours | src/mediaplayer.js:59-73 | the text without hours parses back to the seconds within the hour |
| TimeFormat.FormatExampleZero | src/mediaplayer.js:59-73 | 0 seconds shows as "00:00" |
| TimeFormat.FormatExampleMinute | src/mediaplayer.js:59-73 | 59 seconds shows as "00:59" |
| TimeFormat.FormatExampleHour | src/mediaplayer.js:59-73 | 60 seconds shows as "01:00" |
| TimeFormat.FormatExampleHours | src/mediaplayer.js:59-73 | 3661 seconds with hours shows as "01:01:01" |
| ClassList.FindFrom | src/mediaplayer.js:47-49 | the regular-expression search finds the first whole-token occurrence at or after a position, or reports that there is none |
| ClassList.HasClass | src/mediaplayer.js:47-49 | the regular expression matches exactly when the token stands in the list whole, bounded by whitespace or the ends of the string |
| ClassList.First | src/mediaplayer.js:47-49 | where the first match of `hasClass` stands: an occurrence with none before it |
| ClassList.Added | src/mediaplayer.js:50-52 | after `addClass` the token is present, the old class list is a prefix of the new one, at most a space and the token are appended, and a present token changes nothing |
| ClassList.AddedTokens | src/mediaplayer.js:50-52 | for plain tokens, a token is present after `addClass(c)` exactly when it was present before or is `c` |
| ClassList.AddedIdempotent | src/mediaplayer.js:50-52 | adding twice is adding once; adding a present token changes nothing |
| ClassList.AddedOccurrences | src/mediaplayer.js:50-52 | adding an absent token puts exactly one occurrence after the appended space |
| ClassList.AddedAtMostOnce | src/mediaplayer.js:50-52 | adding keeps a token that stood at most once standing at most once |
| ClassList.MatchSpan | src/mediaplayer.js:55-56 | the match is the first occurrence, plus the whitespace character before it unless it starts the string, plus the whitespace character after it unless it ends the string |
| ClassList.ReplaceFirst | src/mediaplayer.js:56 | the text before and after the match is kept and the match becomes one space |
| ClassList.LaterOccurrences | src/mediaplayer.js:55-56 | every other occurrence starts after the replaced span |
| ClassList.DisjointTokens | src/mediaplayer.js:47-49 | whole occurrences of two tokens either do not overlap or are the same token at the same place |
| ClassList.OtherOutsideMatch | src/mediaplayer.js:55-56 | an occurrence of another token lies wholly before or wholly after the replaced match |
| ClassList.SpliceOccurrences | src/mediaplayer.js:55-56 | after replacing the span with one space, the occurrences are exactly the later ones, shifted |
| ClassList.Removed | src/mediaplayer.js:53-58 | `removeClass` of an absent token leaves the class list unchanged and never lengthens it |
| ClassList.RemovedOccurrences | src/mediaplayer.js:53-58 | after `removeClass` the occurrences are exactly the shifted occurrences that stood after the first |
| ClassList.RemovedTokens | src/mediaplayer.js:53-58 | for plain tokens, `removeClass(c)` leaves every other token present exactly when it was present before |
| ClassList.RemovedAbsent | src/mediaplayer.js:53-58 | removing a token that stood at most once leaves it absent |
| ClassList.AddThenRemove | src/mediaplayer.js:513-522 | the loader's add-then-remove cycle leaves `mp-loading` absent |
| ClassList.Element.AddClass | src/mediaplayer.js:50-52 | the element's `className` becomes the added list, and the token is present |
| ClassList.Element.RemoveClass | src/mediaplayer.js:53-58 | the element's `className` becomes the removed list, and a token that stood at most once is gone |
| Sources.Playable | src/mediaplayer.js:463-470 | a candidate survives when `canPlayType` answers non-empty for its type and, when it has a media query and the window has `matchMedia`, the call's result is truthy |
| Sources.Negotiate | src/mediaplayer.js:460-472 | the survivors are at most as many as the candidates, and each is a playable candidate |
| Sources.KeptIndicesSpec | src/mediaplayer.js:462-471 | the kept positions lie in the list, strictly increase, and are exactly the playable candidates |
| Sources.NegotiateAtIndices | src/mediaplayer.js:461-472 | survivor k is the candidate at kept position k |
| Sources.NegotiateIsFilter | src/mediaplayer.js:460-472 | survivors are the candidates at strictly increasing positions, and a candidate survives exactly when it is playable |
| Sources.FirstSurvivor | src/mediaplayer.js:474-475 | the first survivor is the first playable candidate |
| Sources.NegotiateNonEmpty | src/mediaplayer.js:460-474 | some candidate survives exactly when some candidate is playable |
| Sources.NegotiateAllPlayable | src/mediaplayer.js:460-472 | when every candidate is playable the list is kept as it is |
| Tracks.Select | src/mediaplayer.js:425-446 | selecting track v leaves the length and every kind, label and language alone, makes v showing, disables the rest of its kind, keeps other kinds, and a value that indexes no track changes nothing |
| Tracks.SelectExclusive | src/mediaplayer.js:429-444 | after selecting, the chosen track is the only showing track of its kind |
| Tracks.SelectPreservesExclusive | src/mediaplayer.js:429-444 | a kind with at most one showing track keeps at most one |
| Tracks.KindName | src/mediaplayer.js:300 | a track item's radio name is never empty: the kind, or "unknow" when the track has none |
| Tracks.TrackItem | src/mediaplayer.js:294-317 | a track item is named by `KindName`, has value `i`, shows the label or else the language, and is checked exactly when the track is showing (its items are stated by `PairedMenuItems`) |
| Tracks.OwnProperty | src/mediaplayer.js:242 | `noneOptionsAdded[kind] != undefined` among the array's own properties holds exactly for "length" and for the decimal index strings below the array's length; inherited names are not covered |
| Tracks.TrackMenu | src/mediaplayer.js:238-251 | the loop yields at least one and at most two items per track, and records at most one kind per track |
| Tracks.PlainKindNotOwn | src/mediaplayer.js:242 | the lookup `noneOptionsAdded[kind]` never finds a kind that is not "length" and does not start with a digit |
| Tracks.TrackMenuStep | src/mediaplayer.js:242-250 | when the lookup misses, a loop step appends a "None" item of value -1 for the track's kind and then the track's own item |
| Tracks.TrackMenuPairs | src/mediaplayer.js:238-251 | with such kinds the dedupe never fires: the loop builds the paired menu, each track preceded by its own "None" item |
| Tracks.PairedMenu | src/mediaplayer.js:238-251 | the paired menu holds two items per track |
| Tracks.PairedMenuItems | src/mediaplayer.js:294-317 | item 2i is a checked "None" item of value -1 named after track i's kind; item 2i+1 has value i, name the kind or "unknow", text the label or the language, and is checked exactly when track i is showing |
| Tracks.TrackMenuValues | src/mediaplayer.js:240-249 | every menu value is -1, which selects nothing, or a track index, which ends up showing |
| Tracks.SourceItem | src/mediaplayer.js:319-338 | a source item belongs to the "source" radio group, has value `i`, and is checked exactly when `i` is 0 |
| Tracks.SourceMenu | src/mediaplayer.js:271-274 | one item per source, item i has value i and name "source", shows the source's title or else its type, and exactly item 0 is checked |
| Player.Loadable | src/mediaplayer.js:483-487 | the single-source form takes an `HTMLSourceElement` where the page defines that type, and otherwise any object with an own `src` |
| Player.LoadTarget | src/mediaplayer.js:457-511 | a string is loaded as given, an object is loaded exactly when the single-source form takes it, anything else loads nothing, and a list loads nothing into an element that has a source |
| Player.LoadTargetOfList | src/mediaplayer.js:460-476 | a list loads into an element without a source exactly when its first playable candidate exists and the single-source form takes it, and then it loads that candidate's URL |
| Player.CollectSources | src/mediaplayer.js:461-472 | the loop pushes exactly the negotiated survivors, in order |
| Player.LoaderCycle | src/mediaplayer.js:513-522 | after the loader's add-then-remove cycle a class list that held `mp-loading` at most once holds it not at all |
| Player.PlayButtonInitially | src/mediaplayer.js:171 | the play button starts without `mp-pause` |
| Player.VolumeButtonInitially | src/mediaplayer.js:220 | the volume button starts without `mp-mute` |
| Player.ProgressInitially | src/mediaplayer.js:181 | the progress bar starts without `mp-loading` |
| Player.MediaPlayer.constructor | src/mediaplayer.js:21-44 | after construction the control bar has its literal class names and no loader, the sources are negotiated from the element's children, `src` is the list's load target, the element is paused at 0, the clocks read "00:00", poster and overlay are shown unless native controls are used, and the bar exists exactly when `getAttribute('controls')` is non-empty and native controls are not used (a bare `controls` attribute reads as "" and builds no bar) |
| Player.MediaPlayer.Create | src/mediaplayer.js:80-147 | `setSrc` runs on the children before the bar exists, so the progress bar's classes are untouched; then poster, overlay and bar are set up and the final `load` leaves the element paused at 0 |
| Player.MediaPlayer.Play | src/mediaplayer.js:533-540 | `mp-pause` is added, the poster and the overlay are hidden, and the element plays |
| Player.MediaPlayer.Pause | src/mediaplayer.js:542-547 | `mp-pause` is removed and the element is paused |
| Player.MediaPlayer.TogglePlay | src/mediaplayer.js:524-531 | `paused` flips; a paused element gets `play`'s effect (`mp-pause` added, poster and overlay hidden), a playing one `pause`'s (`mp-pause` removed); `mp-pause` is on the button exactly when the element plays |
| Player.MediaPlayer.ToggleVolume | src/mediaplayer.js:573-582 | volume 0 becomes 1 and `mp-mute` is removed, any other volume becomes 0 and `mp-mute` is added, so `mp-mute` is present exactly at volume 0 |
| Player.MediaPlayer.SetDuration | src/mediaplayer.js:549-552 | the total clock shows `mm:ss` without hours, reading back as the duration within the hour |
| Player.MediaPlayer.SetCurrentTime | src/mediaplayer.js:554-558 | the current clock shows `mm:ss` without hours, reading back as the time within the hour |
| Player.MediaPlayer.SetSrc | src/mediaplayer.js:457-511 | `false` exactly for an object the single-source form does not take and for an argument of the wrong type. A list sets `sources` to the negotiated list. `src` becomes the load target, if any. `paused`, `currentTime` and volume are kept. The loader class goes through its add-then-remove cycle exactly when something loads with the bar built |
| Player.MediaPlayer.SetSourceList | src/mediaplayer.js:460-477 | `sources` becomes the negotiated list, and the first survivor goes through the single-source form when the element had no source |
| Player.MediaPlayer.SetSingleSource | src/mediaplayer.js:479-510 | rejected exactly when there is nothing to load; otherwise the URL is loaded with the play state, position and volume kept and the loader cycled when the bar is built |
| Player.MediaPlayer.Reload | src/mediaplayer.js:480-510 | the new URL is loaded with `paused` and `currentTime` restored after `loadedmetadata` and `canplay`, and, with the bar built, `mp-loading` ends absent |
| Player.MediaPlayer.SwitchSource | src/mediaplayer.js:412-415 | choosing source i loads it when i still indexes `sources` and the single-source form takes it; otherwise (including a stale index after a shorter list, where `setSrc(undefined)` rejects) it reports rejection and changes nothing; sources, play state, position, volume, poster, overlay and clocks are kept, and the loader is cycled exactly when something loads with the bar built |
| Player.MediaPlayer.SetVolume | src/mediaplayer.js:584-588 | a volume in [0, 1] becomes the element's volume; any other value throws (the element's `IndexSizeError`) and keeps the old volume; nothing else changes |
| Player.MediaPlayer.SelectTrack | src/mediaplayer.js:425-446 | the track array becomes `Select` of the old one |
| Player.MediaPlayer.BuildTrackMenu | src/mediaplayer.js:238-251 | the loop with its `noneOptionsAdded` state yields the track menu |
| Player.MediaPlayer.BuildSourceMenu | src/mediaplayer.js:271-274 | the loop yields the source menu |

## Left out

- Building the DOM is not modelled: the wrapper and the element copy in `create`, the element building in `createControls`, `createPoster`, `resizeProgressbar` and `addEventListeners`. The constructor gives the control elements the class names `createControls` assigns, and `hasControls` says whether the bar exists yet. In `create` the bar is built after the first `setSrc`, so no loader shows for that load.
- Floating point is not modelled: `seek`, the click-to-time proportion, and the progress-bar widths set by `setCurrentTime`, `setBufferProgress` and `showLoader`. Time is whole seconds, and `parseInt` is taken as truncation done by the caller.
- TimeFormat.Split: non-finite or negative input is not covered (for example `parseInt(Infinity)` gives NaN, which renders "NaN:NaN").
- TimeFormat.Decimal: numbers are unbounded; JavaScript's exponent notation from 1e21 and the rounding of `parseInt` and `Math.floor` above 2^53 are not modelled.
- Player.MediaPlayer.SetVolume: volumes are reals, so the `isFinite` guard always passes; NaN and infinite volumes are not modelled. The `IndexSizeError` thrown for a volume outside [0, 1] is reported as `thrown`; its propagation to the caller is not modelled.
- `errorHandler` changes no player state: it throws on every media `error` event, from its first `switch`. Exceptions raised in listeners are not modelled.
- Fullscreen handling and the Captionator integration (including its numeric mode constants) are browser or external-library calls. User-agent sniffing and the options reduce to the constructor's `nativeControls` parameter; `controlsAttribute` says whether `getAttribute('controls')` is a non-empty string, which is what the source tests. `initTracks` is empty.
- Event listeners are not modelled as registrations. `Player.MediaPlayer.Reload` runs one reload sequence to completion. The `loadedmetadata`/`canplay` listeners that pile up across switches are not modelled, and neither is their later re-firing.
- `canPlayType`, the truthiness of the value `matchMedia(query)` returns and whether the page defines `HTMLSourceElement` are parameters of the model (`Sources.Platform`). A candidate records whether it is an `HTMLSourceElement` and whether `src` is its own property.
- ClassList.Removed requires a plain token (non-empty, no whitespace). Class names holding regular-expression metacharacters are not covered.
- ClassList.Element.RemoveClass requires a plain token for the same reason.
- Player.MediaPlayer.Play, Player.MediaPlayer.Pause, Player.MediaPlayer.TogglePlay, Player.MediaPlayer.ToggleVolume, Player.MediaPlayer.SetDuration and Player.MediaPlayer.SetCurrentTime require a control bar. Without one the source fails with a TypeError, and that failure is not modelled.
- Tracks.TrackItem and Tracks.SourceItem record whether an item is assigned `checked`. The browser's rule that checking a radio unchecks the others of its group is not modelled.
- Tracks.OwnProperty models only the array's own properties: inherited names such as "push", "constructor" or "toString" are found by the `!= undefined` lookup but not modelled.
- Tracks.PlainKindNotOwn covers only the array's own properties (index strings and "length"). Inherited names such as "push" are not modelled.
- `media.src` is the string assigned. The browser's resolution to an absolute URL is not modelled.
- Player.MediaPlayer.SetSrc returns `false` for a rejected argument. Otherwise JavaScript returns `undefined`, modelled as `rejected == false`; the list form drops the result of its inner call.
- Player.MediaPlayer.SetSrc: `setSrc(null)` throws a TypeError at the list test (`null.constructor`); that throw is not modelled, and `Other` stands for non-null values only.
