# Media viewer: verified model of the catalogue server and the viewer client

The system is a password-protected web viewer for a folder of images and
videos. A small Flask server (`server.py`) keeps an index of the media files
under its working directory. Each entry holds a rating, a nickname (the name
of the folder the file sits in), a category and a type. The server answers
filtered listings behind a session gate. A browser client (`static/app.js`,
class `MediaIndexer`) has four multi-select filters: rating, nickname,
category and type. It shows one item of the filtered list at a time, moves
a cursor with Prev/Next, and can autoplay: an image advances after an
interval, a video when it ends.

The model is split into Dafny modules that follow the program:

- `PythonText` (`python_text.dfy`): the pieces of Python the server relies on.
  - `str` of an integer.
  - `str.lower` (ASCII letters).
  - POSIX `os.path.basename` and `os.path.splitext`.
- `Lists` (`lists.dfy`): lists without repeated elements and their lengths, shared by both sides.
- `Catalogue` (`catalogue.dfy`): the server-side data and request logic.
  - Index entries and the extension sets, with the classification of files by extension.
  - The conjunctive four-facet filter of `get_filtered_media`, as a loop whose visiting order is left open. That order stands for both the dictionary's order and the shuffle.
  - The `require_auth` gate and the password check.
- `MediaIndexing` (`media_index.dfy`): `MediaIndex.update_index` as a class that updates its `index` map in place. The methods are proved against a functional specification (`Reconciled`), and lemmas state what that specification means.
- `JsSort` (`js_sort.dfy`): the order `Array.prototype.sort` gives strings, and the sort of a duplicate-free list.
- `Facets` (`facets.dfy`): the two filter-control operations.
  - `populateSelect`.
  - The facet collection of `loadFilters`.
- `Playback` (`playback.dfy`): the client's navigation and autoplay state machine.
  - Functions on a value of its state, one per handler.
  - The invariant they keep, and lemmas about sequences of events.
- `Indexer` (`media_indexer.dfy`): the class `MediaIndexer`.
  - Its fields are updated in place by its handler methods.
  - Each method is proved to leave the fields as the matching `Playback` function says. Every handler (display, navigation, filters, playback, the autoplay triggers and `loadFilters`) also keeps the invariant; the two helpers `CleanUpAutoplay` and `SetupAutoplay` only promise the new fields.

## Model

| member | source | states |
|---|---|---|
| PythonText.StrInjective | server.py:127 | `str` on integers is injective, so comparing ratings through their decimal strings loses nothing |
| PythonText.Basename | server.py:55 | the nickname of a folder is the part of its path after the last slash: a suffix of the path with no slash in it |
| PythonText.ExtensionShape | server.py:57 | the extension of a file is empty or a dot followed by characters other than dots and slashes, and it is a suffix of the name |
| PythonText.HiddenFileHasNoExtension | server.py:57 | a name consisting of a leading dot and an extension (such as `.jpg`) has no extension, so such files are never indexed |
| Catalogue.KindOfMedia | server.py:57-58 | a media file gets type `image` exactly when its lower-cased extension is an image extension, and `video` exactly when it is a video extension (the two sets are disjoint) |
| Catalogue.EmptyQueryMatchesAll | server.py:127-130 | a request that selects nothing on any facet matches every entry |
| Catalogue.SingleRatingSelectsExactly | server.py:127 | selecting only the rating string `str(n)` picks out exactly the entries rated `n` |
| Catalogue.FilteredMedia | server.py:125-135 | the result holds every key whose entry passes all four facet tests, exactly once each and nothing else, so it is a permutation of the matching keys and no longer than the index |
| Catalogue.RequireAuth | server.py:101-106 | the wrapped handler runs and its value is served exactly when the session's `authenticated` flag is set; otherwise the answer is the 401 error |
| Catalogue.Authenticate | server.py:89-99 | the password is accepted exactly when its digest equals the configured password's; acceptance sets the `authenticated` flag and leaves every other session key as it was, rejection leaves the session as it was |
| Catalogue.GateFollowsLogin | server.py:96-106 | a fresh session is turned away, and after an accepted login every gated handler runs |
| Catalogue.AcceptsOnlyThePassword | server.py:26 | with a collision-free digest, only the configured password `12345` is accepted |
| Catalogue.GetFilteredMedia | server.py:116-136 | the filtered route answers 401 exactly for an unauthenticated session, otherwise a duplicate-free list of exactly the matching keys |
| Catalogue.GetMediaList | server.py:110-114 | the listing route serves the whole index to an authenticated session and 401 otherwise |
| MediaIndexing.ReconciledKeys | server.py:52-60 | after `update_index` the keys of the index are exactly the relative paths of the walked files whose lower-cased extension is an image or video extension |
| MediaIndexing.ReconciledEntry | server.py:62-71 | a key that was already indexed keeps rating, category, type and file name, with the nickname of the last folder that reported it; a new key gets rating 1, empty category, its path as file name and the type of its file |
| MediaIndexing.ReconciledFile | server.py:62-71 | for a file with its own relative path: an old entry keeps everything but the nickname, which becomes its folder's name; a new entry is `{path, 1, folder name, '', type}` |
| MediaIndexing.MediaIndex.constructor | server.py:29-44 | the index starts as the stored index (empty when there is none or it does not parse) and is then reconciled with the walk |
| MediaIndexing.MediaIndex.UpdateIndex | server.py:50-78 | the nested loops and the removal loop leave the index equal to `Reconciled` of the old index and the walk |
| MediaIndexing.MediaIndex.ScanDirectory | server.py:55-71 | the inner loop adds or refreshes the entries of one folder's media files and records their paths |
| MediaIndexing.MediaIndex.RemoveVanished | server.py:73-77 | every key the walk did not report is deleted and nothing else changes |
| JsSort.BelowTransitive | static/app.js:127-128 | the default string order of `sort` is transitive |
| JsSort.BelowTotal | static/app.js:127-128 | any two different strings are ordered one way or the other |
| JsSort.BelowAsymmetric | static/app.js:127-128 | no two strings are ordered both ways |
| JsSort.Sorted | static/app.js:127-128 | sorting a duplicate-free list yields a strictly increasing list of the same length with the same elements |
| JsSort.StrictlySortedUnique | static/app.js:127-128 | two strictly increasing lists with the same elements are equal, so the sorted facet list is determined by its set of values |
| JsSort.SortedIgnoresOrder | static/app.js:121-128 | the sorted list does not depend on the order the values were collected in |
| Facets.SelectedValues | static/app.js:138 | a value is among the selected values exactly when some selected option carries it |
| Facets.PopulateSelect | static/app.js:137-147 | the new options are the items in order, and an option is selected exactly when its item was selected before |
| Facets.PopulatedSelection | static/app.js:137-147 | after repopulating, a value is selected exactly when it is a new item and was selected before; stale selections are dropped |
| Facets.RepopulateSame | static/app.js:137-147 | refilling a select with the values it already lists changes nothing |
| Facets.CollectFacets | static/app.js:118-128 | each facet list is strictly sorted, so duplicate-free, and contains exactly the non-empty nicknames (categories) present in the catalogue |
| Playback.InitialValid | static/app.js:53-56 | the start state keeps the invariant, with playback off and nothing armed |
| Playback.CleanUpAutoplay | static/app.js:297-312 | afterwards neither schedule is live and nothing else has changed |
| Playback.CleanUpIdempotent | static/app.js:297-312 | cleaning up twice equals cleaning up once, and with nothing armed it is a no-op |
| Playback.SetupAutoplay | static/app.js:279-295 | an image type arms the interval, a video type arms the `ended` listener only when a video is mounted, any other type arms nothing; nothing else changes. It is called only when the handle it sets is not already live |
| Playback.SetupArmsOne | static/app.js:279-295 | armed from a quiet playing state, at most one schedule becomes live and the invariant holds |
| Playback.DisplayCurrentMedia | static/app.js:167-215 | the cursor, list and play flag are unchanged and the invariant holds. A schedule is live exactly when playing and the current item's type is image (interval) or video (listener). An empty list shows no media and arms nothing. Otherwise the current item becomes `currentMedia`. The container shows the element for its type, stays as it was when the listing failed, and is empty when the item has no entry |
| Playback.DisplayTearsDownFirst | static/app.js:167-169 | displaying gives the same result whether or not something was armed before |
| Playback.DisplayDependsOnCursor | static/app.js:167-215 | with a listing at hand, what is displayed depends only on the list, the cursor and the play flag |
| Playback.PrevMedia | static/app.js:228-233 | above 0 the cursor goes down by exactly one; at 0 nothing changes at all; the list and play flag are untouched and the invariant holds |
| Playback.NextMedia | static/app.js:235-240 | below the last index the cursor goes up by exactly one; at the last index (or on an empty list) nothing changes; the invariant holds |
| Playback.NextThenPrev | static/app.js:228-240 | going forward and back redisplays the item started from |
| Playback.PrevThenNext | static/app.js:228-240 | going back and forward redisplays the item started from |
| Playback.ApplyFilters | static/app.js:157-164 | a response replaces the list wholesale and resets the cursor to 0, keeping the play flag and the invariant; an empty response leaves nothing mounted or armed; a failed request changes nothing |
| Playback.FilteredDisplay | static/app.js:157-161 | when the response is the server's answer for the query, every listed item matches it, and a non-empty result shows its first item mounted by type |
| Playback.StartPlayback | static/app.js:250-267 | called on a state where stopped means nothing armed, playback is on afterwards. When it was already on, nothing changes. Otherwise autoplay is armed for the type the listing gives the current item, and nothing is armed when there is no such entry |
| Playback.StopPlayback | static/app.js:269-277 | playback is off afterwards. When it was already off, nothing changes. Otherwise both schedules are cleared. The list, cursor and surface are untouched |
| Playback.TogglePlayback | static/app.js:242-248 | the play flag is flipped and the invariant holds |
| Playback.StartStopIdempotent | static/app.js:250-277 | starting twice is starting once and stopping twice is stopping once |
| Playback.ToggleTwiceWhenStopped | static/app.js:242-277 | from a stopped state, toggling on and off returns exactly to that state |
| Playback.Step | static/app.js:282-291 | every handler keeps the invariant; the interval's tick and the video's end perform the same `nextMedia` step and only while their schedule is live |
| Playback.Run | static/app.js:79-104 | any sequence of button, key, filter and autoplay events keeps the invariant |
| Playback.NoAdvanceWhileStopped | static/app.js:279-312 | while playback is off, no autoplay trigger changes anything |
| Playback.StopSilencesAutoplay | static/app.js:269-277 | after `stopPlayback`, autoplay triggers change nothing |
| Playback.AutoplayMovesForward | static/app.js:282-291 | autoplay keeps the list and the play flag, and moves the cursor forward by at most one item per trigger |
| Playback.AutoplayStopsAtEnd | static/app.js:235-240 | at the last item, autoplay triggers change nothing |
| Indexer.MediaIndexer.constructor | static/app.js:53-56 | the fields start as `initializeApp` sets the list, cursor and current media, with the play flag and handles as the JavaScript constructor (static/app.js lines 4-6) sets them: empty list, cursor 0, no current media, playback off, nothing armed |
| Indexer.MediaIndexer.CurrentQuery | static/app.js:150-155 | each facet of the request lists exactly the values of that control's selected options |
| Indexer.MediaIndexer.CleanUpAutoplay | static/app.js:297-312 | the fields change as `Playback.CleanUpAutoplay` says |
| Indexer.MediaIndexer.SetupAutoplay | static/app.js:279-295 | the fields change as `Playback.SetupAutoplay` says |
| Indexer.MediaIndexer.DisplayCurrentMedia | static/app.js:167-215 | the fields change as `Playback.DisplayCurrentMedia` says and the invariant holds |
| Indexer.MediaIndexer.PrevMedia | static/app.js:228-233 | the fields change as `Playback.PrevMedia` says and the invariant holds |
| Indexer.MediaIndexer.NextMedia | static/app.js:235-240 | the fields change as `Playback.NextMedia` says and the invariant holds |
| Indexer.MediaIndexer.ApplyFilters | static/app.js:149-165 | the request is built from the controls' selections, and the fields change as `Playback.ApplyFilters` says for its response |
| Indexer.MediaIndexer.StartPlayback | static/app.js:250-267 | the fields change as `Playback.StartPlayback` says and the invariant holds |
| Indexer.MediaIndexer.StopPlayback | static/app.js:269-277 | the fields change as `Playback.StopPlayback` says and the invariant holds |
| Indexer.MediaIndexer.TogglePlayback | static/app.js:242-248 | the fields change as `Playback.TogglePlayback` says and the invariant holds |
| Indexer.MediaIndexer.TimerFires | static/app.js:282-284 | a tick of the interval is the `Playback.Step` for a timer event |
| Indexer.MediaIndexer.VideoEnds | static/app.js:289-292 | the end of the video is the `Playback.Step` for an ended event |
| Indexer.MediaIndexer.LoadFilters | static/app.js:107-135 | a 401 only requests a reload, and a failed request changes nothing. Otherwise the nickname and category controls list the sorted distinct non-empty values of the catalogue, keep exactly the selections that still exist, and the filters are applied; the rating and type controls are untouched |

## Left out

- File and process I/O.
  - Loading and saving `media_index.json` (`load_index`, `save_index`, the save at the end of `update_index`): the constructor receives what loading produced.
  - `os.walk`: given as a list of folders with their file names.
  - `os.path.relpath(os.path.join(...))`, which depends on the working directory: a function parameter.
  - `send_file`, Flask routing and `app.run`.
- Entries read back from JSON with missing or non-integer fields. Every modelled entry has all five fields, with an integer rating.
- `hashlib.sha256`: the digest is a function parameter. `secrets` and the session signing are not modelled.
- `random.shuffle` and dictionary order: the filter visits keys in an unspecified order, so the result is specified up to permutation.
- `str.lower` is modelled for ASCII letters only. Paths are POSIX paths.
- The JavaScript sort compares UTF-16 code units. The model compares Dafny characters, which is the same order for text outside the astral planes.
- The network, `async`/`await` and the order in which responses arrive. Each handler runs to completion in one step, and what its requests return is a parameter. Interleavings of responses, such as a second `startPlayback` response arriving after the state changed, are not modelled.
- The DOM.
  - Building `img`/`video` elements, the progress label, button labels and classes.
  - The empty-state text. The mounted element is reduced to a surface tag.
  - `window.location.reload` is a flag.
  - `toggleVideo` (play/pause of the element) is not part of this model.
- The login screen (`setupLogin`, `attemptLogin`, the client's `authenticated` field) and `fetchWithAuth` are not part of this model.
- The 5000 ms period of the interval. A tick is an event.
- `Playback.StartPlayback`: on an empty list the client looks up the key `undefined`. The model treats that lookup as failing, which is also what happens unless a file is literally indexed under that name.
- `Playback.ApplyFilters`: a 401 answer to the filtered request decodes to an error object, which the client would store as its list. The model takes every response that decodes as a list of paths, and a failure otherwise.
- `Playback.DisplayCurrentMedia`: a 401 answer to the listing request is treated as a listing in which the current item has no entry, which is how the client behaves.
- Only `loadFilters` reloads the page on a 401. `fetchWithAuth` is never called, so the other requests treat a 401 body as described above.
- `Playback.SetupAutoplay`: requires that the handle it sets is not already live. The source would overwrite that handle and leave the earlier interval or listener running. The `Valid` invariant, together with the cleanup before every display and the stopped-state guard of `startPlayback`, shows this case never arises, so no handle is ever leaked.
