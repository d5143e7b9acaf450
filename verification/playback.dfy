/**
 The navigation and autoplay state machine of the viewer client, as
 functions on a value of its state. Every handler runs to completion in one
 step; what a handler learns from the server (the catalogue listing, the
 filtered list) is a parameter, `None` when the request or its decoding
 failed. The `Indexer` module's class is proved to follow these functions.
 */
module Playback {
  import opened Wrappers
  import opened Catalogue
  import opened Lists

  /** What the media container currently shows, reduced to the kind of element mounted in it. */
  datatype Surface = NoSurface | ImageSurface | VideoSurface

  /**
   The fields of the client that the handlers read and write. The two
   schedule handles are reduced to whether they are set: `autoplayTimer` is
   the interval that advances past an image, `videoEndedListener` the
   `ended` listener on the mounted video.
   */
  datatype State = State(
    mediaList: seq<string>,
    currentIndex: int,
    currentMedia: Option<string>,
    surface: Surface,
    isPlaying: bool,
    autoplayTimer: bool,
    videoEndedListener: bool)

  /** The state `initializeApp` sets up before any filter response has arrived. */
  const Initial: State := State([], 0, None, NoSurface, false, false, false)

  /** The cursor is 0 on an empty list and a position of the list otherwise. */
  predicate CursorInRange(s: State)
  {
    if |s.mediaList| == 0 then s.currentIndex == 0 else 0 <= s.currentIndex < |s.mediaList|
  }

  /** Some autoplay schedule is live. */
  predicate Armed(s: State)
  {
    s.autoplayTimer || s.videoEndedListener
  }

  /**
   The invariant every handler keeps: the cursor is in range, at most one
   schedule is live, none is live while playback is stopped, and a video
   listener exists only while a video is mounted.
   */
  predicate Valid(s: State)
  {
    && CursorInRange(s)
    && !(s.autoplayTimer && s.videoEndedListener)
    && (!s.isPlaying ==> !Armed(s))
    && (s.videoEndedListener ==> s.surface == VideoSurface)
  }

  lemma InitialValid()
    ensures Valid(Initial) && !Armed(Initial) && !Initial.isPlaying
  {
  }

  /** `cleanUpAutoplay`: clear the interval and detach the listener, whichever is set. */
  function CleanUpAutoplay(s: State): (r: State)
    ensures !Armed(r)
    ensures r.(autoplayTimer := s.autoplayTimer, videoEndedListener := s.videoEndedListener) == s
    ensures CursorInRange(s) ==> Valid(r)
  {
    s.(autoplayTimer := false, videoEndedListener := false)
  }

  /** Cleaning up twice is cleaning up once; on a state with nothing armed it changes nothing. */
  lemma CleanUpIdempotent(s: State)
    ensures CleanUpAutoplay(CleanUpAutoplay(s)) == CleanUpAutoplay(s)
    ensures !Armed(s) ==> CleanUpAutoplay(s) == s
  {
  }

  /**
   `setupAutoplay(type)`: an image arms the interval, a video arms the
   `ended` listener when a video element is mounted, any other type arms
   nothing. Nothing else changes. The handle it sets must not be live
   already: the source would overwrite it and leave the old schedule running.
   */
  function SetupAutoplay(s: State, kind: string): (r: State)
    requires kind == "image" ==> !s.autoplayTimer
    requires kind == "video" && s.surface == VideoSurface ==> !s.videoEndedListener
    ensures r.autoplayTimer <==> s.autoplayTimer || kind == "image"
    ensures r.videoEndedListener <==> s.videoEndedListener || (kind == "video" && s.surface == VideoSurface)
    ensures r.(autoplayTimer := s.autoplayTimer, videoEndedListener := s.videoEndedListener) == s
  {
    if kind == "image" then s.(autoplayTimer := true)
    else if kind == "video" && s.surface == VideoSurface then s.(videoEndedListener := true)
    else s
  }

  /** Arming from a quiet, playing state arms at most one schedule and keeps the invariant. */
  lemma SetupArmsOne(s: State, kind: string)
    requires Valid(s) && s.isPlaying && !Armed(s)
    ensures Valid(SetupAutoplay(s, kind))
    ensures Armed(SetupAutoplay(s, kind)) <==> kind == "image" || (kind == "video" && s.surface == VideoSurface)
  {
  }

  /** The element `displayCurrentMedia` mounts for an entry of the given type. */
  function SurfaceFor(kind: string): Surface
  {
    if kind == "image" then ImageSurface else if kind == "video" then VideoSurface else NoSurface
  }

  /** The type recorded in the listing for the item under the cursor, when there is one. */
  function CurrentKind(s: State, listing: Option<Index>): Option<string>
    requires CursorInRange(s)
  {
    if |s.mediaList| == 0 || listing.None? || s.mediaList[s.currentIndex] !in listing.value then None
    else Some(listing.value[s.mediaList[s.currentIndex]].mediaType)
  }

  /**
   `displayCurrentMedia`: tear down any schedule, then show the item under
   the cursor. On an empty list the container shows the empty-state text.
   Otherwise the item becomes `currentMedia`; if the listing could not be
   fetched the container is left as it was; if the item has no entry the
   container is emptied before the lookup fails; otherwise the element for
   its type is mounted and, while playing, autoplay is armed for that type.
   */
  function DisplayCurrentMedia(s: State, listing: Option<Index>): (r: State)
    requires CursorInRange(s)
    ensures r.mediaList == s.mediaList && r.currentIndex == s.currentIndex && r.isPlaying == s.isPlaying
    ensures Valid(r)
    ensures r.autoplayTimer <==> s.isPlaying && CurrentKind(s, listing) == Some("image")
    ensures r.videoEndedListener <==> s.isPlaying && CurrentKind(s, listing) == Some("video")
    ensures |s.mediaList| == 0 ==> r.surface == NoSurface && r.currentMedia == s.currentMedia
    ensures |s.mediaList| > 0 ==> r.currentMedia == Some(s.mediaList[s.currentIndex])
    ensures |s.mediaList| > 0 && listing.Some? ==>
      r.surface == (if CurrentKind(s, listing).Some? then SurfaceFor(CurrentKind(s, listing).value) else NoSurface)
    ensures |s.mediaList| > 0 && listing.None? ==> r.surface == s.surface
  {
    var c := CleanUpAutoplay(s);
    if |c.mediaList| == 0 then c.(surface := NoSurface)
    else
      var path := c.mediaList[c.currentIndex];
      var d := c.(currentMedia := Some(path));
      match listing
      case None => d
      case Some(all) =>
        if path !in all then d.(surface := NoSurface)
        else
          var kind := all[path].mediaType;
          var shown := d.(surface := SurfaceFor(kind));
          if shown.isPlaying then SetupAutoplay(shown, kind) else shown
  }

  /** Whatever was armed before makes no difference: the display always starts from a clean slate. */
  lemma DisplayTearsDownFirst(s: State, listing: Option<Index>)
    requires CursorInRange(s)
    ensures DisplayCurrentMedia(s, listing) == DisplayCurrentMedia(CleanUpAutoplay(s), listing)
  {
  }

  /**
   With a listing in hand and a non-empty list, what is displayed depends
   only on the list, the cursor and whether playback is on.
   */
  lemma DisplayDependsOnCursor(s: State, t: State, all: Index)
    requires CursorInRange(s) && |s.mediaList| > 0
    requires t.mediaList == s.mediaList && t.currentIndex == s.currentIndex && t.isPlaying == s.isPlaying
    ensures DisplayCurrentMedia(s, Some(all)) == DisplayCurrentMedia(t, Some(all))
  {
    var r, r' := DisplayCurrentMedia(s, Some(all)), DisplayCurrentMedia(t, Some(all));
    assert CurrentKind(s, Some(all)) == CurrentKind(t, Some(all));
    assert r.surface == r'.surface && r.currentMedia == r'.currentMedia;
  }

  /** `prevMedia`: step back one item and display it; at the first item nothing happens. */
  function PrevMedia(s: State, listing: Option<Index>): (r: State)
    requires CursorInRange(s)
    ensures r.mediaList == s.mediaList && r.isPlaying == s.isPlaying
    ensures s.currentIndex > 0 ==> r.currentIndex == s.currentIndex - 1
    ensures s.currentIndex <= 0 ==> r == s
    ensures Valid(s) ==> Valid(r)
  {
    if s.currentIndex > 0 then DisplayCurrentMedia(s.(currentIndex := s.currentIndex - 1), listing) else s
  }

  /** `nextMedia`: step forward one item and display it; at the last item nothing happens. */
  function NextMedia(s: State, listing: Option<Index>): (r: State)
    requires CursorInRange(s)
    ensures r.mediaList == s.mediaList && r.isPlaying == s.isPlaying
    ensures s.currentIndex < |s.mediaList| - 1 ==> r.currentIndex == s.currentIndex + 1
    ensures s.currentIndex >= |s.mediaList| - 1 ==> r == s
    ensures Valid(s) ==> Valid(r)
  {
    if s.currentIndex < |s.mediaList| - 1 then DisplayCurrentMedia(s.(currentIndex := s.currentIndex + 1), listing) else s
  }

  /** Stepping forward and back lands on the item started from, shown afresh. */
  lemma NextThenPrev(s: State, l: Option<Index>, all: Index)
    requires Valid(s) && s.currentIndex < |s.mediaList| - 1
    ensures PrevMedia(NextMedia(s, l), Some(all)) == DisplayCurrentMedia(s, Some(all))
  {
    var t := NextMedia(s, l);
    DisplayDependsOnCursor(s, t.(currentIndex := s.currentIndex), all);
  }

  /** Stepping back and forward lands on the item started from, shown afresh. */
  lemma PrevThenNext(s: State, l: Option<Index>, all: Index)
    requires Valid(s) && s.currentIndex > 0
    ensures NextMedia(PrevMedia(s, l), Some(all)) == DisplayCurrentMedia(s, Some(all))
  {
    var t := PrevMedia(s, l);
    DisplayDependsOnCursor(s, t.(currentIndex := s.currentIndex), all);
  }

  /**
   `applyFilters`: on a response the list is replaced wholesale, the cursor
   goes back to the first item and the display is refreshed; when the
   request fails nothing changes.
   */
  function ApplyFilters(s: State, response: Option<seq<string>>, listing: Option<Index>): (r: State)
    ensures response.None? ==> r == s
    ensures response.Some? ==> r.mediaList == response.value && r.currentIndex == 0 && r.isPlaying == s.isPlaying && Valid(r)
    ensures response == Some([]) ==> r.surface == NoSurface && !Armed(r)
  {
    match response
    case None => s
    case Some(list) => DisplayCurrentMedia(s.(mediaList := list, currentIndex := 0), listing)
  }

  /** The list the server returns for query `q` over catalogue `index`: each matching key once. */
  ghost predicate AnswersQuery(index: Index, q: Query, list: seq<string>)
  {
    Distinct(list) && forall k :: k in list <==> k in MatchingKeys(index, q)
  }

  /**
   Applying a filter whose answer comes from the same catalogue the display
   consults: the new list holds only matching items, and when it is not
   empty the first of them is the current one and is mounted by its type.
   */
  lemma FilteredDisplay(s: State, index: Index, q: Query, list: seq<string>)
    requires AnswersQuery(index, q, list)
    ensures var r := ApplyFilters(s, Some(list), Some(index));
      && (forall k :: k in r.mediaList ==> k in index && Matches(index[k], q))
      && (list != [] ==> r.currentMedia == Some(list[0]) && r.surface == SurfaceFor(index[list[0]].mediaType))
  {
    if list != [] {
      assert list[0] in MatchingKeys(index, q);
    }
  }

  /**
   `startPlayback`: nothing when already playing; otherwise playback is on
   and autoplay is armed for the type the listing gives the current item
   (nothing when the list is empty, the item has no entry or the listing
   could not be fetched).
   */
  function StartPlayback(s: State, listing: Option<Index>): (r: State)
    requires CursorInRange(s) && (!s.isPlaying ==> !Armed(s))
    ensures r.isPlaying
    ensures s.isPlaying ==> r == s
    ensures !s.isPlaying ==> r == SetupAutoplay(s.(isPlaying := true), if CurrentKind(s, listing).Some? then CurrentKind(s, listing).value else "")
    ensures Valid(s) ==> Valid(r)
  {
    if s.isPlaying then s
    else
      var p := s.(isPlaying := true);
      if |p.mediaList| == 0 || listing.None? then p
      else
        var path := p.mediaList[p.currentIndex];
        if path !in listing.value then p else SetupAutoplay(p, listing.value[path].mediaType)
  }

  /** `stopPlayback`: nothing when already stopped; otherwise playback is off and every schedule is torn down. */
  function StopPlayback(s: State): (r: State)
    ensures !r.isPlaying && (s.isPlaying ==> !Armed(r))
    ensures !s.isPlaying ==> r == s
    ensures r.mediaList == s.mediaList && r.currentIndex == s.currentIndex && r.surface == s.surface && r.currentMedia == s.currentMedia
    ensures Valid(s) ==> Valid(r) && !Armed(r)
  {
    if !s.isPlaying then s else CleanUpAutoplay(s.(isPlaying := false))
  }

  /** `togglePlayback`: flip between playing and stopped. */
  function TogglePlayback(s: State, listing: Option<Index>): (r: State)
    requires CursorInRange(s) && (!s.isPlaying ==> !Armed(s))
    ensures r.isPlaying == !s.isPlaying
    ensures Valid(s) ==> Valid(r)
  {
    if s.isPlaying then StopPlayback(s) else StartPlayback(s, listing)
  }

  /** Starting twice is starting once, and stopping twice is stopping once. */
  lemma StartStopIdempotent(s: State, l1: Option<Index>, l2: Option<Index>)
    requires CursorInRange(s) && (!s.isPlaying ==> !Armed(s))
    ensures StartPlayback(StartPlayback(s, l1), l2) == StartPlayback(s, l1)
    ensures StopPlayback(StopPlayback(s)) == StopPlayback(s)
  {
  }

  /** From a stopped state, toggling on and off again returns to exactly that state. */
  lemma ToggleTwiceWhenStopped(s: State, l1: Option<Index>, l2: Option<Index>)
    requires Valid(s) && !s.isPlaying
    ensures TogglePlayback(TogglePlayback(s, l1), l2) == s
  {
  }

  /** What can happen to the client: a button, key or filter change, or one of the autoplay triggers firing. */
  datatype Event =
    | PrevPressed(listing: Option<Index>)
    | NextPressed(listing: Option<Index>)
    | PlayPressed(listing: Option<Index>)
    | FilterChanged(response: Option<seq<string>>, listing: Option<Index>)
    | TimerTick(listing: Option<Index>)
    | VideoEnded(listing: Option<Index>)

  /** The events autoplay produces by itself. */
  predicate IsAutoplay(e: Event)
  {
    e.TimerTick? || e.VideoEnded?
  }

  /**
   One event. A tick of the interval or the end of the video calls
   `nextMedia` only when that schedule is live; both perform the same step.
   */
  function Step(s: State, e: Event): (r: State)
    requires Valid(s)
    ensures Valid(r)
    ensures e.TimerTick? ==> r == (if s.autoplayTimer then NextMedia(s, e.listing) else s)
    ensures e.VideoEnded? ==> r == (if s.videoEndedListener then NextMedia(s, e.listing) else s)
  {
    match e
    case PrevPressed(l) => PrevMedia(s, l)
    case NextPressed(l) => NextMedia(s, l)
    case PlayPressed(l) => TogglePlayback(s, l)
    case FilterChanged(response, l) => ApplyFilters(s, response, l)
    case TimerTick(l) => if s.autoplayTimer then NextMedia(s, l) else s
    case VideoEnded(l) => if s.videoEndedListener then NextMedia(s, l) else s
  }

  /** A sequence of events, handled one after another. */
  function Run(s: State, es: seq<Event>): (r: State)
    requires Valid(s)
    ensures Valid(r)
    decreases |es|
  {
    if es == [] then s else Run(Step(s, es[0]), es[1..])
  }

  /** While playback is stopped, nothing autoplay produces has any effect. */
  lemma {:induction false} NoAdvanceWhileStopped(s: State, es: seq<Event>)
    requires Valid(s) && !s.isPlaying
    requires forall i :: 0 <= i < |es| ==> IsAutoplay(es[i])
    ensures Run(s, es) == s
    decreases |es|
  {
    if es != [] {
      NoAdvanceWhileStopped(s, es[1..]);
    }
  }

  /** After `stopPlayback`, the interval and the video's end no longer move anything. */
  lemma StopSilencesAutoplay(s: State, es: seq<Event>)
    requires Valid(s)
    requires forall i :: 0 <= i < |es| ==> IsAutoplay(es[i])
    ensures Run(StopPlayback(s), es) == StopPlayback(s)
  {
    NoAdvanceWhileStopped(StopPlayback(s), es);
  }

  /**
   Autoplay only ever moves forward through the same list, one item per
   trigger at most, and never past the last item.
   */
  lemma {:induction false} AutoplayMovesForward(s: State, es: seq<Event>)
    requires Valid(s)
    requires forall i :: 0 <= i < |es| ==> IsAutoplay(es[i])
    ensures Run(s, es).mediaList == s.mediaList && Run(s, es).isPlaying == s.isPlaying
    ensures s.currentIndex <= Run(s, es).currentIndex <= s.currentIndex + |es|
    decreases |es|
  {
    if es != [] {
      AutoplayMovesForward(Step(s, es[0]), es[1..]);
    }
  }

  /** At the last item (or on an empty list) autoplay keeps firing but nothing changes any more. */
  lemma {:induction false} AutoplayStopsAtEnd(s: State, es: seq<Event>)
    requires Valid(s) && s.currentIndex >= |s.mediaList| - 1
    requires forall i :: 0 <= i < |es| ==> IsAutoplay(es[i])
    ensures Run(s, es) == s
    decreases |es|
  {
    if es != [] {
      AutoplayStopsAtEnd(s, es[1..]);
    }
  }

}
