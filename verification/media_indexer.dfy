/**
 The viewer client object. Its fields are updated in place by its handlers,
 each proved to leave the fields as the matching `Playback` function says
 and to keep the `Playback.Valid` invariant. Requests the handlers make are
 replaced by their outcome, passed in as parameters.
 */
module Indexer {
  import opened Wrappers
  import opened Catalogue
  import opened JsSort
  import opened Facets
  import Playback

  /** The outcome of `fetch('/api/media')` as `loadFilters` sees it. */
  datatype Fetched<T> = Loaded(body: T) | Unauthorized401 | Failed

  class MediaIndexer {
    var mediaList: seq<string>
    var currentIndex: int
    var currentMedia: Option<string>
    var surface: Playback.Surface
    var isPlaying: bool
    var autoplayTimer: bool
    var videoEndedListener: bool

    /** The four multi-select filter controls. */
    var ratingFilter: seq<SelectOption>
    var nicknameFilter: seq<SelectOption>
    var categoryFilter: seq<SelectOption>
    var typeFilter: seq<SelectOption>

    /** Set once a 401 has asked the page to reload. */
    var reloadRequested: bool

    /** The playback fields as one value. */
    function Model(): Playback.State
      reads this
    {
      Playback.State(mediaList, currentIndex, currentMedia, surface, isPlaying, autoplayTimer, videoEndedListener)
    }

    predicate Valid()
      reads this
    {
      Playback.Valid(Model())
    }

    /**
     The object as `initializeApp` leaves it once the page's filter controls
     are in place: an empty list, the cursor at 0, nothing shown, playback off.
     */
    constructor (rating: seq<SelectOption>, nickname: seq<SelectOption>, category: seq<SelectOption>, kind: seq<SelectOption>)
      ensures Model() == Playback.Initial && Valid()
      ensures ratingFilter == rating && nicknameFilter == nickname && categoryFilter == category && typeFilter == kind
      ensures !reloadRequested
    {
      mediaList := [];
      currentIndex := 0;
      currentMedia := None;
      surface := Playback.NoSurface;
      isPlaying := false;
      autoplayTimer := false;
      videoEndedListener := false;
      ratingFilter := rating;
      nicknameFilter := nickname;
      categoryFilter := category;
      typeFilter := kind;
      reloadRequested := false;
    }

    /** The query parameters `applyFilters` sends: the selected values of each control. */
    function CurrentQuery(): (q: Query)
      reads this
      ensures forall v :: v in q.ratings <==> Selects(ratingFilter, v)
      ensures forall v :: v in q.nicknames <==> Selects(nicknameFilter, v)
      ensures forall v :: v in q.categories <==> Selects(categoryFilter, v)
      ensures forall v :: v in q.types <==> Selects(typeFilter, v)
    {
      Query(SelectedValues(ratingFilter), SelectedValues(nicknameFilter), SelectedValues(categoryFilter), SelectedValues(typeFilter))
    }

    method CleanUpAutoplay()
      modifies this`autoplayTimer, this`videoEndedListener
      ensures Model() == Playback.CleanUpAutoplay(old(Model()))
    {
      if autoplayTimer {
        autoplayTimer := false;
      }
      if videoEndedListener {
        videoEndedListener := false;
      }
    }

    method SetupAutoplay(kind: string)
      requires kind == "image" ==> !autoplayTimer
      requires kind == "video" && surface == Playback.VideoSurface ==> !videoEndedListener
      modifies this`autoplayTimer, this`videoEndedListener
      ensures Model() == Playback.SetupAutoplay(old(Model()), kind)
    {
      if kind == "image" {
        autoplayTimer := true;
      } else if kind == "video" {
        if surface == Playback.VideoSurface {
          videoEndedListener := true;
        }
      }
    }

    /** `listing` is what `fetch('/api/media')` yields, `None` when it or its decoding fails. */
    method DisplayCurrentMedia(listing: Option<Index>)
      requires Playback.CursorInRange(Model())
      modifies this`currentMedia, this`surface, this`autoplayTimer, this`videoEndedListener
      ensures Model() == Playback.DisplayCurrentMedia(old(Model()), listing)
      ensures Valid()
    {
      CleanUpAutoplay();
      if |mediaList| == 0 {
        surface := Playback.NoSurface;
        return;
      }
      var currentPath := mediaList[currentIndex];
      currentMedia := Some(currentPath);
      if listing.None? {
        return;
      }
      var allMedia := listing.value;
      surface := Playback.NoSurface;
      if currentPath !in allMedia {
        return;
      }
      var mediaInfo := allMedia[currentPath];
      if mediaInfo.mediaType == "image" {
        surface := Playback.ImageSurface;
      } else if mediaInfo.mediaType == "video" {
        surface := Playback.VideoSurface;
      }
      if isPlaying {
        SetupAutoplay(mediaInfo.mediaType);
      }
    }

    method PrevMedia(listing: Option<Index>)
      requires Valid()
      modifies this`currentIndex, this`currentMedia, this`surface, this`autoplayTimer, this`videoEndedListener
      ensures Model() == Playback.PrevMedia(old(Model()), listing)
      ensures Valid()
    {
      if currentIndex > 0 {
        currentIndex := currentIndex - 1;
        DisplayCurrentMedia(listing);
      }
    }

    method NextMedia(listing: Option<Index>)
      requires Valid()
      modifies this`currentIndex, this`currentMedia, this`surface, this`autoplayTimer, this`videoEndedListener
      ensures Model() == Playback.NextMedia(old(Model()), listing)
      ensures Valid()
    {
      if currentIndex < |mediaList| - 1 {
        currentIndex := currentIndex + 1;
        DisplayCurrentMedia(listing);
      }
    }

    /**
     `serve` answers the filter request for the query built from the
     controls, `None` when the request or its decoding fails.
     */
    method ApplyFilters(serve: Query -> Option<seq<string>>, listing: Option<Index>)
      requires Valid()
      modifies this`mediaList, this`currentIndex, this`currentMedia, this`surface, this`autoplayTimer, this`videoEndedListener
      ensures Model() == Playback.ApplyFilters(old(Model()), serve(CurrentQuery()), listing)
      ensures Valid()
    {
      var response := serve(CurrentQuery());
      if response.Some? {
        mediaList := response.value;
        currentIndex := 0;
        DisplayCurrentMedia(listing);
      }
    }

    method StartPlayback(listing: Option<Index>)
      requires Valid()
      modifies this`isPlaying, this`autoplayTimer, this`videoEndedListener
      ensures Model() == Playback.StartPlayback(old(Model()), listing)
      ensures Valid()
    {
      if isPlaying {
        return;
      }
      isPlaying := true;
      // On an empty list there is no current path, and the lookup fails.
      if |mediaList| == 0 || listing.None? {
        return;
      }
      var currentPath := mediaList[currentIndex];
      if currentPath !in listing.value {
        return;
      }
      SetupAutoplay(listing.value[currentPath].mediaType);
    }

    method StopPlayback()
      requires Valid()
      modifies this`isPlaying, this`autoplayTimer, this`videoEndedListener
      ensures Model() == Playback.StopPlayback(old(Model()))
      ensures Valid()
    {
      if !isPlaying {
        return;
      }
      isPlaying := false;
      CleanUpAutoplay();
    }

    method TogglePlayback(listing: Option<Index>)
      requires Valid()
      modifies this`isPlaying, this`autoplayTimer, this`videoEndedListener
      ensures Model() == Playback.TogglePlayback(old(Model()), listing)
      ensures Valid()
    {
      if isPlaying {
        StopPlayback();
      } else {
        StartPlayback(listing);
      }
    }

    /** The interval's callback: while the timer is set, each tick calls `nextMedia`. */
    method TimerFires(listing: Option<Index>)
      requires Valid()
      modifies this`currentIndex, this`currentMedia, this`surface, this`autoplayTimer, this`videoEndedListener
      ensures Model() == Playback.Step(old(Model()), Playback.TimerTick(listing))
      ensures Valid()
    {
      if autoplayTimer {
        NextMedia(listing);
      }
    }

    /** The `ended` listener: while it is attached, the video's end calls `nextMedia`. */
    method VideoEnds(listing: Option<Index>)
      requires Valid()
      modifies this`currentIndex, this`currentMedia, this`surface, this`autoplayTimer, this`videoEndedListener
      ensures Model() == Playback.Step(old(Model()), Playback.VideoEnded(listing))
      ensures Valid()
    {
      if videoEndedListener {
        NextMedia(listing);
      }
    }

    /**
     `loadFilters`: on a 401 the page is reloaded and nothing else happens;
     when the request fails nothing happens; otherwise the nickname and
     category controls are refilled with the sorted distinct non-empty
     values of the catalogue, keeping the selections that still exist, and
     the filters are applied.
     */
    method LoadFilters(catalogue: Fetched<Index>, serve: Query -> Option<seq<string>>, listing: Option<Index>)
      requires Valid()
      modifies this
      ensures Valid()
      ensures ratingFilter == old(ratingFilter) && typeFilter == old(typeFilter)
      ensures !catalogue.Loaded? ==> Model() == old(Model()) && nicknameFilter == old(nicknameFilter) && categoryFilter == old(categoryFilter)
      ensures reloadRequested == (old(reloadRequested) || catalogue.Unauthorized401?)
      ensures catalogue.Loaded? ==> Model() == Playback.ApplyFilters(old(Model()), serve(CurrentQuery()), listing)
      ensures catalogue.Loaded? ==>
        && StrictlySorted(Values(nicknameFilter))
        && (forall v :: v in Values(nicknameFilter) <==> v != "" && exists k :: k in catalogue.body && catalogue.body[k].nickname == v)
        && (forall v :: Selects(nicknameFilter, v) <==> v in Values(nicknameFilter) && Selects(old(nicknameFilter), v))
      ensures catalogue.Loaded? ==>
        && StrictlySorted(Values(categoryFilter))
        && (forall v :: v in Values(categoryFilter) <==> v != "" && exists k :: k in catalogue.body && catalogue.body[k].category == v)
        && (forall v :: Selects(categoryFilter, v) <==> v in Values(categoryFilter) && Selects(old(categoryFilter), v))
    {
      match catalogue
      case Unauthorized401 =>
        reloadRequested := true;
      case Failed =>
      case Loaded(data) =>
        var nicknames, categories := CollectFacets(data);
        var options := PopulateSelect(nicknameFilter, nicknames);
        PopulatedSelection(nicknameFilter, nicknames, options);
        assert Values(options) == nicknames;
        nicknameFilter := options;
        options := PopulateSelect(categoryFilter, categories);
        PopulatedSelection(categoryFilter, categories, options);
        assert Values(options) == categories;
        categoryFilter := options;
        ApplyFilters(serve, listing);
    }

  }

}
