/**
 The catalogue server's data and request logic: the media index entries,
 the classification of files by extension, the conjunctive multi-facet
 filter behind `GET /api/media/filtered`, and the session gate that every
 media route sits behind.
 */
module Catalogue {
  import opened PythonText
  import opened Lists

  const IMAGE_EXTENSIONS: set<string> := {".png", ".jpg", ".jpeg", ".gif", ".bmp", ".tiff"}
  const VIDEO_EXTENSIONS: set<string> := {".mp4", ".avi", ".mov", ".mkv", ".flv", ".wmv", ".mpeg"}

  /** The password the server is configured with. */
  const YOUR_PASSWORD: string := "12345"

  /** One value of the index: the record stored under a file's relative path. */
  datatype Entry = Entry(fileName: string, rating: int, nickname: string, category: string, mediaType: string)

  /** The whole index, keyed by relative file path. */
  type Index = map<string, Entry>

  /** The lower-cased extension of a file name, as the indexer compares it. */
  function MediaExtension(file: string): string
  {
    Lower(Extension(file))
  }

  /** A file the indexer keeps: its lower-cased extension is an image or a video extension. */
  predicate IsMedia(file: string)
  {
    MediaExtension(file) in IMAGE_EXTENSIONS || MediaExtension(file) in VIDEO_EXTENSIONS
  }

  /** The `type` recorded for a new entry. */
  function KindOf(file: string): string
  {
    if MediaExtension(file) in IMAGE_EXTENSIONS then "image" else "video"
  }

  /**
   A media file is classified as an image exactly when its extension is an
   image extension, and as a video exactly when it is a video extension: the
   two extension sets are disjoint.
   */
  lemma KindOfMedia(file: string)
    requires IsMedia(file)
    ensures KindOf(file) == "image" <==> MediaExtension(file) in IMAGE_EXTENSIONS
    ensures KindOf(file) == "video" <==> MediaExtension(file) in VIDEO_EXTENSIONS
  {
    assert IMAGE_EXTENSIONS * VIDEO_EXTENSIONS == {};
  }

  /** The four facets of a filter request, each the list of values given for that query parameter. */
  datatype Query = Query(ratings: seq<string>, nicknames: seq<string>, categories: seq<string>, types: seq<string>)

  /** One facet: an empty selection restricts nothing, otherwise the value must be among those selected. */
  predicate FacetMatch(selected: seq<string>, value: string)
  {
    selected == [] || value in selected
  }

  /** The conjunctive filter; the rating is compared through its decimal string. */
  predicate Matches(e: Entry, q: Query)
  {
    && FacetMatch(q.ratings, Str(e.rating))
    && FacetMatch(q.nicknames, e.nickname)
    && FacetMatch(q.categories, e.category)
    && FacetMatch(q.types, e.mediaType)
  }

  /** The keys whose entries pass the filter. */
  function MatchingKeys(index: Index, q: Query): set<string>
  {
    set k | k in index && Matches(index[k], q)
  }

  /** A request with no facet selected matches every entry. */
  lemma EmptyQueryMatchesAll(e: Entry)
    ensures Matches(e, Query([], [], [], []))
  {
  }

  /**
   Selecting the single rating string `Str(n)` (and nothing else) picks out
   exactly the entries rated `n`: because `str` is injective, comparing
   ratings as strings loses nothing for integer ratings.
   */
  lemma SingleRatingSelectsExactly(e: Entry, n: int)
    ensures Matches(e, Query([Str(n)], [], [], [])) <==> e.rating == n
  {
    if Matches(e, Query([Str(n)], [], [], [])) {
      StrInjective(e.rating, n);
    }
  }

  /** A duplicate-free list of exactly the matching keys is as long as there are matching keys. */
  lemma ListsMatchingKeys(index: Index, q: Query, r: seq<string>)
    requires forall i :: 0 <= i < |r| ==> r[i] in index && Matches(index[r[i]], q)
    requires forall k :: k in index && Matches(index[k], q) ==> k in r
    requires Distinct(r)
    ensures |r| == |MatchingKeys(index, q)| <= |index|
  {
    var keys := MatchingKeys(index, q);
    DistinctListLength(r, keys);
    SubsetCardinality(keys, index.Keys);
  }

  /**
   The body of `get_filtered_media`: every key of the index whose entry
   passes the filter, each exactly once. The order in which the loop visits
   the keys is left open, which stands for both the dictionary's order and
   the shuffle applied afterwards: the result is some permutation of the
   matching keys.
   */
  method FilteredMedia(index: Index, q: Query) returns (r: seq<string>)
    ensures forall i :: 0 <= i < |r| ==> r[i] in index && Matches(index[r[i]], q)
    ensures forall k :: k in index && Matches(index[k], q) ==> k in r
    ensures Distinct(r)
    ensures |r| == |MatchingKeys(index, q)| <= |index|
  {
    r := [];
    var rest := index.Keys;
    while rest != {}
      invariant rest <= index.Keys
      invariant forall i :: 0 <= i < |r| ==> r[i] in index && Matches(index[r[i]], q) && r[i] !in rest
      invariant forall k :: k in index && k !in rest && Matches(index[k], q) ==> k in r
      invariant Distinct(r)
      decreases rest
    {
      var k :| k in rest;
      if Matches(index[k], q) {
        r := r + [k];
      }
      rest := rest - {k};
    }
    ListsMatchingKeys(index, q, r);
  }

  /** The server-side session: only the `authenticated` flag is ever stored. */
  type Session = map<string, bool>

  /** `session.get('authenticated')` is truthy. */
  predicate Authenticated(s: Session)
  {
    "authenticated" in s && s["authenticated"]
  }

  /** A route's answer: the handler's value, or the 401 error. */
  datatype Response<T> = Served(value: T) | Unauthorized

  /** The `require_auth` decorator: run the wrapped handler only for an authenticated session. */
  function RequireAuth<T>(s: Session, handler: () -> T): (r: Response<T>)
    ensures r.Served? <==> Authenticated(s)
    ensures r.Served? ==> r.value == handler()
  {
    if !Authenticated(s) then Unauthorized else Served(handler())
  }

  /**
   `POST /api/auth`: the password is accepted when its digest equals the
   digest of the configured password; `digest` stands for the hex SHA-256.
   On success the session is marked authenticated; otherwise it is untouched.
   */
  function Authenticate(s: Session, password: string, digest: string -> string): (r: (Session, bool))
    ensures r.1 <==> digest(password) == digest(YOUR_PASSWORD)
    ensures r.1 ==> Authenticated(r.0) && r.0 == s["authenticated" := true]
    ensures !r.1 ==> r.0 == s
  {
    if digest(password) == digest(YOUR_PASSWORD) then (s["authenticated" := true], true) else (s, false)
  }

  /** A fresh session is turned away; after a successful login every gated route runs its handler. */
  lemma GateFollowsLogin<T>(s: Session, password: string, digest: string -> string, handler: () -> T)
    ensures RequireAuth(map[], handler) == Unauthorized
    ensures Authenticate(s, password, digest).1 ==> RequireAuth(Authenticate(s, password, digest).0, handler) == Served(handler())
  {
  }

  /** With a collision-free digest, exactly the configured password is accepted. */
  lemma AcceptsOnlyThePassword(s: Session, password: string, digest: string -> string)
    requires forall x, y :: digest(x) == digest(y) ==> x == y
    ensures Authenticate(s, password, digest).1 <==> password == YOUR_PASSWORD
  {
  }

  /** `GET /api/media/filtered` behind the session gate. */
  method GetFilteredMedia(s: Session, index: Index, q: Query) returns (r: Response<seq<string>>)
    ensures r.Unauthorized? <==> !Authenticated(s)
    ensures r.Served? ==> Distinct(r.value) && |r.value| == |MatchingKeys(index, q)|
    ensures r.Served? ==> forall k :: k in r.value <==> k in MatchingKeys(index, q)
  {
    if !Authenticated(s) {
      return Unauthorized;
    }
    var list := FilteredMedia(index, q);
    return Served(list);
  }

  /** `GET /api/media` behind the session gate: the whole index. */
  function GetMediaList(s: Session, index: Index): (r: Response<Index>)
    ensures r == if Authenticated(s) then Served(index) else Unauthorized
  {
    RequireAuth(s, () => index)
  }

}
