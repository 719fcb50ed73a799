/**
  What Plex answers over time, what the stream handler's lookups read of it, and how old
  those reads may be. `at` is the instant of an answer and `extra` the time by which the
  answer may have been kept: kept metadata is read less than its lifetime before that.
 */
module PlexReads {
  import opened Wrappers
  import opened PyText
  import opened PlexIds

  // ---- Plex ----

  datatype Kind = Movie | Series

  datatype Media = Media(guid: string, key: string, ratingKey: string, kind: string, body: string)
  datatype Episode = Episode(guid: string, ratingKey: string, season: nat, number: nat)

  /** What Plex answers at one instant. */
  datatype Plex = Plex(
    library: string -> seq<Media>,
    metadata: string -> seq<Media>,
    leaves: string -> seq<Episode>,
    matcher: (string, Kind) -> Option<string>)

  function Wanted(items: seq<Media>): seq<Media> {
    if items == [] then []
    else (if items[0].kind in {"show", "movie", "episode"} then [items[0]] else []) + Wanted(items[1..])
  }

  function FetchRatingKey(p: Plex, ratingKey: string): seq<Media> {
    Wanted(p.metadata(ratingKey))
  }

  function FetchAll(p: Plex, sections: seq<Media>): seq<Media> {
    if sections == [] then [] else FetchRatingKey(p, sections[0].ratingKey) + FetchAll(p, sections[1..])
  }

  function FetchGuid(p: Plex, guid: string, onlyFirst: bool): seq<Media> {
    var sections := Wanted(p.library(guid));
    FetchAll(p, if onlyFirst && |sections| > 1 then sections[..1] else sections)
  }

  predicate WantedKind(item: Media) {
    item.kind == "show" || item.kind == "movie" || item.kind == "episode"
  }

  /** Items are kept by their own type alone, and in order. */
  lemma {:induction false} WantedParts(a: seq<Media>, b: seq<Media>)
    ensures Wanted(a + b) == Wanted(a) + Wanted(b)
    ensures forall item :: Wanted([item]) == if WantedKind(item) then [item] else []
  {
    forall item: Media ensures Wanted([item]) == if WantedKind(item) then [item] else [] {
      assert [item][1..] == [] && Wanted([]) == [];
    }
    if a == [] {
      assert a + b == b;
    } else {
      WantedParts(a[1..], b);
      assert (a + b)[0] == a[0] && (a + b)[1..] == a[1..] + b;
    }
  }

  /** The media of all sections one after the other, each section's read by its rating key. */
  lemma {:induction false} FetchAllParts(p: Plex, a: seq<Media>, b: seq<Media>)
    ensures FetchAll(p, a + b) == FetchAll(p, a) + FetchAll(p, b)
    ensures forall section :: FetchAll(p, [section]) == Wanted(p.metadata(section.ratingKey))
  {
    forall section: Media ensures FetchAll(p, [section]) == Wanted(p.metadata(section.ratingKey)) {
      assert [section][1..] == [] && FetchAll(p, []) == [];
    }
    if a == [] {
      assert a + b == b;
    } else {
      FetchAllParts(p, a[1..], b);
      assert (a + b)[0] == a[0] && (a + b)[1..] == a[1..] + b;
    }
  }

  /** A guid stands for what its wanted sections hold, or for what the first of them holds. */
  lemma FetchGuidParts(p: Plex, guid: string, skipped: seq<Media>, section: Media, rest: seq<Media>)
    requires p.library(guid) == skipped + [section] + rest
    requires WantedKind(section) && forall item :: item in skipped ==> !WantedKind(item)
    ensures FetchGuid(p, guid, true) == Wanted(p.metadata(section.ratingKey))
    ensures FetchGuid(p, guid, false) == Wanted(p.metadata(section.ratingKey)) + FetchAll(p, Wanted(rest))
  {
    NoneWanted(skipped);
    WantedParts(skipped, [section]);
    WantedParts(skipped + [section], rest);
    assert Wanted(p.library(guid)) == [section] + Wanted(rest);
    FetchAllParts(p, [section], Wanted(rest));
    assert ([section] + Wanted(rest))[..1] == [section];
  }

  /** And for nothing if there is none. */
  lemma NoSections(p: Plex, guid: string, onlyFirst: bool)
    requires forall item :: item in p.library(guid) ==> !WantedKind(item)
    ensures FetchGuid(p, guid, onlyFirst) == []
  {
    NoneWanted(p.library(guid));
  }

  lemma {:induction false} NoneWanted(items: seq<Media>)
    requires forall item :: item in items ==> !WantedKind(item)
    ensures Wanted(items) == []
  {
    if items != [] {
      assert items[0] in items;
      NoneWanted(items[1..]);
    }
  }

  // ---- configurations, time and the cache table ----

  datatype Config = Config(token: string, usesProxy: bool, payload: string)

  datatype Ttls = Ttls(metadata: nat, match_: nat, stream: nat)

  /**
    The outside: Plex over time for each configuration, the lifetimes, and how a response
    is printed, or not at all where a version lacks a field that its streams need.
   */
  datatype World = World(
    plex: (Config, real) -> Plex, ttl: Ttls, print_: (Config, seq<Media>, Option<string>) -> Option<string>)

  // ---- ages ----

  /** Something read at `r` and used at `at` is fresh, or was kept for less than `ttl`. */
  predicate Within(r: real, at: real, ttl: nat) {
    r <= at && (r == at || at < r + ttl as real)
  }

  lemma WithinTwice(r: real, m: real, at: real, first: nat, second: nat)
    requires Within(r, m, first) && Within(m, at, second)
    ensures Within(r, at, first + second)
  {}

  // ---- reads of the library ----

  predicate RatingKeyRead(w: World, c: Config, ratingKey: string, media: seq<Media>, r: real) {
    media == FetchRatingKey(w.plex(c, r), ratingKey)
  }

  predicate GuidRead(w: World, c: Config, guid: string, onlyFirst: bool, media: seq<Media>, r: real) {
    media == FetchGuid(w.plex(c, r), guid, onlyFirst)
  }

  predicate LeavesRead(w: World, c: Config, key: string, episodes: seq<Episode>, r: real) {
    episodes == w.plex(c, r).leaves(key)
  }

  predicate MatcherRead(w: World, c: Config, imdb: string, kind: Kind, found: Option<string>, r: real) {
    var guid := w.plex(c, r).matcher(imdb, kind);
    found == if guid.Some? && guid.value != "" then guid else None
  }

  ghost predicate SeenRatingKey(w: World, c: Config, ratingKey: string, media: seq<Media>, at: real, extra: nat) {
    exists r :: RatingKeyRead(w, c, ratingKey, media, r) && Within(r, at, extra + w.ttl.metadata)
  }

  ghost predicate SeenGuid(
    w: World, c: Config, guid: string, onlyFirst: bool, media: seq<Media>, at: real, extra: nat)
  {
    exists r :: GuidRead(w, c, guid, onlyFirst, media, r) && Within(r, at, extra + w.ttl.metadata)
  }

  ghost predicate SeenLeaves(w: World, c: Config, key: string, episodes: seq<Episode>, at: real, extra: nat) {
    exists r :: LeavesRead(w, c, key, episodes, r) && Within(r, at, extra + w.ttl.metadata)
  }

  // ---- matching an IMDb id ----

  /** The first episode of a season and number. */
  function FindEpisode(episodes: seq<Episode>, season: string, number: string): Option<Episode> {
    if episodes == [] then None
    else if Decimal(episodes[0].season) == season && Decimal(episodes[0].number) == number then Some(episodes[0])
    else FindEpisode(episodes[1..], season, number)
  }

  predicate HasNumbers(e: Episode, season: string, number: string) {
    Decimal(e.season) == season && Decimal(e.number) == number
  }

  /** The i-th episode has both numbers and none before it does. */
  ghost predicate FirstAt(episodes: seq<Episode>, season: string, number: string, i: nat) {
    i < |episodes| && HasNumbers(episodes[i], season, number)
    && forall j :: 0 <= j < i ==> !HasNumbers(episodes[j], season, number)
  }

  /** The first episode with both numbers is this one, or there is none. */
  ghost predicate Finds(episodes: seq<Episode>, season: string, number: string, found: Option<Episode>) {
    match found
    case Some(e) => exists i: nat :: FirstAt(episodes, season, number, i) && episodes[i] == e
    case None => forall i :: 0 <= i < |episodes| ==> !HasNumbers(episodes[i], season, number)
  }

  /** The search finds exactly that. */
  lemma {:induction false} FindEpisodeIff(
    episodes: seq<Episode>, season: string, number: string, found: Option<Episode>)
    ensures FindEpisode(episodes, season, number) == found <==> Finds(episodes, season, number, found)
  {
    FoundFirst(episodes, season, number);
    var r := FindEpisode(episodes, season, number);
    if Finds(episodes, season, number, found) && r.Some? && found.Some? {
      var i: nat :| FirstAt(episodes, season, number, i) && episodes[i] == found.value;
      var j: nat :| FirstAt(episodes, season, number, j) && episodes[j] == r.value;
      assert i == j;
    }
  }

  lemma {:induction false} FoundFirst(episodes: seq<Episode>, season: string, number: string)
    ensures Finds(episodes, season, number, FindEpisode(episodes, season, number))
  {
    hide Decimal;
    if episodes != [] {
      var rest := episodes[1..];
      assert forall i :: 0 < i < |episodes| ==> episodes[i] == rest[i - 1];
      FoundFirst(rest, season, number);
      if HasNumbers(episodes[0], season, number) {
        assert FirstAt(episodes, season, number, 0);
      } else if FindEpisode(rest, season, number).Some? {
        var i: nat :| FirstAt(rest, season, number, i) && rest[i] == FindEpisode(rest, season, number).value;
        assert FirstAt(episodes, season, number, i + 1);
      }
    }
  }

  function AgentGuid(imdb: string): string {
    "com.plexapp.agents.imdb://" + imdb + "?lang=en"
  }

  function NonEmpty(s: Option<string>): Option<string> {
    if s == Some("") then None else s
  }

  /** The title's IMDb agent guid, if the library has it. */
  ghost predicate LibraryMatch(w: World, c: Config, imdb: string, result: Option<string>, at: real, extra: nat) {
    var guid := "com.plexapp.agents.imdb://" + imdb + "?lang=en";
    exists media :: SeenGuid(w, c, guid, true, media, at, extra)
                    && result == if media == [] then None else Some(guid)
  }

  /** The guid a title matches: from Plex's matcher, else from the library. */
  ghost predicate BaseMatch(
    w: World, c: Config, imdb: string, kind: Kind, result: Option<string>, at: real, extra: nat)
  {
    exists found, r ::
      && MatcherRead(w, c, imdb, kind, found, r) && Within(r, at, extra)
      && if found.Some? then result == found else LibraryMatch(w, c, imdb, result, at, extra)
  }

  /** The first of several shows that has the episode decides. */
  ghost predicate EpisodeMatch(
    w: World, c: Config, shows: seq<Media>, season: string, number: string, result: Option<string>,
    at: real, extra: nat)
  {
    if shows == [] then result == None
    else
      exists episodes, found ::
        SeenLeaves(w, c, shows[0].key, episodes, at, extra) && Finds(episodes, season, number, found) &&
        if found.Some? && found.value.guid != "" then result == Some(found.value.guid)
        else EpisodeMatch(w, c, shows[1..], season, number, result, at, extra)
  }

  /** The episode's guid, by way of every show that a guid stands for. */
  ghost predicate ShowMatch(
    w: World, c: Config, guid: string, season: string, number: string, result: Option<string>, at: real, extra: nat)
  {
    exists shows :: SeenGuid(w, c, guid, false, shows, at, extra)
                    && EpisodeMatch(w, c, shows, season, number, result, at, extra)
  }

  ghost predicate SeriesMatch(
    w: World, c: Config, imdb: string, season: string, number: string, result: Option<string>, at: real, extra: nat)
  {
    exists base :: BaseMatch(w, c, imdb, Series, base, at, extra)
                   && if base.None? then result == None
                      else ShowMatch(w, c, base.value, season, number, result, at, extra)
  }

  /** What an IMDb id, with season and number for a series, matches. */
  ghost predicate Matched(w: World, c: Config, id: string, kind: Kind, result: Option<string>, at: real, extra: nat) {
    if kind == Movie then BaseMatch(w, c, id, Movie, result, at, extra)
    else
      var parts := Split(id, ':');
      if |parts| != 3 then result == None
      else SeriesMatch(w, c, parts[0], parts[1], parts[2], result, at, extra)
  }

  /** The key of a kept match does not hold the media type, so it may come from the other one. */
  ghost predicate MatchedAsSome(w: World, c: Config, id: string, plexId: string, at: real, extra: nat) {
    exists kind :: Matched(w, c, id, kind, Some(plexId), at, extra)
  }

  ghost predicate MatchUsed(w: World, c: Config, id: string, kind: Kind, result: Option<string>, at: real, extra: nat) {
    || Matched(w, c, id, kind, result, at, extra)
    || (result.Some? && MatchedAsSome(w, c, id, result.value, at, extra + w.ttl.match_))
  }

  // ---- a match made for one media type and used for the other ----

  /** A match that this media type gets, made less than the match lifetime ago. */
  ghost predicate OwnMatch(w: World, c: Config, id: string, kind: Kind, result: Option<string>, now: real) {
    exists m :: Matched(w, c, id, kind, result, m, 0) && Within(m, now, w.ttl.match_)
  }

  /** An id of three parts whose last two some episode's numbers print as. */
  ghost predicate EpisodeForm(id: string) {
    var parts := Split(id, ':');
    |parts| == 3 && exists season, number :: Numbered(parts, season, number)
  }

  predicate Numbered(parts: seq<string>, season: nat, number: nat)
    requires |parts| == 3
  {
    Decimal(season) == parts[1] && Decimal(number) == parts[2]
  }

  /** A kept match, made for one media type, misleads a request for the other. */
  ghost predicate Misleads(w: World, c: Config, id: string, made: Kind, asked: Kind, plexId: string) {
    Matched(w, c, id, made, Some(plexId), 0.0, 0) && !OwnMatch(w, c, id, asked, Some(plexId), 0.0)
  }

  function PlainConfig(): Config {
    Config("token", false, "")
  }

  /** A library in which only the matcher for films knows the title. */
  function FilmOnly(): World {
    var plex := Plex(_ => [], _ => [], _ => [], (_, kind) => if kind == Movie then Some("film") else None);
    World((_, _) => plex, Ttls(1, 1, 1), (_, _, _) => Some(""))
  }

  lemma SeriesIdNeverResolves(id: string, result: Option<string>, m: real)
    requires Matched(FilmOnly(), PlainConfig(), id, Series, result, m, 0)
    ensures result == None
  {
    var w, c := FilmOnly(), PlainConfig();
    var parts := Split(id, ':');
    if |parts| == 3 {
      var base :| BaseMatch(w, c, parts[0], Series, base, m, 0)
                  && if base.None? then result == None
                     else ShowMatch(w, c, base.value, parts[1], parts[2], result, m, 0);
      assert FetchGuid(w.plex(c, m), AgentGuid(parts[0]), true) == [];
      assert base == None;
    }
  }

  lemma FilmMisleadsSeries(id: string)
    ensures Misleads(FilmOnly(), PlainConfig(), id, Movie, Series, "film")
  {
    var w, c := FilmOnly(), PlainConfig();
    assert MatcherRead(w, c, id, Movie, Some("film"), 0.0) && Within(0.0, 0.0, 0);
    assert BaseMatch(w, c, id, Movie, Some("film"), 0.0, 0);
    forall m | Matched(w, c, id, Series, Some("film"), m, 0) ensures false {
      SeriesIdNeverResolves(id, Some("film"), m);
    }
  }

  /** A library in which only the matcher for series knows the title, with one episode. */
  function SeriesOnly(season: nat, number: nat): World {
    var show := Media("show", "/show", "1", "show", "");
    var plex := Plex(
      guid => if guid == "show" then [show] else [], _ => [show], _ => [Episode("episode", "2", season, number)],
      (_, kind) => if kind == Series then Some("show") else None);
    World((_, _) => plex, Ttls(1, 1, 1), (_, _, _) => Some(""))
  }

  lemma EpisodeMatches(season: nat, number: nat, imdb: string)
    ensures var w, c := SeriesOnly(season, number), PlainConfig();
            SeriesMatch(w, c, imdb, Decimal(season), Decimal(number), Some("episode"), 0.0, 0)
  {
    var w, c := SeriesOnly(season, number), PlainConfig();
    var plex := w.plex(c, 0.0);
    var show := Media("show", "/show", "1", "show", "");
    assert MatcherRead(w, c, imdb, Series, Some("show"), 0.0) && Within(0.0, 0.0, 0) && Within(0.0, 0.0, 1);
    assert BaseMatch(w, c, imdb, Series, Some("show"), 0.0, 0);
    assert Wanted([show]) == [show] + Wanted([]) == [show];
    assert FetchGuid(plex, "show", false) == [show] by {
      assert FetchAll(plex, [show]) == FetchRatingKey(plex, "1") + FetchAll(plex, []);
    }
    assert GuidRead(w, c, "show", false, [show], 0.0);
    var episodes := [Episode("episode", "2", season, number)];
    assert LeavesRead(w, c, "/show", episodes, 0.0);
    assert SeenLeaves(w, c, "/show", episodes, 0.0, 0);
    assert FirstAt(episodes, Decimal(season), Decimal(number), 0);
    assert Finds(episodes, Decimal(season), Decimal(number), Some(episodes[0]));
    assert EpisodeMatch(w, c, [show], Decimal(season), Decimal(number), Some("episode"), 0.0, 0);
    assert ShowMatch(w, c, "show", Decimal(season), Decimal(number), Some("episode"), 0.0, 0);
  }

  lemma SeriesMisleadsFilm(id: string, season: nat, number: nat)
    requires |Split(id, ':')| == 3 && Numbered(Split(id, ':'), season, number)
    ensures Misleads(SeriesOnly(season, number), PlainConfig(), id, Series, Movie, "episode")
  {
    var w, c := SeriesOnly(season, number), PlainConfig();
    EpisodeMatches(season, number, Split(id, ':')[0]);
    forall m | Matched(w, c, id, Movie, Some("episode"), m, 0) ensures false {
      FilmUnknown(w, c, id, season, number, m);
    }
  }

  lemma FilmUnknown(w: World, c: Config, id: string, season: nat, number: nat, m: real)
    requires w == SeriesOnly(season, number) && c == PlainConfig()
    ensures !BaseMatch(w, c, id, Movie, Some("episode"), m, 0)
  {
    assert AgentGuid(id)[0] == 'c';
    assert AgentGuid(id) != "show";
    forall r ensures FetchGuid(w.plex(c, r), AgentGuid(id), true) == [] {
      assert w.plex(c, r).library(AgentGuid(id)) == [];
    }
  }

  /** A series matches nothing without an episode. */
  lemma {:induction false} EpisodeMatchNumbered(
    w: World, c: Config, shows: seq<Media>, season: string, number: string, result: Option<string>,
    at: real, extra: nat)
    requires EpisodeMatch(w, c, shows, season, number, result, at, extra) && result.Some?
    ensures exists s, n :: Decimal(s) == season && Decimal(n) == number
  {
    var episodes: seq<Episode>, found :| SeenLeaves(w, c, shows[0].key, episodes, at, extra)
      && Finds(episodes, season, number, found) &&
      if found.Some? && found.value.guid != "" then result == Some(found.value.guid)
      else EpisodeMatch(w, c, shows[1..], season, number, result, at, extra);
    if found.Some? && found.value.guid != "" {
      var i: nat :| FirstAt(episodes, season, number, i);
      assert HasNumbers(episodes[i], season, number);
    } else {
      EpisodeMatchNumbered(w, c, shows[1..], season, number, result, at, extra);
    }
  }

  lemma SeriesNeedsEpisodeForm(w: World, c: Config, id: string, plexId: string, at: real)
    requires Matched(w, c, id, Series, Some(plexId), at, 0)
    ensures EpisodeForm(id)
  {
    var parts := Split(id, ':');
    var base :| BaseMatch(w, c, parts[0], Series, base, at, 0)
                && if base.None? then Some(plexId) == None
                   else ShowMatch(w, c, base.value, parts[1], parts[2], Some(plexId), at, 0);
    var shows :| SeenGuid(w, c, base.value, false, shows, at, 0)
                 && EpisodeMatch(w, c, shows, parts[1], parts[2], Some(plexId), at, 0);
    EpisodeMatchNumbered(w, c, shows, parts[1], parts[2], Some(plexId), at, 0);
    var s, n :| Decimal(s) == parts[1] && Decimal(n) == parts[2];
    assert Numbered(parts, s, n);
  }

  lemma AnySeriesNeedsEpisodeForm(id: string)
    ensures forall w: World, c, plexId, m :: Matched(w, c, id, Series, Some(plexId), m, 0) ==> EpisodeForm(id)
  {
    forall w: World, c, plexId, m | Matched(w, c, id, Series, Some(plexId), m, 0) ensures EpisodeForm(id) {
      SeriesNeedsEpisodeForm(w, c, id, plexId, m);
    }
  }

  /**
    Exactly when a match kept for one media type is, in every library and at every time,
    one that a request for the other would get: the two are the same, or it was made for a
    series and the id names no episode, so that there is none.
   */
  lemma KeptMatchOwnIff(id: string, made: Kind, asked: Kind)
    ensures (forall w: World, c, plexId, m, now ::
               Matched(w, c, id, made, Some(plexId), m, 0) && Within(m, now, w.ttl.match_)
               ==> OwnMatch(w, c, id, asked, Some(plexId), now))
            <==> made == asked || (made == Series && !EpisodeForm(id))
  {
    if made == asked {
    } else if made == Movie {
      FilmMisleadsSeries(id);
      assert Within(0.0, 0.0, FilmOnly().ttl.match_);
    } else if EpisodeForm(id) {
      var season, number :| Numbered(Split(id, ':'), season, number);
      SeriesMisleadsFilm(id, season, number);
      assert Within(0.0, 0.0, SeriesOnly(season, number).ttl.match_);
    } else {
      AnySeriesNeedsEpisodeForm(id);
    }
  }

  // ---- resolving a media id ----

  /** An episode's media by way of the first of the shows. */
  ghost predicate EpisodeOf(
    w: World, c: Config, shows: seq<Media>, season: string, number: string, media: seq<Media>, at: real, extra: nat)
  {
    if shows == [] then media == []
    else
      exists episodes, found ::
        SeenLeaves(w, c, shows[0].key, episodes, at, extra) && Finds(episodes, season, number, found) &&
        if found.None? || found.value.ratingKey == "" then media == []
        else SeenRatingKey(w, c, found.value.ratingKey, media, at, extra)
  }

  /** The media a rating-key id stands for; a series id with season and number goes through its show. */
  ghost predicate RatingKeyResolved(
    w: World, c: Config, kind: Kind, value: string, media: seq<Media>, at: real, extra: nat)
  {
    var parts := Split(value, ':');
    if kind != Series || |parts| != 3 then SeenRatingKey(w, c, value, media, at, extra)
    else
      exists shows ::
        && SeenRatingKey(w, c, parts[0], shows, at, extra)
        && EpisodeOf(w, c, shows, parts[1], parts[2], media, at, extra)
  }

  ghost predicate MatchResolved(w: World, c: Config, id: string, kind: Kind, media: seq<Media>, at: real, extra: nat) {
    exists result :: MatchUsed(w, c, id, kind, result, at, extra)
                     && if result.None? then media == [] else SeenGuid(w, c, result.value, false, media, at, extra)
  }

  ghost predicate Resolved(w: World, c: Config, kind: Kind, mediaId: string, media: seq<Media>, at: real, extra: nat) {
    match Dispatch(mediaId)
    case NotFound => false
    case ByGuid(guid) => SeenGuid(w, c, guid, false, media, at, extra)
    case ByRatingKey(value) => RatingKeyResolved(w, c, kind, value, media, at, extra)
    case ByImdb(id) => MatchResolved(w, c, id, kind, media, at, extra)
  }

  // ---- keeping an answer adds its lifetime to the age of everything under it ----

  lemma SeenRatingKeyKept(
    w: World, c: Config, ratingKey: string, media: seq<Media>, at: real, extra: nat, now: real, ttl: nat)
    requires SeenRatingKey(w, c, ratingKey, media, at, extra) && Within(at, now, ttl)
    ensures SeenRatingKey(w, c, ratingKey, media, now, extra + ttl)
  {
    var r :| RatingKeyRead(w, c, ratingKey, media, r) && Within(r, at, extra + w.ttl.metadata);
    WithinTwice(r, at, now, extra + w.ttl.metadata, ttl);
  }

  lemma SeenGuidKept(
    w: World, c: Config, guid: string, onlyFirst: bool, media: seq<Media>, at: real, extra: nat, now: real, ttl: nat)
    requires SeenGuid(w, c, guid, onlyFirst, media, at, extra) && Within(at, now, ttl)
    ensures SeenGuid(w, c, guid, onlyFirst, media, now, extra + ttl)
  {
    var r :| GuidRead(w, c, guid, onlyFirst, media, r) && Within(r, at, extra + w.ttl.metadata);
    WithinTwice(r, at, now, extra + w.ttl.metadata, ttl);
  }

  lemma SeenLeavesKept(
    w: World, c: Config, key: string, episodes: seq<Episode>, at: real, extra: nat, now: real, ttl: nat)
    requires SeenLeaves(w, c, key, episodes, at, extra) && Within(at, now, ttl)
    ensures SeenLeaves(w, c, key, episodes, now, extra + ttl)
  {
    var r :| LeavesRead(w, c, key, episodes, r) && Within(r, at, extra + w.ttl.metadata);
    WithinTwice(r, at, now, extra + w.ttl.metadata, ttl);
  }

  lemma BaseMatchKept(
    w: World, c: Config, imdb: string, kind: Kind, result: Option<string>, at: real, extra: nat, now: real, ttl: nat)
    requires BaseMatch(w, c, imdb, kind, result, at, extra) && Within(at, now, ttl)
    ensures BaseMatch(w, c, imdb, kind, result, now, extra + ttl)
  {
    var found, r :|
      && MatcherRead(w, c, imdb, kind, found, r) && Within(r, at, extra)
      && if found.Some? then result == found else LibraryMatch(w, c, imdb, result, at, extra);
    WithinTwice(r, at, now, extra, ttl);
    if found.None? {
      var media :| SeenGuid(w, c, AgentGuid(imdb), true, media, at, extra)
                   && result == if media == [] then None else Some(AgentGuid(imdb));
      SeenGuidKept(w, c, AgentGuid(imdb), true, media, at, extra, now, ttl);
      assert LibraryMatch(w, c, imdb, result, now, extra + ttl);
    }
  }

  lemma {:induction false} EpisodeMatchKept(
    w: World, c: Config, shows: seq<Media>, season: string, number: string, result: Option<string>,
    at: real, extra: nat, now: real, ttl: nat)
    requires EpisodeMatch(w, c, shows, season, number, result, at, extra) && Within(at, now, ttl)
    ensures EpisodeMatch(w, c, shows, season, number, result, now, extra + ttl)
  {
    if shows != [] {
      var episodes: seq<Episode>, found :| SeenLeaves(w, c, shows[0].key, episodes, at, extra)
        && Finds(episodes, season, number, found) &&
        if found.Some? && found.value.guid != "" then result == Some(found.value.guid)
        else EpisodeMatch(w, c, shows[1..], season, number, result, at, extra);
      SeenLeavesKept(w, c, shows[0].key, episodes, at, extra, now, ttl);
      if !(found.Some? && found.value.guid != "") {
        EpisodeMatchKept(w, c, shows[1..], season, number, result, at, extra, now, ttl);
      }
    }
  }

  lemma SeriesMatchKept(
    w: World, c: Config, imdb: string, season: string, number: string, result: Option<string>,
    at: real, extra: nat, now: real, ttl: nat)
    requires SeriesMatch(w, c, imdb, season, number, result, at, extra) && Within(at, now, ttl)
    ensures SeriesMatch(w, c, imdb, season, number, result, now, extra + ttl)
  {
    var base :| BaseMatch(w, c, imdb, Series, base, at, extra)
                && if base.None? then result == None
                   else ShowMatch(w, c, base.value, season, number, result, at, extra);
    BaseMatchKept(w, c, imdb, Series, base, at, extra, now, ttl);
    if base.Some? {
      var shows :| SeenGuid(w, c, base.value, false, shows, at, extra)
                   && EpisodeMatch(w, c, shows, season, number, result, at, extra);
      SeenGuidKept(w, c, base.value, false, shows, at, extra, now, ttl);
      EpisodeMatchKept(w, c, shows, season, number, result, at, extra, now, ttl);
      assert ShowMatch(w, c, base.value, season, number, result, now, extra + ttl);
    }
  }

  lemma MatchedKept(
    w: World, c: Config, id: string, kind: Kind, result: Option<string>, at: real, extra: nat, now: real, ttl: nat)
    requires Matched(w, c, id, kind, result, at, extra) && Within(at, now, ttl)
    ensures Matched(w, c, id, kind, result, now, extra + ttl)
  {
    var parts := Split(id, ':');
    if kind == Movie {
      BaseMatchKept(w, c, id, Movie, result, at, extra, now, ttl);
    } else if |parts| == 3 {
      SeriesMatchKept(w, c, parts[0], parts[1], parts[2], result, at, extra, now, ttl);
    }
  }

  lemma MatchedAsSomeKept(w: World, c: Config, id: string, plexId: string, at: real, extra: nat, now: real, ttl: nat)
    requires MatchedAsSome(w, c, id, plexId, at, extra) && Within(at, now, ttl)
    ensures MatchedAsSome(w, c, id, plexId, now, extra + ttl)
  {
    var kind :| Matched(w, c, id, kind, Some(plexId), at, extra);
    MatchedKept(w, c, id, kind, Some(plexId), at, extra, now, ttl);
  }

  lemma MatchUsedKept(
    w: World, c: Config, id: string, kind: Kind, result: Option<string>, at: real, extra: nat, now: real, ttl: nat)
    requires MatchUsed(w, c, id, kind, result, at, extra) && Within(at, now, ttl)
    ensures MatchUsed(w, c, id, kind, result, now, extra + ttl)
  {
    hide Matched, MatchedAsSome;
    if Matched(w, c, id, kind, result, at, extra) {
      MatchedKept(w, c, id, kind, result, at, extra, now, ttl);
    } else {
      MatchedAsSomeKept(w, c, id, result.value, at, extra + w.ttl.match_, now, ttl);
      assert extra + w.ttl.match_ + ttl == extra + ttl + w.ttl.match_;
    }
  }

  lemma EpisodeOfKept(
    w: World, c: Config, shows: seq<Media>, season: string, number: string, media: seq<Media>,
    at: real, extra: nat, now: real, ttl: nat)
    requires EpisodeOf(w, c, shows, season, number, media, at, extra) && Within(at, now, ttl)
    ensures EpisodeOf(w, c, shows, season, number, media, now, extra + ttl)
  {
    if shows != [] {
      var episodes: seq<Episode>, found :| SeenLeaves(w, c, shows[0].key, episodes, at, extra)
        && Finds(episodes, season, number, found) &&
        if found.None? || found.value.ratingKey == "" then media == []
        else SeenRatingKey(w, c, found.value.ratingKey, media, at, extra);
      SeenLeavesKept(w, c, shows[0].key, episodes, at, extra, now, ttl);
      if found.Some? && found.value.ratingKey != "" {
        SeenRatingKeyKept(w, c, found.value.ratingKey, media, at, extra, now, ttl);
      }
    }
  }

  lemma RatingKeyResolvedKept(
    w: World, c: Config, kind: Kind, value: string, media: seq<Media>, at: real, extra: nat, now: real, ttl: nat)
    requires RatingKeyResolved(w, c, kind, value, media, at, extra) && Within(at, now, ttl)
    ensures RatingKeyResolved(w, c, kind, value, media, now, extra + ttl)
  {
    var parts := Split(value, ':');
    if kind != Series || |parts| != 3 {
      SeenRatingKeyKept(w, c, value, media, at, extra, now, ttl);
    } else {
      var shows :| SeenRatingKey(w, c, parts[0], shows, at, extra)
                   && EpisodeOf(w, c, shows, parts[1], parts[2], media, at, extra);
      SeenRatingKeyKept(w, c, parts[0], shows, at, extra, now, ttl);
      EpisodeOfKept(w, c, shows, parts[1], parts[2], media, at, extra, now, ttl);
    }
  }

  /** The composition: an answer kept for less than `ttl` rests on reads at most that much older. */
  lemma ResolvedKept(
    w: World, c: Config, kind: Kind, mediaId: string, media: seq<Media>, at: real, extra: nat, now: real, ttl: nat)
    requires Resolved(w, c, kind, mediaId, media, at, extra) && Within(at, now, ttl)
    ensures Resolved(w, c, kind, mediaId, media, now, extra + ttl)
  {
    match Dispatch(mediaId)
    case ByGuid(guid) => SeenGuidKept(w, c, guid, false, media, at, extra, now, ttl);
    case ByRatingKey(value) => RatingKeyResolvedKept(w, c, kind, value, media, at, extra, now, ttl);
    case ByImdb(id) =>
      var result :| MatchUsed(w, c, id, kind, result, at, extra)
                    && if result.None? then media == [] else SeenGuid(w, c, result.value, false, media, at, extra);
      MatchUsedKept(w, c, id, kind, result, at, extra, now, ttl);
      if result.Some? { SeenGuidKept(w, c, result.value, false, media, at, extra, now, ttl); }
      assert MatchResolved(w, c, id, kind, media, now, extra + ttl);
    case NotFound =>
  }
}
