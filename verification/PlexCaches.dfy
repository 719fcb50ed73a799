/**
  The layered caches of the stream endpoint: the response cache over the match cache over
  the metadata caches, all in one table, and what an answer served from them rests on.
 */
module PlexCaches {
  import opened Wrappers
  import opened PyText
  import opened PlexIds
  import opened PlexReads
  import CacheKeys
  import StreamCache

  // ---- the cache ----

  datatype Resource = RatingKeys | Guids | FirstGuids | Episodes | Matches | Streams

  /** A namespace is an injective digest of its configuration, which stands here for it (`KeyTextsDiffer`). */
  datatype Key = Key(owner: Config, resource: Resource, identity: string)

  datatype Value = MediaList(media: seq<Media>) | EpisodeList(episodes: seq<Episode>) | Text(text: string)

  datatype Entry = Entry(value: Value, expiresAt: real)

  type Table = map<Key, Entry>

  function ResourceName(r: Resource): string {
    match r
    case RatingKeys => "media-rating-key"
    case Guids => "media-guid"
    case FirstGuids => "media-guid-first"
    case Episodes => "episodes"
    case Matches => "match"
    case Streams => "stream"
  }

  /** The key as the cache gets it; `canonical` prints a configuration in its sorted JSON form. */
  function KeyText(digest: string -> string, canonical: Config -> string, k: Key): string {
    CacheKeys.ResourceCacheKey(digest, digest(canonical(k.owner)), ResourceName(k.resource), k.identity)
  }

  /** So two keys print alike only if they are one, and the table may be keyed by their parts. */
  lemma KeyTextsDiffer(digest: string -> string, canonical: Config -> string, k: Key, k': Key)
    requires CacheKeys.IsDigest(digest) && forall c, c' :: canonical(c) == canonical(c') ==> c == c'
    requires KeyText(digest, canonical, k) == KeyText(digest, canonical, k')
    ensures k == k'
  {
    NamesHaveNoColon(k.resource);
    NamesHaveNoColon(k'.resource);
    CacheKeys.KeysSeparate(
      digest, digest(canonical(k.owner)), ResourceName(k.resource), k.identity,
      digest(canonical(k'.owner)), ResourceName(k'.resource), k'.identity);
    NamesDiffer(k.resource, k'.resource);
  }

  lemma NamesHaveNoColon(r: Resource)
    ensures ':' !in ResourceName(r)
  {}

  lemma NamesDiffer(r: Resource, r': Resource)
    ensures ResourceName(r) == ResourceName(r') ==> r == r'
  {
    assert ResourceName(r) == ResourceName(r') ==> |ResourceName(r)| == |ResourceName(r')|;
    assert "media-guid"[0] == 'm' && "match"[1] == 'a';
  }

  class MemoryCache {
    var table: Table

    constructor ()
      ensures table == map[]
    {
      table := map[];
    }

    method Set(key: Key, value: Value, ttl: nat, now: real)
      modifies this
      ensures table == if ttl == 0 then old(table) else old(table)[key := Entry(value, now + ttl as real)]
    {
      if ttl == 0 { return; }
      table := table[key := Entry(value, now + ttl as real)];
    }

    /** A hit changes nothing, so it renews nothing; a miss leaves no entry. */
    method Get(key: Key, now: real) returns (r: Option<Value>)
      modifies this
      ensures r.Some? <==> key in old(table) && now < old(table)[key].expiresAt
      ensures r.Some? ==> r.value == old(table)[key].value && table == old(table)
      ensures r.None? ==> table == old(table) - {key}
    {
      if key !in table {
        assert table - {key} == table;
        return None;
      }
      var entry := table[key];
      if now >= entry.expiresAt {
        table := table - {key};
        return None;
      }
      r := Some(entry.value);
    }
  }

  // ---- what the entries hold ----

  /**
    A stream request: its configuration, what it asks for, and the path and public base of
    its play links; without a base where no public URL can be made out.
   */
  datatype Request = Request(config: Config, kind: Kind, mediaId: string, path: string, base: Option<string>)

  /** A response the handler built, and when. */
  datatype Served = Served(request: Request, text: string, at: real)

  /** A match that was kept: for which id and media type, and when it was made. */
  datatype Made = Made(config: Config, id: string, kind: Kind, plexId: string, at: real)

  /** Everything the handler built or kept. */
  datatype Log = Log(served: seq<Served>, matches: seq<Made>)

  function KindText(k: Kind): string {
    match k case Movie => "movie" case Series => "series"
  }

  function ConfigPath(q: Request): string {
    if q.config.usesProxy then q.path else ""
  }

  function StreamKey(q: Request): Key {
    Key(q.config, Streams, CacheKeys.StreamIdentity(KindText(q.kind), q.mediaId, ConfigPath(q)))
  }

  /** Only proxied play links need a base. */
  predicate HasBase(q: Request) {
    q.config.usesProxy ==> q.base.Some?
  }

  function PlayPrefix(q: Request): Option<string>
    requires HasBase(q)
  {
    if q.config.usesProxy then Some(q.base.value + q.path + "/play") else None
  }

  ghost predicate Built(w: World, s: Served) {
    var q := s.request;
    HasBase(q)
    && exists media :: Resolved(w, q.config, q.kind, q.mediaId, media, s.at, 0)
                       && w.print_(q.config, media, PlayPrefix(q)) == Some(s.text)
  }

  ghost predicate Holds(w: World, m: Made) {
    m.plexId != "" && Matched(w, m.config, m.id, m.kind, Some(m.plexId), m.at, 0)
  }

  function Lifetime(w: World, r: Resource): nat {
    match r case Matches => w.ttl.match_ case Streams => w.ttl.stream case _ => w.ttl.metadata
  }

  /** When an entry was written. */
  function WrittenAt(w: World, k: Key, e: Entry): real {
    e.expiresAt - Lifetime(w, k.resource) as real
  }

  /** What an entry holds, in terms of the instant it was written. */
  ghost predicate EntryOk(w: World, log: Log, k: Key, e: Entry) {
    var at := WrittenAt(w, k, e);
    match k.resource
    case RatingKeys => e.value.MediaList? && RatingKeyRead(w, k.owner, k.identity, e.value.media, at)
    case Guids => e.value.MediaList? && GuidRead(w, k.owner, k.identity, false, e.value.media, at)
    case FirstGuids => e.value.MediaList? && GuidRead(w, k.owner, k.identity, true, e.value.media, at)
    case Episodes => e.value.EpisodeList? && LeavesRead(w, k.owner, k.identity, e.value.episodes, at)
    case Matches => e.value.Text? && exists i :: MatchFrom(log.matches, k, e.value, at, i)
    case Streams => e.value.Text? && exists i :: StreamFrom(log.served, k, e.value, at, i)
  }

  /** A match entry is the i-th match that was kept; its key does not say for which media type. */
  predicate MatchFrom(matches: seq<Made>, k: Key, value: Value, at: real, i: nat) {
    i < |matches| && matches[i].config == k.owner && matches[i].id == k.identity
    && value == Text(matches[i].plexId) && matches[i].at == at
  }

  /** A stream entry is the scrubbed text of a logged response for the same configuration and identity. */
  predicate StreamFrom(served: seq<Served>, k: Key, value: Value, at: real, i: nat) {
    i < |served| && k == StreamKey(served[i].request)
    && value == Text(StreamCache.Scrub(served[i].text, k.owner.token)) && served[i].at == at
  }

  ghost predicate SoundLog(w: World, log: Log, now: real) {
    && (forall i :: 0 <= i < |log.served| ==> Built(w, log.served[i]) && log.served[i].at <= now)
    && (forall i :: 0 <= i < |log.matches| ==> Holds(w, log.matches[i]) && log.matches[i].at <= now)
  }

  ghost predicate SoundTable(w: World, log: Log, table: Table, now: real) {
    forall k :: k in table ==> EntryOk(w, log, k, table[k]) && WrittenAt(w, k, table[k]) <= now
  }

  ghost predicate Sound(w: World, log: Log, table: Table, now: real) {
    SoundTable(w, log, table, now) && SoundLog(w, log, now)
  }

  lemma SoundLater(w: World, log: Log, table: Table, before: real, now: real)
    requires Sound(w, log, table, before) && before <= now
    ensures Sound(w, log, table, now)
  {}

  lemma SoundEmpty(w: World, now: real)
    ensures Sound(w, Log([], []), map[], now)
  {}

  lemma SoundEntry(w: World, log: Log, table: Table, now: real, k: Key)
    requires Sound(w, log, table, now) && k in table
    ensures EntryOk(w, log, k, table[k]) && WrittenAt(w, k, table[k]) <= now
  {}

  lemma SoundDrop(w: World, log: Log, table: Table, now: real, k: Key)
    requires Sound(w, log, table, now)
    ensures Sound(w, log, table - {k}, now)
  {}

  lemma SoundSet(w: World, log: Log, table: Table, now: real, k: Key, value: Value)
    requires Sound(w, log, table, now)
    requires EntryOk(w, log, k, Entry(value, now + Lifetime(w, k.resource) as real))
    ensures Sound(w, log, table[k := Entry(value, now + Lifetime(w, k.resource) as real)], now)
  {}

  /** One log goes on from another. */
  predicate Extends(log: Log, log': Log) {
    log.served <= log'.served && log.matches <= log'.matches
  }

  /** An entry keeps its witness in a longer log. */
  lemma EntryExtends(w: World, log: Log, log': Log, k: Key, e: Entry)
    requires EntryOk(w, log, k, e) && Extends(log, log')
    ensures EntryOk(w, log', k, e)
  {
    var at := WrittenAt(w, k, e);
    if k.resource == Streams {
      var i :| StreamFrom(log.served, k, e.value, at, i);
      assert StreamFrom(log'.served, k, e.value, at, i);
    } else if k.resource == Matches {
      var i :| MatchFrom(log.matches, k, e.value, at, i);
      assert MatchFrom(log'.matches, k, e.value, at, i);
    }
  }

  lemma SoundExtends(w: World, log: Log, log': Log, table: Table, now: real)
    requires Sound(w, log, table, now) && Extends(log, log') && SoundLog(w, log', now)
    ensures Sound(w, log', table, now)
  {
    forall k | k in table ensures EntryOk(w, log', k, table[k]) && WrittenAt(w, k, table[k]) <= now {
      EntryExtends(w, log, log', k, table[k]);
    }
  }

  function AddServed(log: Log, s: Served): Log {
    log.(served := log.served + [s])
  }

  function AddMade(log: Log, m: Made): Log {
    log.(matches := log.matches + [m])
  }

  /** A response can only be logged once it is built. */
  lemma SoundServed(w: World, log: Log, table: Table, now: real, s: Served)
    requires Sound(w, log, table, now) && Built(w, s) && s.at <= now
    ensures Sound(w, AddServed(log, s), table, now)
  {
    SoundExtends(w, log, AddServed(log, s), table, now);
  }

  /** And a match once it is made. */
  lemma SoundMade(w: World, log: Log, table: Table, now: real, m: Made)
    requires Sound(w, log, table, now) && Holds(w, m) && m.at <= now
    ensures Sound(w, AddMade(log, m), table, now)
  {
    SoundExtends(w, log, AddMade(log, m), table, now);
  }

  /** Whether a key has an entry that a read at this time may use. */
  predicate LiveAt(table: Table, key: Key, ttl: nat, now: real) {
    ttl > 0 && key in table && now < table[key].expiresAt
  }

  /** What reading through the cache leaves: a live entry as it was, or the loaded value kept for its lifetime. */
  function After(table: Table, key: Key, value: Value, ttl: nat, now: real): Table {
    if ttl == 0 || LiveAt(table, key, ttl, now) then table else table[key := Entry(value, now + ttl as real)]
  }

  /** The value was read through the cache. */
  predicate Kept(before: Table, after: Table, key: Key, value: Value, ttl: nat, now: real) {
    && after == After(before, key, value, ttl, now)
    && (LiveAt(before, key, ttl, now) ==> value == before[key].value)
  }

  /** `cached_model_list`: a live entry is returned as it is; otherwise the loader runs and its result is kept. */
  method CachedModelList(cache: MemoryCache, key: Key, loader: () -> Value, ttl: nat, now: real)
    returns (value: Value, hit: bool)
    modifies cache
    ensures hit <==> LiveAt(old(cache.table), key, ttl, now)
    ensures value == if hit then old(cache.table)[key].value else loader()
    ensures cache.table == After(old(cache.table), key, value, ttl, now)
  {
    if ttl > 0 {
      var cached := cache.Get(key, now);
      if cached.Some? { return cached.value, true; }
    }
    value := loader();
    ghost var before := old(cache.table);
    assert (before - {key})[key := Entry(value, now + ttl as real)] == before[key := Entry(value, now + ttl as real)];
    cache.Set(key, value, ttl, now);
    hit := false;
  }

  /** Reading through the cache keeps the table sound, whichever branch ran. */
  lemma SoundThrough(w: World, log: Log, table: Table, k: Key, value: Value, now: real)
    requires Sound(w, log, table, now)
    requires !LiveAt(table, k, Lifetime(w, k.resource), now)
             ==> EntryOk(w, log, k, Entry(value, now + Lifetime(w, k.resource) as real))
    ensures Sound(w, log, After(table, k, value, Lifetime(w, k.resource), now), now)
  {
    if Lifetime(w, k.resource) > 0 && !LiveAt(table, k, Lifetime(w, k.resource), now) {
      SoundSet(w, log, table, now, k, value);
    }
  }

  method GetMediaByRatingKey(
    cache: MemoryCache, w: World, ghost log: Log, c: Config, ratingKey: string, now: real)
    returns (media: seq<Media>)
    requires Sound(w, log, cache.table, now)
    modifies cache
    ensures Sound(w, log, cache.table, now)
    ensures SeenRatingKey(w, c, ratingKey, media, now, 0)
    ensures Kept(old(cache.table), cache.table, Key(c, RatingKeys, ratingKey), MediaList(media), w.ttl.metadata, now)
  {
    var key := Key(c, RatingKeys, ratingKey);
    ghost var before := cache.table;
    hide Sound, StreamFrom, MatchFrom, Built;
    var loader := () => MediaList(FetchRatingKey(w.plex(c, now), ratingKey));
    var value, hit := CachedModelList(cache, key, loader, w.ttl.metadata, now);
    SoundThrough(w, log, before, key, value, now);
    if hit {
      SoundEntry(w, log, before, now, key);
      assert RatingKeyRead(w, c, ratingKey, value.media, WrittenAt(w, key, before[key]));
    } else {
      assert RatingKeyRead(w, c, ratingKey, value.media, now);
    }
    media := value.media;
  }

  method GetMedia(
    cache: MemoryCache, w: World, ghost log: Log, c: Config, guid: string, onlyFirst: bool, now: real)
    returns (media: seq<Media>)
    requires Sound(w, log, cache.table, now)
    modifies cache
    ensures Sound(w, log, cache.table, now)
    ensures SeenGuid(w, c, guid, onlyFirst, media, now, 0)
    ensures var key := Key(c, if onlyFirst then FirstGuids else Guids, guid);
            Kept(old(cache.table), cache.table, key, MediaList(media), w.ttl.metadata, now)
  {
    var key := Key(c, if onlyFirst then FirstGuids else Guids, guid);
    ghost var before := cache.table;
    hide Sound, StreamFrom, MatchFrom, Built;
    var loader := () => MediaList(FetchGuid(w.plex(c, now), guid, onlyFirst));
    var value, hit := CachedModelList(cache, key, loader, w.ttl.metadata, now);
    SoundThrough(w, log, before, key, value, now);
    if hit {
      SoundEntry(w, log, before, now, key);
      assert GuidRead(w, c, guid, onlyFirst, value.media, WrittenAt(w, key, before[key]));
    } else {
      assert GuidRead(w, c, guid, onlyFirst, value.media, now);
    }
    media := value.media;
  }

  method GetAllEpisodes(cache: MemoryCache, w: World, ghost log: Log, c: Config, showKey: string, now: real)
    returns (episodes: seq<Episode>)
    requires Sound(w, log, cache.table, now)
    modifies cache
    ensures Sound(w, log, cache.table, now)
    ensures SeenLeaves(w, c, showKey, episodes, now, 0)
    ensures Kept(old(cache.table), cache.table, Key(c, Episodes, showKey), EpisodeList(episodes), w.ttl.metadata, now)
  {
    var key := Key(c, Episodes, showKey);
    ghost var before := cache.table;
    hide Sound, StreamFrom, MatchFrom, Built;
    var loader := () => EpisodeList(w.plex(c, now).leaves(showKey));
    var value, hit := CachedModelList(cache, key, loader, w.ttl.metadata, now);
    SoundThrough(w, log, before, key, value, now);
    if hit {
      SoundEntry(w, log, before, now, key);
      assert LeavesRead(w, c, showKey, value.episodes, WrittenAt(w, key, before[key]));
    } else {
      assert LeavesRead(w, c, showKey, value.episodes, now);
    }
    episodes := value.episodes;
  }

  // ---- matching ----

  /** The matcher, with the library's IMDb agent guid to fall back on. */
  method MatchBase(cache: MemoryCache, w: World, ghost log: Log, c: Config, imdb: string, kind: Kind, now: real)
    returns (result: Option<string>)
    requires Sound(w, log, cache.table, now)
    modifies cache
    ensures Sound(w, log, cache.table, now)
    ensures BaseMatch(w, c, imdb, kind, result, now, 0) && result != Some("")
  {
    var found := NonEmpty(w.plex(c, now).matcher(imdb, kind));
    assert MatcherRead(w, c, imdb, kind, found, now) && Within(now, now, 0);
    result := found;
    if result.None? {
      var media := GetMedia(cache, w, log, c, AgentGuid(imdb), true, now);
      if media != [] { result := Some(AgentGuid(imdb)); }
      assert LibraryMatch(w, c, imdb, result, now, 0);
    }
  }

  /** The loop over the shows a guid stands for, left at the first one that has the episode. */
  method FindEpisodeGuid(
    cache: MemoryCache, w: World, ghost log: Log, c: Config, shows: seq<Media>, season: string, number: string,
    now: real)
    returns (result: Option<string>)
    requires Sound(w, log, cache.table, now)
    modifies cache
    ensures Sound(w, log, cache.table, now)
    ensures EpisodeMatch(w, c, shows, season, number, result, now, 0) && result != Some("")
  {
    hide Sound;
    result := None;
    for i := 0 to |shows|
      invariant Sound(w, log, cache.table, now)
      invariant result.None?
      invariant forall r :: EpisodeMatch(w, c, shows[i..], season, number, r, now, 0)
                            ==> EpisodeMatch(w, c, shows, season, number, r, now, 0)
    {
      assert shows[i..][1..] == shows[i + 1..];
      var episodes := GetAllEpisodes(cache, w, log, c, shows[i].key, now);
      var found := FindEpisode(episodes, season, number);
      FoundFirst(episodes, season, number);
      if found.Some? && found.value.guid != "" {
        result := Some(found.value.guid);
        assert EpisodeMatch(w, c, shows[i..], season, number, result, now, 0);
        return;
      }
      forall r | EpisodeMatch(w, c, shows[i + 1..], season, number, r, now, 0)
        ensures EpisodeMatch(w, c, shows, season, number, r, now, 0)
      {
        assert EpisodeMatch(w, c, shows[i..], season, number, r, now, 0);
      }
    }
    assert EpisodeMatch(w, c, shows[|shows|..], season, number, None, now, 0);
  }

  method ComputeMatch(cache: MemoryCache, w: World, ghost log: Log, c: Config, id: string, kind: Kind, now: real)
    returns (result: Option<string>)
    requires Sound(w, log, cache.table, now)
    modifies cache
    ensures Sound(w, log, cache.table, now)
    ensures Matched(w, c, id, kind, result, now, 0) && result != Some("")
  {
    hide Sound, EntryOk, BaseMatch, EpisodeMatch, SeenGuid, StreamFrom, MatchFrom, Built, Split;
    var imdb, season, number := id, "", "";
    if kind == Series {
      var parts := Split(id, ':');
      if |parts| != 3 { return None; }
      imdb, season, number := parts[0], parts[1], parts[2];
    }
    result := MatchBase(cache, w, log, c, imdb, kind, now);
    if kind == Series {
      ghost var base := result;
      if result.Some? {
        var shows := GetMedia(cache, w, log, c, result.value, false, now);
        result := FindEpisodeGuid(cache, w, log, c, shows, season, number, now);
        assert ShowMatch(w, c, base.value, season, number, result, now, 0);
      }
      assert SeriesMatch(w, c, imdb, season, number, result, now, 0);
    }
  }

  /** A live match entry is one that was kept, made for the media type logged with it. */
  lemma MatchEntry(w: World, log: Log, table: Table, now: real, k: Key) returns (i: nat)
    requires Sound(w, log, table, now) && k in table && k.resource == Matches
    ensures MatchFrom(log.matches, k, table[k].value, WrittenAt(w, k, table[k]), i)
    ensures Holds(w, log.matches[i]) && log.matches[i].at <= now && log.matches[i].plexId != ""
  {
    hide Matched, Built;
    SoundEntry(w, log, table, now, k);
    i :| MatchFrom(log.matches, k, table[k].value, WrittenAt(w, k, table[k]), i);
  }

  lemma ShortIdsAreFilms(w: World, m: Made)
    requires Holds(w, m)
    ensures |Split(m.id, ':')| != 3 ==> m.kind == Movie
  {}

  /** A kept match used before it expires. */
  lemma KeptMatchUsed(w: World, m: Made, kind: Kind, now: real)
    requires Holds(w, m) && Within(m.at, now, w.ttl.match_)
    ensures MatchUsed(w, m.config, m.id, kind, Some(m.plexId), now, 0)
    ensures OwnMatch(w, m.config, m.id, m.kind, Some(m.plexId), now)
    ensures |Split(m.id, ':')| != 3 ==> m.kind == Movie
  {
    ShortIdsAreFilms(w, m);
    hide Matched, Split;
    assert MatchedAsSome(w, m.config, m.id, m.plexId, m.at, 0);
    MatchedAsSomeKept(w, m.config, m.id, m.plexId, m.at, 0, now, w.ttl.match_);
  }

  function MatchKey(m: Made): Key {
    Key(m.config, Matches, m.id)
  }

  predicate LiveMatch(table: Table, c: Config, id: string, now: real) {
    Key(c, Matches, id) in table && now < table[Key(c, Matches, id)].expiresAt
  }

  /** The entry is the i-th match kept. */
  predicate MadeAs(w: World, log: Log, table: Table, c: Config, id: string, i: nat) {
    var k := Key(c, Matches, id);
    k in table && MatchFrom(log.matches, k, table[k].value, WrittenAt(w, k, table[k]), i)
  }

  /** The entry, the i-th match kept, is the result; it is one for the media type it was made for. */
  ghost predicate UsedAs(
    w: World, log: Log, table: Table, c: Config, id: string, result: Option<string>, now: real, i: nat)
  {
    MadeAs(w, log, table, c, id, i) && var m := log.matches[i];
    && result == Some(m.plexId) && OwnMatch(w, c, id, m.kind, result, now)
    && (|Split(id, ':')| != 3 ==> m.kind == Movie)
  }

  predicate HoldsMatch(table: Table, c: Config, id: string, plexId: string, expiresAt: real) {
    var k := Key(c, Matches, id);
    k in table && table[k] == Entry(Text(plexId), expiresAt)
  }

  lemma FreshMatch(w: World, c: Config, id: string, kind: Kind, result: Option<string>, now: real)
    requires Matched(w, c, id, kind, result, now, 0)
    ensures MatchUsed(w, c, id, kind, result, now, 0) && OwnMatch(w, c, id, kind, result, now)
    ensures |Split(id, ':')| != 3 && kind == Series ==> result == None
    ensures result.Some? && result != Some("") ==> Holds(w, Made(c, id, kind, result.value, now))
  {
    assert Within(now, now, w.ttl.match_);
  }

  lemma KeptEntry(w: World, log: Log, k: Key, m: Made)
    requires k == Key(m.config, Matches, m.id) && log.matches != [] && log.matches[|log.matches| - 1] == m
    ensures EntryOk(w, log, k, Entry(Text(m.plexId), m.at + w.ttl.match_ as real))
  {
    var e := Entry(Text(m.plexId), m.at + w.ttl.match_ as real);
    assert WrittenAt(w, k, e) == m.at;
    assert MatchFrom(log.matches, k, e.value, m.at, |log.matches| - 1);
  }

  /** A match made now is kept under its id for the match lifetime. */
  method KeepMatch(cache: MemoryCache, w: World, ghost log: Log, m: Made) returns (ghost log': Log)
    requires Sound(w, log, cache.table, m.at) && Holds(w, m)
    modifies cache
    ensures Sound(w, log', cache.table, m.at)
    ensures log' == if w.ttl.match_ > 0 then AddMade(log, m) else log
    ensures cache.table == if w.ttl.match_ == 0 then old(cache.table)
                           else old(cache.table)[MatchKey(m) := Entry(Text(m.plexId), m.at + w.ttl.match_ as real)]
  {
    hide Sound, Holds, EntryOk;
    var key := Key(m.config, Matches, m.id);
    log' := log;
    if w.ttl.match_ > 0 {
      log' := AddMade(log, m);
      SoundMade(w, log, cache.table, m.at, m);
      KeptEntry(w, log', key, m);
      SoundSet(w, log', cache.table, m.at, key, Text(m.plexId));
    }
    cache.Set(key, Text(m.plexId), w.ttl.match_, m.at);
  }

  /**
    The match of an IMDb id. A live entry is used as it is, for whichever media type it
    was made; otherwise the match is made now, and kept if there is one.
   */
  method StremioToPlexId(
    cache: MemoryCache, w: World, ghost log: Log, c: Config, id: string, kind: Kind, now: real)
    returns (result: Option<string>, ghost log': Log)
    requires Sound(w, log, cache.table, now)
    modifies cache
    ensures Sound(w, log', cache.table, now) && Extends(log, log') && log'.served == log.served
    ensures MatchUsed(w, c, id, kind, result, now, 0) && result != Some("")
    ensures LiveMatch(old(cache.table), c, id, now) ==>
              && cache.table == old(cache.table) && log' == log
              && exists i :: UsedAs(w, log, old(cache.table), c, id, result, now, i)
    ensures !LiveMatch(old(cache.table), c, id, now) ==>
              && Matched(w, c, id, kind, result, now, 0)
              && (if result.Some? && w.ttl.match_ > 0
                  then log' == AddMade(log, Made(c, id, kind, result.value, now))
                       && HoldsMatch(cache.table, c, id, result.value, now + w.ttl.match_ as real)
                  else log' == log)
    ensures |Split(id, ':')| != 3 && kind == Movie ==> OwnMatch(w, c, id, Movie, result, now)
    ensures |Split(id, ':')| != 3 && kind == Series ==> (result.Some? <==> LiveMatch(old(cache.table), c, id, now))
  {
    hide Matched, Sound, EntryOk, Holds, Split, OwnMatch, MatchUsed;
    log' := log;
    var key := Key(c, Matches, id);
    ghost var before := cache.table;
    SoundDrop(w, log, before, now, key);
    var cached := cache.Get(key, now);
    if cached.Some? {
      ghost var i := MatchEntry(w, log, before, now, key);
      KeptMatchUsed(w, log.matches[i], kind, now);
      assert UsedAs(w, log, before, c, id, Some(cached.value.text), now, i);
      return Some(cached.value.text), log;
    }
    result := ComputeMatch(cache, w, log, c, id, kind, now);
    FreshMatch(w, c, id, kind, result, now);
    if result.Some? {
      log' := KeepMatch(cache, w, log, Made(c, id, kind, result.value, now));
    }
  }

  // ---- resolving ----

  method ResolveRatingKey(
    cache: MemoryCache, w: World, ghost log: Log, c: Config, kind: Kind, value: string, now: real)
    returns (media: seq<Media>)
    requires Sound(w, log, cache.table, now)
    modifies cache
    ensures Sound(w, log, cache.table, now)
    ensures RatingKeyResolved(w, c, kind, value, media, now, 0)
  {
    hide Sound, EntryOk, SeenRatingKey, SeenLeaves, StreamFrom, MatchFrom, Built, Split;
    var parts := Split(value, ':');
    if kind != Series || |parts| != 3 {
      media := GetMediaByRatingKey(cache, w, log, c, value, now);
      return;
    }
    var shows := GetMediaByRatingKey(cache, w, log, c, parts[0], now);
    media := [];
    if shows != [] {
      var episodes := GetAllEpisodes(cache, w, log, c, shows[0].key, now);
      var found := FindEpisode(episodes, parts[1], parts[2]);
      FoundFirst(episodes, parts[1], parts[2]);
      if found.Some? && found.value.ratingKey != "" {
        media := GetMediaByRatingKey(cache, w, log, c, found.value.ratingKey, now);
      }
    }
    assert EpisodeOf(w, c, shows, parts[1], parts[2], media, now, 0);
  }

  /** A malformed id, no public URL for play links, or a version without a field its streams need. */
  datatype HttpError = NotFoundStatus | NoPublicUrl | BuildFailed

  method ResolveStreamMedia(
    cache: MemoryCache, w: World, ghost log: Log, c: Config, kind: Kind, mediaId: string, now: real)
    returns (r: Result<seq<Media>, HttpError>, ghost log': Log)
    requires Sound(w, log, cache.table, now)
    modifies cache
    ensures Sound(w, log', cache.table, now) && Extends(log, log') && log'.served == log.served
    ensures r.Err? <==> Dispatch(mediaId).NotFound?
    ensures r.Err? ==> r.error == NotFoundStatus
    ensures r.Ok? ==> Resolved(w, c, kind, mediaId, r.value, now, 0)
  {
    hide Sound, EntryOk, SeenGuid, MatchUsed, RatingKeyResolved, StreamFrom, MatchFrom, Built;
    log' := log;
    var lookup := Dispatch(mediaId);
    match lookup {
      case ByImdb(id) =>
        var plexId;
        plexId, log' := StremioToPlexId(cache, w, log, c, id, kind, now);
        if plexId.None? {
          assert MatchResolved(w, c, id, kind, [], now, 0);
          return Ok([]), log';
        }
        var found := GetMedia(cache, w, log', c, plexId.value, false, now);
        assert MatchResolved(w, c, id, kind, found, now, 0);
        return Ok(found), log';
      case ByRatingKey(value) =>
        var found := ResolveRatingKey(cache, w, log, c, kind, value, now);
        return Ok(found), log';
      case ByGuid(guid) =>
        var found := GetMedia(cache, w, log, c, guid, false, now);
        return Ok(found), log';
      case NotFound =>
        return Err(NotFoundStatus), log;
    }
  }
}
