/** The stream endpoint over its caches: which answers it gives, and how old they are. */
module StreamEndpoint {
  import opened Wrappers
  import opened PlexIds
  import opened PlexReads
  import opened PlexCaches
  import CacheKeys
  import PyText
  import ScrubExact
  import StreamCache

  // ---- what a served text is ----

  /** The i-th logged response has this key, was built less than a lifetime ago, and this is it read back. */
  predicate Replayed(w: World, log: Log, key: Key, text: string, now: real, i: nat) {
    i < |log.served| && var s := log.served[i];
    && StreamKey(s.request) == key && Within(s.at, now, w.ttl.stream)
    && text == ScrubExact.RoundTrip(s.text, key.owner.token)
  }

  /**
    A text printed for this very request, with play links on its base, from Plex data that
    is fresh but for the lifetimes of the caches and `extra`.
   */
  ghost predicate Answers(w: World, q: Request, text: string, now: real, extra: nat) {
    (q.config.usesProxy ==> q.base.Some?)
    && var links := if q.config.usesProxy then Some(q.base.value + q.path + "/play") else None;
       exists media :: Resolved(w, q.config, q.kind, q.mediaId, media, now, extra)
                       && w.print_(q.config, media, links) == Some(text)
  }

  /** The same, with play links on some base. */
  ghost predicate AnswersOnSomeBase(w: World, q: Request, text: string, now: real, extra: nat) {
    exists base :: Answers(w, q.(base := base), text, now, extra)
  }

  /** Two requests whose configuration paths are apart behind colons. */
  predicate PathsApart(q: Request, q': Request) {
    CacheKeys.Apart(ConfigPath(q), ConfigPath(q'))
  }

  /** The response comes back from the cache as it was built; `ScrubRoundTripIff` says when. */
  predicate Returns(s: Served) {
    ScrubExact.RoundTrip(s.text, s.request.config.token) == s.text
  }

  /** All logged responses of the configuration return, and their paths are apart from this one's. */
  predicate Distinguished(log: Log, q: Request) {
    forall i :: 0 <= i < |log.served| && log.served[i].request.config == q.config ==>
      PathsApart(log.served[i].request, q) && Returns(log.served[i])
  }

  /** The base of play links: the request's on every logged response, or not used. */
  predicate SameBase(log: Log, q: Request) {
    q.config.usesProxy ==>
      forall i :: 0 <= i < |log.served| && log.served[i].request.config == q.config ==>
        log.served[i].request.base == q.base
  }

  lemma PlainReturns(s: Served)
    requires StreamCache.Plain(s.text)
    ensures Returns(s)
  {
    StreamCache.ScrubRoundTrip(s.text, s.request.config.token);
  }

  /** Without the proxy all paths are apart. */
  lemma DirectIsApart(q: Request, q': Request)
    requires q.config == q'.config && !q.config.usesProxy
    ensures PathsApart(q, q')
  {}

  // ---- hits ----

  /** A replayed response is the logged one for this very request: same media type, id and path. */
  lemma HitIsTransparent(w: World, log: Log, q: Request, text: string, now: real, i: nat)
    requires Replayed(w, log, StreamKey(q), text, now, i)
    requires PathsApart(log.served[i].request, q) && Returns(log.served[i])
    ensures var s := log.served[i];
            s.request.config == q.config && s.request.kind == q.kind && s.request.mediaId == q.mediaId
            && ConfigPath(s.request) == ConfigPath(q) && s.text == text
  {
    var r := log.served[i].request;
    CacheKeys.IdentitiesSeparate(
      KindText(r.kind), r.mediaId, ConfigPath(r), KindText(q.kind), q.mediaId, ConfigPath(q));
  }

  /** The configuration path is all that a prefix takes of the path. */
  lemma PrefixOfPath(q: Request, q': Request)
    requires q.config == q'.config && ConfigPath(q) == ConfigPath(q') && HasBase(q)
    ensures PlayPrefix(q) == PlayPrefix(q'.(base := q.base))
  {}

  /** And it takes the base whole: other bases give other prefixes, exactly where there is one. */
  lemma PrefixOfBaseIff(q: Request, base: Option<string>)
    requires HasBase(q) && HasBase(q.(base := base))
    ensures PlayPrefix(q.(base := base)) == PlayPrefix(q) <==> !q.config.usesProxy || base == q.base
  {
    if q.config.usesProxy {
      var tail := q.path + "/play";
      assert PlayPrefix(q).value == q.base.value + tail && PlayPrefix(q.(base := base)).value == base.value + tail;
      SameTail(q.base.value, base.value, tail);
    }
  }

  lemma SameTail(a: string, b: string, tail: string)
    ensures a + tail == b + tail ==> a == b
  {
    if a + tail == b + tail {
      assert a == (a + tail)[..|a|] && b == (b + tail)[..|b|];
    }
  }

  /** A built response answers, for its lifetime, all requests of its key on its own base. */
  lemma BuiltAnswersLater(w: World, s: Served, q: Request, now: real)
    requires Built(w, s) && Within(s.at, now, w.ttl.stream)
    requires s.request.config == q.config && s.request.kind == q.kind && s.request.mediaId == q.mediaId
    requires ConfigPath(s.request) == ConfigPath(q)
    ensures Answers(w, q.(base := s.request.base), s.text, now, w.ttl.stream)
  {
    hide Resolved, ConfigPath;
    var media :| Resolved(w, q.config, q.kind, q.mediaId, media, s.at, 0)
                 && w.print_(q.config, media, PlayPrefix(s.request)) == Some(s.text);
    ResolvedKept(w, q.config, q.kind, q.mediaId, media, s.at, 0, now, w.ttl.stream);
    PrefixOfPath(s.request, q);
  }

  /** So it answers the request on the base it was built on, with data older by at most its lifetime. */
  lemma HitAnswersOnItsBase(w: World, log: Log, q: Request, text: string, now: real, i: nat)
    requires Replayed(w, log, StreamKey(q), text, now, i) && SoundLog(w, log, now)
    requires PathsApart(log.served[i].request, q) && Returns(log.served[i])
    ensures Answers(w, q.(base := log.served[i].request.base), text, now, w.ttl.stream)
  {
    hide Answers, Built, ConfigPath, StreamKey, ScrubExact.RoundTrip;
    HitIsTransparent(w, log, q, text, now, i);
    BuiltAnswersLater(w, log.served[i], q, now);
  }

  /** On the request's own base, if that is the one or none is used. */
  lemma HitAnswers(w: World, log: Log, q: Request, text: string, now: real, i: nat)
    requires Replayed(w, log, StreamKey(q), text, now, i) && SoundLog(w, log, now)
    requires PathsApart(log.served[i].request, q) && Returns(log.served[i])
    ensures AnswersOnSomeBase(w, q, text, now, w.ttl.stream)
    ensures !q.config.usesProxy || log.served[i].request.base == q.base ==> Answers(w, q, text, now, w.ttl.stream)
  {
    hide Answers;
    HitAnswersOnItsBase(w, log, q, text, now, i);
    var base := log.served[i].request.base;
    assert q.(base := q.base) == q;
    if !q.config.usesProxy { DirectIgnoresBase(w, q, base, text, now, w.ttl.stream); }
  }

  lemma DirectIgnoresBase(w: World, q: Request, base: Option<string>, text: string, now: real, extra: nat)
    requires !q.config.usesProxy && Answers(w, q.(base := base), text, now, extra)
    ensures Answers(w, q, text, now, extra)
  {}

  // ---- another base ----

  /** A sound log replays the i-th response, built on base `b`, for a request it is distinguished from others of. */
  ghost predicate ReplayedOn(w: World, log: Log, q: Request, b: string, text: string, now: real, i: nat) {
    && SoundLog(w, log, now) && Distinguished(log, q)
    && Replayed(w, log, StreamKey(q), text, now, i) && log.served[i].request.base == Some(b)
  }

  /** A library without titles, and a printer that tells one prefix from all others. */
  function TellsPrefix(prefix: Option<string>): World {
    var plex := Plex(_ => [], _ => [], _ => [], (_, _) => None);
    World((_, _) => plex, Ttls(1, 1, 1), (_, _, p) => Some(if p == prefix then "here" else "elsewhere"))
  }

  lemma NothingSeen(prefix: Option<string>, c: Config, ratingKey: string, guid: string, onlyFirst: bool)
    ensures SeenRatingKey(TellsPrefix(prefix), c, ratingKey, [], 0.0, 0)
    ensures SeenGuid(TellsPrefix(prefix), c, guid, onlyFirst, [], 0.0, 0)
  {
    var w := TellsPrefix(prefix);
    assert RatingKeyRead(w, c, ratingKey, [], 0.0) && GuidRead(w, c, guid, onlyFirst, [], 0.0);
    assert Within(0.0, 0.0, 0 + w.ttl.metadata);
  }

  lemma NothingMatches(prefix: Option<string>, c: Config, id: string, kind: Kind)
    ensures Matched(TellsPrefix(prefix), c, id, kind, None, 0.0, 0)
  {
    var w := TellsPrefix(prefix);
    var imdb := if kind == Movie then id else PyText.Split(id, ':')[0];
    assert MatcherRead(w, c, imdb, kind, None, 0.0) && Within(0.0, 0.0, 0);
    NothingSeen(prefix, c, "", AgentGuid(imdb), true);
    assert LibraryMatch(w, c, imdb, None, 0.0, 0);
    assert BaseMatch(w, c, imdb, kind, None, 0.0, 0);
  }

  /** Every id but a malformed one resolves to nothing in it. */
  lemma ResolvesToNothing(prefix: Option<string>, c: Config, kind: Kind, mediaId: string)
    requires !Dispatch(mediaId).NotFound?
    ensures Resolved(TellsPrefix(prefix), c, kind, mediaId, [], 0.0, 0)
  {
    var w := TellsPrefix(prefix);
    match Dispatch(mediaId)
    case ByGuid(guid) => NothingSeen(prefix, c, "", guid, false);
    case ByRatingKey(value) =>
      NothingSeen(prefix, c, value, "", false);
      NothingSeen(prefix, c, PyText.Split(value, ':')[0], "", false);
      assert RatingKeyResolved(w, c, kind, value, [], 0.0, 0);
    case ByImdb(id) =>
      NothingMatches(prefix, c, id, kind);
      assert MatchUsed(w, c, id, kind, None, 0.0, 0);
      assert MatchResolved(w, c, id, kind, [], 0.0, 0);
  }

  /** The response built on base `b`, replayed for the request on its own. */
  lemma OtherBaseMisleads(q: Request, b: string)
    requires q.config.usesProxy && q.base != Some(b) && !Dispatch(q.mediaId).NotFound?
    ensures var built := q.(base := Some(b));
            var w, log := TellsPrefix(PlayPrefix(built)), Log([Served(built, "here", 0.0)], []);
            ReplayedOn(w, log, q, b, "here", 0.0, 0) && !Answers(w, q, "here", 0.0, w.ttl.stream)
  {
    var built := q.(base := Some(b));
    var w, s := TellsPrefix(PlayPrefix(built)), Served(built, "here", 0.0);
    ResolvesToNothing(PlayPrefix(built), q.config, q.kind, q.mediaId);
    assert w.print_(q.config, [], PlayPrefix(built)) == Some("here");
    assert Built(w, s);
    HereIsPlain();
    PlainReturns(s);
    assert PathsApart(built, q);
    assert StreamKey(built) == StreamKey(q);
    if HasBase(q) { PrefixOfBaseIff(q, Some(b)); }
  }

  lemma HereIsPlain()
    ensures StreamCache.Plain("here")
  {}

  lemma BuiltIsFound(w: World, s: Served)
    requires Built(w, s)
    ensures !Dispatch(s.request.mediaId).NotFound?
  {}

  lemma ReplayedIsFound(w: World, log: Log, q: Request, b: string, text: string, now: real, i: nat)
    requires ReplayedOn(w, log, q, b, text, now, i)
    ensures !Dispatch(q.mediaId).NotFound?
    ensures !q.config.usesProxy || q.base == Some(b) ==> Answers(w, q, text, now, w.ttl.stream)
  {
    hide Resolved;
    BuiltIsFound(w, log.served[i]);
    HitIsTransparent(w, log, q, text, now, i);
    HitAnswers(w, log, q, text, now, i);
  }

  /**
    Exactly when a replayed response, built on base `b`, answers the request on its own
    base, in every library, for every printer and in every log: there are no proxied play
    links, the bases are one, or the id is malformed and no response was ever built for it.
   */
  lemma ReplayedAnswersIff(q: Request, b: string)
    ensures (forall w, log, text, now, i ::
               ReplayedOn(w, log, q, b, text, now, i) ==> Answers(w, q, text, now, w.ttl.stream))
            <==> !q.config.usesProxy || q.base == Some(b) || Dispatch(q.mediaId).NotFound?
  {
    hide Answers, ReplayedOn, Dispatch;
    forall w, log, text, now, i | ReplayedOn(w, log, q, b, text, now, i)
      ensures !Dispatch(q.mediaId).NotFound?
      ensures !q.config.usesProxy || q.base == Some(b) ==> Answers(w, q, text, now, w.ttl.stream)
    {
      ReplayedIsFound(w, log, q, b, text, now, i);
    }
    if q.config.usesProxy && q.base != Some(b) && !Dispatch(q.mediaId).NotFound? {
      OtherBaseMisleads(q, b);
    }
  }

  // ---- the handler ----

  lemma MissAnswers(w: World, q: Request, media: seq<Media>, text: string, now: real)
    requires HasBase(q) && Resolved(w, q.config, q.kind, q.mediaId, media, now, 0)
    requires w.print_(q.config, media, PlayPrefix(q)) == Some(text)
    ensures Answers(w, q, text, now, 0) && Built(w, Served(q, text, now))
  {}

  /** The media the request stands for now includes a version that lacks a needed field. */
  ghost predicate FailsToPrint(w: World, q: Request, now: real)
    requires HasBase(q)
  {
    exists media :: Resolved(w, q.config, q.kind, q.mediaId, media, now, 0)
                    && w.print_(q.config, media, PlayPrefix(q)) == None
  }

  /** The response cache's read: a live entry, with the token put back. */
  method ReadStream(cache: MemoryCache, w: World, ghost log: Log, q: Request, now: real) returns (r: Option<string>)
    requires Sound(w, log, cache.table, now)
    modifies cache
    ensures Sound(w, log, cache.table, now)
    ensures r.Some? <==> StreamKey(q) in old(cache.table) && now < old(cache.table)[StreamKey(q)].expiresAt
    ensures r.Some? ==> cache.table == old(cache.table)
    ensures r.Some? ==> exists i :: Replayed(w, log, StreamKey(q), r.value, now, i)
    ensures r.Some? && Distinguished(log, q) ==>
              && AnswersOnSomeBase(w, q, r.value, now, w.ttl.stream)
              && (SameBase(log, q) ==> Answers(w, q, r.value, now, w.ttl.stream))
  {
    hide Sound, SoundLog, StreamCache.Scrub, StreamCache.Unscrub, Answers, AnswersOnSomeBase;
    var key := StreamKey(q);
    ghost var before := cache.table;
    SoundDrop(w, log, before, now, key);
    var cached := cache.Get(key, now);
    if cached.None? { return None; }
    SoundEntry(w, log, before, now, key);
    var text := StreamCache.Unscrub(cached.value.text, q.config.token);
    ghost var i: nat :| StreamFrom(log.served, key, cached.value, WrittenAt(w, key, before[key]), i);
    assert Replayed(w, log, key, text, now, i);
    if Distinguished(log, q) {
      LogOfSound(w, log, before, now);
      HitAnswers(w, log, q, text, now, i);
    }
    return Some(text);
  }

  lemma LogOfSound(w: World, log: Log, table: Table, now: real)
    requires Sound(w, log, table, now)
    ensures SoundLog(w, log, now)
  {}

  lemma ServedEntry(w: World, log: Log, s: Served)
    requires log.served != [] && log.served[|log.served| - 1] == s
    ensures var text := StreamCache.Scrub(s.text, s.request.config.token);
            EntryOk(w, log, StreamKey(s.request), Entry(Text(text), s.at + w.ttl.stream as real))
  {
    hide StreamCache.Scrub;
    var text := StreamCache.Scrub(s.text, s.request.config.token);
    var e := Entry(Text(text), s.at + w.ttl.stream as real);
    assert WrittenAt(w, StreamKey(s.request), e) == s.at;
    assert StreamFrom(log.served, StreamKey(s.request), e.value, s.at, |log.served| - 1);
  }

  /** The response cache's write: the text without its token. */
  method WriteStream(cache: MemoryCache, w: World, ghost log: Log, s: Served, now: real) returns (ghost log': Log)
    requires Sound(w, log, cache.table, now)
    requires Built(w, s) && s.at == now
    modifies cache
    ensures log' == AddServed(log, s)
    ensures Sound(w, log', cache.table, now)
    ensures var text := StreamCache.Scrub(s.text, s.request.config.token);
            cache.table == if w.ttl.stream == 0 then old(cache.table)
                           else old(cache.table)[StreamKey(s.request) := Entry(Text(text), now + w.ttl.stream as real)]
  {
    hide Sound, Built, StreamCache.Scrub;
    var key := StreamKey(s.request);
    var value := Text(StreamCache.Scrub(s.text, s.request.config.token));
    log' := AddServed(log, s);
    SoundServed(w, log, cache.table, now, s);
    ServedEntry(w, log', s);
    if w.ttl.stream > 0 { SoundSet(w, log', cache.table, now, key, value); }
    cache.Set(key, value, w.ttl.stream, now);
  }

  /** The stream endpoint; `log'` records the responses it built and the matches it kept. */
  method GetStream(cache: MemoryCache, w: World, ghost log: Log, q: Request, now: real)
    returns (reply: Result<string, HttpError>, hit: bool, ghost log': Log)
    requires Sound(w, log, cache.table, now)
    modifies cache
    ensures Sound(w, log', cache.table, now) && Extends(log, log')
    ensures hit <==> LiveAt(old(cache.table), StreamKey(q), w.ttl.stream, now)
    ensures hit ==> reply.Ok? && log' == log && cache.table == old(cache.table)
    ensures hit ==> exists i :: Replayed(w, log, StreamKey(q), reply.value, now, i)
    ensures hit && Distinguished(log, q) ==>
              && AnswersOnSomeBase(w, q, reply.value, now, w.ttl.stream)
              && (SameBase(log, q) ==> Answers(w, q, reply.value, now, w.ttl.stream))
    ensures !hit && reply.Ok? ==> Answers(w, q, reply.value, now, 0)
    ensures !hit ==> (reply == Err(NotFoundStatus) <==> Dispatch(q.mediaId).NotFound?)
    ensures !hit ==>
              (reply == Err(NoPublicUrl) <==> !Dispatch(q.mediaId).NotFound? && q.config.usesProxy && q.base.None?)
    ensures !hit && reply == Err(BuildFailed) ==> HasBase(q) && FailsToPrint(w, q, now)
    ensures !hit && reply.Ok? ==> log'.served == log.served + [Served(q, reply.value, now)]
    ensures !hit && reply.Ok? && w.ttl.stream > 0 ==>
              var text := StreamCache.Scrub(reply.value, q.config.token);
              StreamKey(q) in cache.table
              && cache.table[StreamKey(q)] == Entry(Text(text), now + w.ttl.stream as real)
    ensures reply.Err? ==> log'.served == log.served
  {
    hide Sound, Built, Answers, AnswersOnSomeBase, Distinguished, SameBase, StreamCache.Scrub, Resolved;
    log' := log;
    if w.ttl.stream > 0 {
      var cached := ReadStream(cache, w, log, q, now);
      if cached.Some? { return Ok(cached.value), true, log; }
    }
    var resolved;
    resolved, log' := ResolveStreamMedia(cache, w, log, q.config, q.kind, q.mediaId, now);
    if resolved.Err? { return Err(resolved.error), false, log'; }
    if q.config.usesProxy && q.base.None? { return Err(NoPublicUrl), false, log'; }
    var text := w.print_(q.config, resolved.value, PlayPrefix(q));
    if text.None? { return Err(BuildFailed), false, log'; }
    MissAnswers(w, q, resolved.value, text.value, now);
    log' := WriteStream(cache, w, log', Served(q, text.value, now), now);
    return Ok(text.value), false, log';
  }

  // ---- whole runs ----

  /** No response spells a placeholder's word. */
  ghost predicate PrintsPlain(w: World) {
    forall c, media, prefix :: w.print_(c, media, prefix).Some? ==> StreamCache.Plain(w.print_(c, media, prefix).value)
  }

  /** Requests of one configuration have paths that are apart. */
  predicate RunApart(qs: seq<Request>) {
    forall j, k :: 0 <= j < |qs| && 0 <= k < |qs| && qs[j].config == qs[k].config ==> PathsApart(qs[j], qs[k])
  }

  /** Requests of one configuration with proxied play links have one base. */
  predicate RunOnOneBase(qs: seq<Request>) {
    forall j, k :: 0 <= j < |qs| && 0 <= k < |qs| && qs[j].config == qs[k].config && qs[k].config.usesProxy ==>
      qs[j].base == qs[k].base
  }

  /** Without the proxy every run is both. */
  lemma DirectRun(qs: seq<Request>)
    requires forall k :: 0 <= k < |qs| ==> !qs[k].config.usesProxy
    ensures RunApart(qs) && RunOnOneBase(qs)
  {
    forall j, k | 0 <= j < |qs| && 0 <= k < |qs| && qs[j].config == qs[k].config ensures PathsApart(qs[j], qs[k]) {
      DirectIsApart(qs[j], qs[k]);
    }
  }

  /** What is logged was asked for before. */
  predicate LoggedFrom(log: Log, qs: seq<Request>) {
    forall i :: 0 <= i < |log.served| ==> log.served[i].request in qs
  }

  lemma BuiltReturns(w: World, s: Served)
    requires PrintsPlain(w) && Built(w, s)
    ensures Returns(s)
  {
    hide Resolved, StreamCache.Plain, Returns;
    var q := s.request;
    var media :| Resolved(w, q.config, q.kind, q.mediaId, media, s.at, 0)
                 && w.print_(q.config, media, PlayPrefix(q)) == Some(s.text);
    PlainReturns(s);
  }

  /** In a run of requests that are apart, what is logged is distinguished from each of them. */
  lemma RunDistinguished(w: World, log: Log, qs: seq<Request>, q: Request, now: real)
    requires PrintsPlain(w) && SoundLog(w, log, now) && LoggedFrom(log, qs) && q in qs && RunApart(qs)
    ensures Distinguished(log, q) && (RunOnOneBase(qs) ==> SameBase(log, q))
  {
    hide Built, Returns, PathsApart;
    forall i | 0 <= i < |log.served| ensures Returns(log.served[i]) {
      BuiltReturns(w, log.served[i]);
    }
  }

  /** For direct requests that needs nothing of the others. */
  lemma DirectDistinguished(w: World, log: Log, q: Request, now: real)
    requires PrintsPlain(w) && SoundLog(w, log, now) && !q.config.usesProxy
    ensures Distinguished(log, q) && SameBase(log, q)
  {
    hide Built, Returns;
    forall i | 0 <= i < |log.served| ensures Returns(log.served[i]) {
      BuiltReturns(w, log.served[i]);
    }
  }

  lemma ExtraIsSlack(w: World, q: Request, text: string, now: real)
    requires Answers(w, q, text, now, 0)
    ensures Answers(w, q, text, now, w.ttl.stream) && AnswersOnSomeBase(w, q, text, now, w.ttl.stream)
  {
    hide Resolved;
    var links := if q.config.usesProxy then Some(q.base.value + q.path + "/play") else None;
    var media :| Resolved(w, q.config, q.kind, q.mediaId, media, now, 0)
                 && w.print_(q.config, media, links) == Some(text);
    ResolvedKept(w, q.config, q.kind, q.mediaId, media, now, 0, now, w.ttl.stream);
    assert Resolved(w, q.config, q.kind, q.mediaId, media, now, w.ttl.stream);
    assert Answers(w, q, text, now, w.ttl.stream) && q.(base := q.base) == q;
    assert Answers(w, q.(base := q.base), text, now, w.ttl.stream);
  }

  /** An answer to the k-th request at its time, on its own base if the run has one, or the error due to it. */
  ghost predicate AnswersKth(w: World, qs: seq<Request>, k: nat, reply: Result<string, HttpError>, now: real) {
    k < |qs| && var q := qs[k];
    match reply
    case Ok(text) =>
      && AnswersOnSomeBase(w, q, text, now, w.ttl.stream)
      && (RunOnOneBase(qs) ==> Answers(w, q, text, now, w.ttl.stream))
    case Err(NotFoundStatus) => Dispatch(q.mediaId).NotFound?
    case Err(NoPublicUrl) => q.config.usesProxy && q.base.None?
    case Err(BuildFailed) => HasBase(q) && FailsToPrint(w, q, now)
  }

  predicate Nondecreasing(times: seq<real>) {
    forall j, k :: 0 <= j <= k < |times| ==> times[j] <= times[k]
  }

  /** One request of a run. */
  method ServeNext(
    cache: MemoryCache, w: World, ghost log: Log, ghost qs: seq<Request>, q: Request, ghost k: nat, now: real)
    returns (reply: Result<string, HttpError>, ghost log': Log)
    requires k < |qs| && q == qs[k] && PrintsPlain(w) && RunApart(qs)
    requires Sound(w, log, cache.table, now) && LoggedFrom(log, qs)
    modifies cache
    ensures Sound(w, log', cache.table, now) && LoggedFrom(log', qs)
    ensures AnswersKth(w, qs, k, reply, now)
  {
    hide Sound, Answers, AnswersOnSomeBase, RunApart, RunOnOneBase, PrintsPlain, Distinguished, SameBase;
    LogOfSound(w, log, cache.table, now);
    RunDistinguished(w, log, qs, q, now);
    var hit;
    reply, hit, log' := GetStream(cache, w, log, q, now);
    if !hit && reply.Ok? { ExtraIsSlack(w, q, reply.value, now); }
  }

  /**
    A run from an empty cache: every response answers its own request at its own time, from
    data that is fresh but for the lifetimes of the caches, if requests of one configuration
    are apart; with play links included if they share their base.
   */
  method ServeAll(w: World, qs: seq<Request>, times: seq<real>) returns (replies: seq<Result<string, HttpError>>)
    requires |times| == |qs| && Nondecreasing(times) && PrintsPlain(w) && RunApart(qs)
    ensures |replies| == |qs| && forall k :: 0 <= k < |qs| ==> AnswersKth(w, qs, k, replies[k], times[k])
  {
    hide Sound, AnswersKth, RunApart, PrintsPlain, LoggedFrom;
    var cache := new MemoryCache();
    ghost var log := Log([], []);
    replies := [];
    NothingLogged(qs);
    if qs != [] { SoundEmpty(w, times[0]); }
    for k := 0 to |qs|
      invariant |replies| == k && LoggedFrom(log, qs)
      invariant k < |qs| ==> Sound(w, log, cache.table, times[k])
      invariant forall j :: 0 <= j < k ==> AnswersKth(w, qs, j, replies[j], times[j])
    {
      var reply;
      reply, log := ServeNext(cache, w, log, qs, qs[k], k, times[k]);
      replies := replies + [reply];
      if k + 1 < |qs| { SoundLater(w, log, cache.table, times[k], times[k + 1]); }
    }
  }

  lemma NothingLogged(qs: seq<Request>)
    ensures LoggedFrom(Log([], []), qs)
  {}
}
