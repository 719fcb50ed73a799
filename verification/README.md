# Verification of Plexio's caching, session, playback and id logic

Plexio turns a Plex server into a Stremio addon. This project models the parts of it that
keep state or transform text, and proves what they promise over every input, every run
and every interleaving:

- the session table, as a machine whose steps are single SQL statements of any number of
  concurrent calls (`Sessions`, `SessionRuns`, `SessionDedupe`, `SessionProgress`), and the
  store's methods (`SessionStore`);
- the token-free form in which stream responses are cached, exactly which responses come
  back from it and which tokens it keeps out (`TextReplace`, `PercentEncoding`,
  `StreamCache`, `ScrubExact`, `ScrubLeaks`), and the cache keys (`CacheKeys`);
- the caches stacked under a stream response, and how old an answer can be (`PlexReads`,
  `PlexCaches`, `StreamEndpoint`);
- one proxied playback: byte streamer, heartbeat and stop event (`Playback`,
  `PlaybackProgress`), the positions it reports (`Position`) and the headers they start
  from (`Headers`);
- the sliding-window rate limiter against the log of all its admissions (`RateLimit`);
- the "Recently Added" merge (`RecentlyAdded`), version ordering and stream generation
  (`Versions`, `VersionOrder`), media ids (`PlexIds`, over `Base64Url`, `Base64Texts`, `Utf8`
  and `PyText`), and collection catalogs and connection lists (`AddonConfig`).

Time is a real number read once per request; one request takes no time of its own, and
requests follow each other at times that never go back. Encryption and decryption are
inverse, a plain JSON text is never a valid encrypted token, SHA-256 is injective, and
`uuid4` gives an id the table never held.

## What the code does not promise in general

Each of these is proved with a concrete or constructed instance, next to the exact
condition under which the promise holds.

- A token that begins or ends with an underscore can be left in any cached response
  (`ScrubLeaks.UnderscoreAtTheEdgeLeaks`, `ScrubLeaks.NothingStoredIff`). The docstring at
  `plexio/stream_cache.py:82` promises more.
- A response with a field that spells a placeholder comes back changed
  (`ScrubExact.PlaceholderInResponseIsLost`, `ScrubExact.ScrubRoundTripIff`); texts without
  the placeholders' words never do (`StreamCache.ScrubRoundTrip`).
- Two requests for one configuration can share a cache identity: the configuration segment
  is decoded leniently, and an installation named `stream` empties the configuration path
  (`CacheKeys.RoutesCollide`). `CacheKeys.RoutesApartIff`, `LegacyApartIff` and
  `SessionsApartIff` say exactly which requests do not.
- With the proxy and no fixed base URL, a cached response carries the play links of the
  request that built it to requests on another host (`StreamEndpoint.OtherBaseMisleads`,
  `StreamEndpoint.ReplayedAnswersIff`).
- A client that was forced out of a full rate limiter can be admitted more than its limit
  (`RateLimit.EvictedClientExceeds`, `RateLimit.WindowHolds`).
- The key of a kept IMDb match does not hold the media type, so a film's match can answer a
  series request and the reverse (`PlexReads.FilmMisleadsSeries`,
  `PlexReads.SeriesMisleadsFilm`, `PlexReads.KeptMatchOwnIff`).
- A row stored before hashes existed leads to two sessions with one hash
  (`SessionDedupe.TwinRun`, `SessionDedupe.HashesStayUniqueIff`).
- "Recently Added" is the wrong page once something is skipped and a second section exists
  (`RecentlyAdded.TwinsWrong`, `RecentlyAdded.RowExactIff`), and paging through it can leave
  items out (`RecentlyAdded.EveryItemShownIff`).
- A configured section of type `episode` makes the manifest raise
  (`AddonConfig.CollectionCatalogs`).

## Model

| member | source | states |
|---|---|---|
| TextReplace.RoundTripIff | plexio/stream_cache.py:88-98 | for any text and any non-empty token and placeholder: replacing one by the other and back is the identity exactly when no position the scan leaves alone reads as the placeholder, read off the text alone: it starts with the placeholder, or with the placeholder less a border directly before the next token |
| TextReplace.ReadsAsIff | plexio/stream_cache.py:88-98 | that reading of the text is what the scan back finds after the replacement |
| TextReplace.FirstMisreading | plexio/stream_cache.py:88-98 | where a round trip first goes wrong, the text reads as the placeholder and comes back with the token there |
| TextReplace.ReplaceFramed | plexio/stream_cache.py:88-98 | a character that the pattern lacks splits a text into parts that are replaced on their own |
| TextReplace.NoCoreUnambiguous | plexio/stream_cache.py:16-17 | that condition holds for every token when the text lacks the placeholder without its last `b` characters, `b` bounding the placeholder's proper borders |
| TextReplace.SurvivorWasThere | plexio/stream_cache.py:88-89 | any text disjoint from the placeholder found after a replacement was already there, at a position the scan did not match |
| TextReplace.NoLeakIff | plexio/stream_cache.py:88-89 | over all texts: the replaced word never reappears exactly when it overlaps its replacement nowhere |
| TextReplace.LeakingText | plexio/stream_cache.py:88-89 | every overlap gives a text, made of the word's own characters, in which the word reappears |
| TextReplace.OccurrencesAfter | plexio/stream_cache.py:88-98 | a replacement changes the count of every character by a fixed amount per match |
| TextReplace.MatchesNotLost | plexio/stream_cache.py:88-98 | the way back finds at least as many placeholders as the way in wrote |
| TextReplace.SecondReadingIdle | plexio/stream_cache.py:96-101 | two readings undo one writing exactly when the first does and the second finds nothing |
| StreamCache.ScrubRoundTrip | plexio/stream_cache.py:78-102 | for every token, changed by percent-encoding or not, reading undoes writing on every text that spells neither placeholder's word |
| ScrubExact.ScrubRoundTripIff | plexio/stream_cache.py:78-102 | exactly when the two writes and two reads restore a text, for every token that imitates no placeholder (or is told from both by some character): nothing left alone reads as a placeholder in either pass, and for a token that encoding leaves alone the second placeholder is absent |
| ScrubExact.FourPassesIff | plexio/stream_cache.py:86-101 | for a token that percent-encoding changes: a mistake of the inner passes is never mended by the outer ones, so the four passes restore a text exactly when each pair does |
| ScrubExact.ThreePassesIff | plexio/stream_cache.py:89-101 | for one it leaves alone: the extra reading restores nothing either, so it must find nothing |
| ScrubExact.ReadsAsPlaceholderIff | plexio/stream_cache.py:16-17 | a text reads as either placeholder exactly if it starts with it, or with it less one or two trailing underscores directly before the token |
| ScrubExact.OrdinaryTokensAreClear | plexio/stream_cache.py:16-17 | every token that does not begin with an underscore imitates no placeholder |
| ScrubExact.OrdinaryTokensAreDistinctive | plexio/stream_cache.py:16-17 | every token with a lower-case letter, digit or hyphen is told from both placeholders |
| ScrubExact.PassesUndoneIff | plexio/stream_cache.py:86-101 | for every token at all: when each reading pass gives back what its writing pass was given |
| ScrubExact.ResponseReturnsIff | plexio/stream_cache.py:78-102 | a response with a string field comes back unchanged exactly when the field and what stands around it do |
| ScrubExact.PlaceholderInResponseIsLost | plexio/stream_cache.py:78-102 | a response with a field that names the placeholder comes back changed, whatever else it holds |
| ScrubLeaks.NothingStored | plexio/stream_cache.py:78-89 | a token that overlaps no placeholder, nor does its encoded form, is stored in neither form |
| ScrubLeaks.NothingStoredIff | plexio/stream_cache.py:78-89 | for every token without a percent sign: no text, and no response around any field, leaves either form of it in the cache exactly when the token overlaps its placeholder nowhere and an encoded form of its own neither one |
| ScrubLeaks.LeakingResponse | plexio/stream_cache.py:78-89 | otherwise, whatever the rest of the response, a field made of the token's own and of unreserved characters leaves it there |
| ScrubLeaks.UnderscoreAtTheEdgeLeaks | plexio/stream_cache.py:78-89 | so a token with an underscore at either end can be left in any response |
| PercentEncoding.PercentIfChanged | plexio/stream_cache.py:86 | a text that percent-encoding changes contains a percent sign afterwards |
| PercentEncoding.QuoteJoin | plexio/stream_cache.py:86 | percent-encoding works part by part |
| PercentEncoding.UnquoteQuote | plexio/stream_cache.py:86 | percent-decoding (section 2.1 of RFC 3986, upper-case digits) reads every encoded text back, so no two texts are encoded alike |
| PercentEncoding.KeptIff | plexio/stream_cache.py:86 | exactly letters, digits and the marks `-._~` are left as they are |
| CacheKeys.KeysSeparate | plexio/stream_cache.py:30-32 | equal cache keys have equal namespace, resource and identity |
| CacheKeys.IdentitiesSeparate | plexio/routers/addon.py:567-571 | requests whose configuration paths do not stand behind a colon in each other share an identity only if media type, id and path are equal, though ids and paths may hold colons |
| CacheKeys.IdentitiesSeparateIff | plexio/routers/addon.py:564-571 | two configuration paths keep all requests apart exactly when neither stands behind a colon in the other |
| CacheKeys.ConfigPathOfRequests | plexio/routers/addon.py:566 | the configuration path of every session and legacy request; a segment named `stream` cuts it short |
| CacheKeys.RoutesCollide | plexio/routers/addon.py:549-571 | for any configuration, installation and id, two legacy requests for that configuration with different ids that share an identity |
| CacheKeys.SameDepthApart | plexio/routers/addon.py:566 | paths that start with a slash and hold equally many are apart |
| CacheKeys.RoutesApartIff | plexio/routers/addon.py:545-566 | two requests, of either shape, keep their identities apart for all ids exactly when neither path is empty with the other ending in a colon, nor one segment behind a first segment that ends in a colon |
| CacheKeys.LegacyApartIff | plexio/routers/addon.py:549-566 | legacy requests whose configuration segments are not `stream` are apart exactly unless one installation is named `stream`, the other is not, and the other's configuration segment ends in a colon |
| CacheKeys.SessionsApartIff | plexio/routers/addon.py:545-566 | session requests are apart exactly unless one session is named `stream`, the other is not, and the other ends in a colon |
| PlexReads.SeenGuidKept | plexio/stream_cache.py:54-75 | media read for a guid and kept again is older by at most the lifetime it was kept for |
| PlexReads.FindEpisodeIff | plexio/plex/media_server_api.py:374-376 | the search gives an episode exactly when some index holds it with both numbers and no earlier one does, and none exactly when no episode has both |
| PlexReads.WantedParts | plexio/plex/media_server_api.py:174-178 | shows, movies and episodes are kept, one by one and in order |
| PlexReads.FetchAllParts | plexio/plex/media_server_api.py:234-245 | the media of all sections one after the other, each section read by its rating key |
| PlexReads.FetchGuidParts | plexio/plex/media_server_api.py:227-245 | a guid stands for what its wanted sections hold, or, asked for the first only, for what the first of them holds |
| PlexReads.NoSections | plexio/plex/media_server_api.py:227-245 | and for nothing without a wanted section |
| PlexReads.EpisodeMatchKept | plexio/plex/media_server_api.py:422-441 | the same for every episode list an episode match went through |
| PlexReads.MatchUsedKept | plexio/plex/media_server_api.py:379-451 | the same for a match, computed or itself kept for its own lifetime |
| PlexReads.KeptMatchOwnIff | plexio/plex/media_server_api.py:390-451 | a match kept for one media type is, in every library and at every time, one that a request for another gets exactly if the types are the same, or it was made for a series and the id names no episode |
| PlexReads.FilmMisleadsSeries | plexio/plex/media_server_api.py:390-401 | a library and, for every id, a film's match that a series request is given and would never get |
| PlexReads.SeriesMisleadsFilm | plexio/plex/media_server_api.py:390-401 | the same the other way round, for every id that names an episode |
| PlexReads.RatingKeyResolvedKept | plexio/routers/addon.py:439-495 | the same for rating-key ids, by way of show, episodes and episode |
| PlexReads.ResolvedKept | plexio/routers/addon.py:498-542 | composition: a resolved answer kept for less than a lifetime rests on reads at most that much older |
| PlexCaches.KeyTextsDiffer | plexio/stream_cache.py:20-32 | printed cache keys are equal only for the same configuration, resource and identity, so the table may be keyed by those |
| PlexCaches.MemoryCache.constructor | plexio/cache.py:40-41 | the table starts empty |
| PlexCaches.MemoryCache.Set | plexio/cache.py:43-46 | a lifetime of zero stores nothing, any other the value with its expiry; nothing else changes |
| PlexCaches.MemoryCache.Get | plexio/cache.py:48-56 | a hit exactly before the expiry, changing nothing, so renewing nothing; a miss leaves no entry |
| PlexCaches.SoundLater | plexio/cache.py:43-56 | what every entry of the table rests on stays true as time passes |
| PlexCaches.SoundThrough | plexio/stream_cache.py:54-75 | and through a cached read, on either branch |
| PlexCaches.SoundServed | plexio/routers/addon.py:613-627 | and when a response is built, which becomes one that entries may replay |
| PlexCaches.SoundMade | plexio/plex/media_server_api.py:445-450 | and when a match is kept, with the media type it was made for |
| PlexCaches.CachedModelList | plexio/stream_cache.py:54-75 | hit exactly on a live entry with a positive lifetime; otherwise the loader's value, stored under the key |
| PlexCaches.GetMediaByRatingKey | plexio/plex/media_server_api.py:182-205 | the media is what Plex answered for the key less than the metadata lifetime ago, a live entry is used and a loaded one kept, and the table stays sound |
| PlexCaches.GetMedia | plexio/plex/media_server_api.py:208-260 | the same for a guid, over its sections or the first one |
| PlexCaches.GetAllEpisodes | plexio/plex/media_server_api.py:263-296 | the same for the episodes of a show |
| PlexCaches.MatchBase | plexio/plex/media_server_api.py:303-352 | the matcher's guid read now if it is not empty, else `com.plexapp.agents.imdb://`, the id and `?lang=en` if the library had that guid within the metadata lifetime; never an empty guid |
| PlexCaches.FindEpisodeGuid | plexio/plex/media_server_api.py:422-441 | the first show whose list has the episode decides, by the first index that holds both numbers, over lists within the metadata lifetime; none exactly when no list has it with a guid |
| PlexCaches.ComputeMatch | plexio/plex/media_server_api.py:394-441 | a match is made as the id's form and the media type demand |
| PlexCaches.KeepMatch | plexio/plex/media_server_api.py:445-450 | the match is stored under its id for the match lifetime, and logged with its media type |
| PlexCaches.StremioToPlexId | plexio/plex/media_server_api.py:379-451 | a live kept match is used as it is, one made for the logged media type less than the match lifetime ago; otherwise the match is computed now and kept, unless there is none; for an id not of three parts a film always gets its own, and a series gets one exactly when a live entry is there |
| PlexCaches.ResolveRatingKey | plexio/routers/addon.py:439-495 | the media a rating-key id stands for, within the metadata lifetime |
| PlexCaches.ResolveStreamMedia | plexio/routers/addon.py:498-542 | 404 exactly for malformed guid ids; otherwise the media the id's family stands for |
| StreamEndpoint.HitIsTransparent | plexio/routers/addon.py:562-596 | a replayed response is the logged one of the same configuration, media type, id and path, character for character, if the paths are apart and the response is one that returns |
| StreamEndpoint.HitAnswersOnItsBase | plexio/routers/addon.py:573-596 | so it answers this request, on the base it was built on, with data older by at most the stream lifetime |
| StreamEndpoint.HitAnswers | plexio/routers/addon.py:573-596 | and on this request's own base if that is the one or none is used |
| StreamEndpoint.PrefixOfBaseIff | plexio/routers/addon.py:610-613 | another base gives the same play prefix exactly without the proxy |
| StreamEndpoint.ReplayedAnswersIff | plexio/routers/addon.py:566-613 | a response built on one base, replayed for a request on its own, answers it in every library, for every printer and log, exactly without proxied play links, with one base, or for a malformed id |
| StreamEndpoint.OtherBaseMisleads | plexio/routers/addon.py:566-613 | a library, a printer and a log that fail, for every other proxied request and base |
| StreamEndpoint.ReadStream | plexio/routers/addon.py:573-596 | a hit exactly on a live entry, giving a logged response back |
| StreamEndpoint.WriteStream | plexio/routers/addon.py:621-627 | stores the scrubbed text and keeps the table sound |
| StreamEndpoint.GetStream | plexio/routers/addon.py:553-641 | a miss answers this request from data within the lifetimes of the metadata and match caches, or fails as it must: 404 for a malformed id, no public URL for proxied links, a version without a needed field; a hit answers it with data older by at most the stream lifetime when paths are apart and logged responses return, play links included if the base is one |
| StreamEndpoint.DirectDistinguished | plexio/routers/addon.py:573-596 | without the proxy those conditions hold of every sound log whose texts spell no placeholder's word |
| StreamEndpoint.RunDistinguished | plexio/routers/addon.py:573-596 | with it they hold of every log of a run whose paths are apart |
| StreamEndpoint.DirectRun | plexio/routers/addon.py:564-566 | every run of direct requests is apart and on one base |
| StreamEndpoint.ServeNext | plexio/routers/addon.py:553-641 | one request of such a run keeps the table sound and answers its own request |
| StreamEndpoint.ServeAll | plexio/routers/addon.py:553-641 | from an empty cache, for any requests that are apart at any nondecreasing times: every reply answers its own request at its own time, from media read less than stream plus metadata lifetime before and, for an IMDb id, a match whose library reads are less than stream plus match plus metadata lifetime old, or is the error due to it |
| PlexIds.GuidIdIsNotRatingKey | plexio/models/utils.py:134-168 | no guid's id is ever classified as a rating-key id |
| PlexIds.GuidDispatch | plexio/routers/addon.py:507-542 | every non-empty guid's id is dispatched to that guid; the empty one's is refused |
| PlexIds.RatingKeyDispatch | plexio/routers/addon.py:524-532 | rating keys get an id exactly when they are ASCII digits, and that is dispatched to the key |
| PlexIds.EpisodeDispatch | plexio/routers/addon.py:448-459 | the episode form is dispatched as a rating key and splits into show, season and episode |
| PlexIds.IdsAreInjective | plexio/models/utils.py:134-174 | the two id families never meet and each is injective |
| PlexIds.DispatchIff | plexio/routers/addon.py:498-542 | every media id by its form: `tt` ids as they are, `plexio:rk-` before one number or three as a rating key, `plexio:` before the base64 of a text as that guid and otherwise refused, any other id as a guid |
| PyText.SplitIff | plexio/models/utils.py:160-168 | splitting gives the one list of parts without the separator that joins back to the text |
| PyText.SplitOnceIff | plexio/plex/playback.py:134-136 | splitting once gives the text ahead of the first separator and all behind it, or the whole text |
| PlexIds.PartKeySurvives | plexio/plex/playback.py:27-29 | every part key comes back from its play URL segment, which holds no slash and no padding |
| Base64Url.RoundTrip | plexio/models/utils.py:134-151 | for every byte string: URL characters only, never one over a multiple of four, exactly the stripped padding restored, and the bytes decoded back |
| Base64Url.LenientRoundTrip | plexio/plex/playback.py:27-29 | the lenient decoder reads back what the encoder wrote |
| Base64Url.FourSkipped | plexio/dependencies.py:33-34 | it reads the same text with four characters behind it that it skips |
| Base64Url.FirstCharacter | plexio/models/utils.py:134-136 | the first character carries the top six bits of the first byte |
| Base64Texts.PaddedIff | plexio/models/utils.py:145-149 | the strict decoder accepts exactly whole groups of four characters, of the alphabet or `+` or `/`, with at most two padding characters, at the end |
| Base64Texts.UnpaddedIff | plexio/models/utils.py:143-149 | so a text without padding decodes exactly when all its characters are accepted and none is left over alone |
| Base64Texts.LenientIff | plexio/plex/playback.py:27-29 | the lenient decoder accepts an ASCII text exactly when its characters of the alphabet make whole groups, with the padding of the whole text |
| Utf8.DecodeIff | plexio/models/utils.py:148-149 | strict decoding accepts exactly the encodings of texts |
| Utf8.FirstByteLeads | plexio/models/utils.py:135 | an encoded text never starts with a continuation byte |
| Sessions.StepInv | plexio/sessions.py:108-205 | every statement of every call keeps the lock discipline and keeps each pending write an older reading of its row |
| Sessions.StepEvolves | plexio/sessions.py:146-180 | a row that survives a step keeps its configuration, stays encrypted if it was, and only ever gains its own hash |
| Sessions.StepUsed | plexio/sessions.py:112-144 | an id once used and gone stays gone |
| Sessions.StepCapacity | plexio/sessions.py:130-143 | a step never takes the table past its bound, as the count and the insert are under one lock |
| Sessions.StepMigrated | plexio/sessions.py:146-180 | a row a `get_config` has written back stays encrypted and hashed |
| SessionRuns.CapacityHolds | plexio/sessions.py:108-144 | over every run the row count never exceeds the larger of the limit and the initial count |
| SessionRuns.RunEvolves | plexio/sessions.py:146-205 | from any moment on: a deleted id never reappears, and a row that stays only migrates |
| SessionRuns.ReturnedRowsAreMigrated | plexio/sessions.py:153-179 | a row that a finished `get_config` returned is encrypted and hashed while it lasts |
| SessionRuns.StepRefines | plexio/sessions.py:108-205 | each statement is a step of a plain map of configurations, which only INSERT and DELETE change |
| SessionRuns.RunRefines | plexio/sessions.py:108-205 | so every run refines a run of the plain map, in which reading writes nothing |
| SessionRuns.ResultsWitnessed | plexio/sessions.py:112-205 | every result was true at an instant of its call: a created id live with its configuration, a capacity error at a full table, a read configuration in its row, a missing id missing, a deletion as reported |
| SessionRuns.RunHashes | plexio/sessions.py:112-179 | every stored hash stays the hash of its row's configuration |
| SessionDedupe.HashesStayUnique | plexio/sessions.py:112-144 | from a fully hashed table no run ever holds two rows with one hash |
| SessionDedupe.HashesStayUniqueIff | plexio/sessions.py:112-179 | hashes stay unique over all runs exactly when every readable row is hashed at the start or, with room for at most one row, no two rows hold one configuration |
| SessionDedupe.TwinRun | plexio/sessions.py:164-179 | an unhashed row has a run to two rows with one hash |
| SessionDedupe.SameConfigSameSession | plexio/sessions.py:115-129 | two finished creates of one configuration have the same id while both rows are there |
| SessionDedupe.CreatedRow | plexio/sessions.py:112-144 | the row a create returned keeps its configuration while it lasts |
| SessionProgress.SelectSplits | plexio/sessions.py:146-162 | a reading goes on exactly with a row that holds a configuration, encrypted or in plain text |
| SessionProgress.UpdateMigrates | plexio/sessions.py:158-179 | the write after it, whatever has become of the row: a plain text encrypted, the hash backfilled, the time set, no more |
| SessionProgress.PlainTextMigrates | plexio/sessions.py:158-179 | over every run: once written, the row is encrypted and hashed, if it is still there |
| SessionProgress.CancelLetsGo | plexio/sessions.py:108-110 | a cancelled call lets go of the lock and leaves rows and other calls alone |
| SessionProgress.NoCallIsStuck | plexio/sessions.py:108-205 | from every reachable state every call that was not cancelled can end with a result of its own, after at most the call that holds the lock |
| SessionStores.SessionStore.constructor | plexio/sessions.py:96-106 | a store opens on a given table and limit |
| SessionStores.SessionStore.Create | plexio/sessions.py:108-144 | reuses the row of the same hash, else refuses at the limit, else inserts one new row, and is a run of the concurrent machine |
| SessionStores.SessionStore.GetConfig | plexio/sessions.py:146-180 | None for a missing id; an error and no write exactly for a text that is no JSON; for a row with a configuration, encrypted or in plain text, that configuration, or an error if the addon does not accept it, and the row encrypted, hashed and otherwise as before; a run of the machine |
| SessionStores.SessionStore.Delete | plexio/sessions.py:199-205 | removes exactly that row and says whether it was there; a run of the machine |
| Playback.RunInv | plexio/plex/playback.py:85-288 | what couples streamer, heartbeat, stop event and trace at every point of every run |
| Playback.TraceShape | plexio/plex/playback.py:242-288 | over every run: `playing` requests then at most one final `stopped`, one request at a time, at most one `playing` begun after the stop event, the upstream closed before `stopped` and not read after, bytes yielded a prefix of bytes read |
| Playback.FinishedTrace | plexio/plex/playback.py:267-288 | a finished playback reported nothing if it yielded nothing, else `playing` at least once and `stopped` exactly once, at the end |
| Playback.TimesSent | plexio/plex/playback.py:85-152 | reported times start at the offset's share of the duration, never go back, stay within the duration and within the wall time gone by when each is sent, and `playing` ones are ten seconds apart or at the end |
| Playback.ShutdownNeedsNoPing | plexio/plex/playback.py:121-126 | from every reachable state the playback can finish without waiting for the clock |
| PlaybackProgress.PingWhenDue | plexio/plex/playback.py:121-128 | over every run: a sleeping heartbeat reports exactly when ten seconds have gone by since it fell asleep, one `playing` at that time |
| PlaybackProgress.NextPing | plexio/plex/playback.py:105-128 | from every reachable sleep of a playback that goes on: ten seconds later there is exactly one more `playing`, and the heartbeat sleeps again |
| PlaybackProgress.WatchingPings | plexio/plex/playback.py:104-128 | so a playback left alone for any number of times ten seconds reported at its start and after each ten seconds |
| PlaybackProgress.ChunkGoesOut | plexio/plex/playback.py:247-266 | a chunk that arrives goes out, and the next is read when the consumer comes back |
| PlaybackProgress.WholeFileGoesOut | plexio/plex/playback.py:247-266 | an upstream read to its end by a patient consumer is passed on whole |
| PlaybackProgress.LeavesWhileReading | plexio/plex/playback.py:246-268 | the loop is left at the end of the upstream, at a failed or cancelled read, and when the consumer goes away |
| PlaybackProgress.StoppedWhenJoined | plexio/plex/playback.py:270-288 | the last report is `stopped`, at the time the heartbeat is joined and with the position then |
| PlaybackProgress.NoNegativeTime | plexio/plex/playback.py:60-79 | whatever the headers say, no time sent is negative |
| Position.InitialBounds | plexio/plex/playback.py:146-150 | the starting position is the floor of the offset's share and lies within the duration |
| Position.StartsAtOffset | plexio/plex/playback.py:146-152 | at the start the position is that share |
| Position.PositionBounds | plexio/plex/playback.py:146-152 | a position lies within the duration and within the offset plus the time gone by |
| Position.PositionAdvances | plexio/plex/playback.py:146-152 | it never goes back, and over a gap of whole seconds it gains the gap or reaches the end |
| Position.PositionIs | plexio/plex/playback.py:146-152 | exactly: the share plus the whole milliseconds gone by, or the duration if that is less |
| Position.TruncatesBothWays | plexio/plex/playback.py:150-152 | rounding is towards zero on either side |
| Headers.ParseIntIff | plexio/plex/playback.py:135-143 | a text reads as a number exactly when it is blanks around a sign, if any, and digits with single underscores between them, and then as that number |
| Headers.ParseRangeIff | plexio/plex/playback.py:133-137 | a range value gives total and offset exactly when both are numbers |
| Headers.OnlyRanges | plexio/plex/playback.py:133-138 | no text of another form is read as a range |
| Headers.LengthCounts | plexio/plex/playback.py:139-143 | without a readable range the total is the length header's number, or unknown if that is zero, absent or no number, and the offset zero |
| Position.RangeHeader | plexio/plex/playback.py:131-143 | total and offset of a `bytes a-b/t` header (section 14.4 of RFC 9110) are read exactly when `t` is a number; otherwise only the length header counts |
| Position.RangeHeaderWithTotal | plexio/plex/playback.py:131-138 | in particular every numeric header gives its total and offset back |
| RateLimit.IntervalBound | plexio/rate_limit.py:38-43 | admissions that each found fewer than `requests` in their own window, and after a loss, fit any half-open interval of window length that starts no earlier than the loss |
| RateLimit.Decides | plexio/rate_limit.py:37-41 | a trimmed queue counts the whole history inside the window, unless part of it was lost there, and never less than what came after the loss |
| RateLimit.ForcedOutOfLog | plexio/rate_limit.py:27-36 | where a history is forced out, every client in the table has an admission in the window by the log |
| RateLimit.KeepParts | plexio/rate_limit.py:28-34 | keys stay in dictionary order, each kept or not on its own |
| RateLimit.KeepOne | plexio/rate_limit.py:28-34 | one by one: exactly if it is among those that stay |
| RateLimit.WindowHolds | plexio/rate_limit.py:23-43 | a client has at most `requests` admissions in any interval of window length that starts no earlier than its newest admission lost to a forced eviction; over all time if it lost none |
| RateLimit.EvictedClientExceeds | plexio/rate_limit.py:27-43 | that exclusion is needed: under any limits there are calls that admit a forced-out client `requests + 1` times in one window |
| RateLimit.Trim | plexio/rate_limit.py:38-39 | drops exactly the expired entries at the front |
| RateLimit.InMemoryRateLimiter.constructor | plexio/rate_limit.py:11-21 | an empty limiter is in order |
| RateLimit.InMemoryRateLimiter.PurgeStale | plexio/rate_limit.py:28-34 | keeps exactly the clients whose queue is not empty and ends after the cutoff, their queues and their order |
| RateLimit.InMemoryRateLimiter.EvictOldest | plexio/rate_limit.py:36 | forgets the client longest in the table |
| RateLimit.InMemoryRateLimiter.MakeRoom | plexio/rate_limit.py:27-36 | a live history is dropped only for a new client in a full table in which the log has an admission in the window for each client; raises exactly in a table for no clients |
| RateLimit.InMemoryRateLimiter.Allow | plexio/rate_limit.py:23-43 | for a client without a lost admission in the window, true exactly when fewer than `requests` of its admissions in the full log lie in the window; the table stays within `max_clients` clients with queues of at most `requests` entries, none empty unless the limit is zero, and the whole new table and its key order are stated |
| RecentlyAdded.SortIsStable | plexio/routers/addon.py:186 | the sort is newest first, a permutation, and keeps the order of equal dates |
| RecentlyAdded.PageAt | plexio/routers/addon.py:169-187 | a page is the next hundred items of its section, or what is left |
| RecentlyAdded.RowAt | plexio/routers/addon.py:186-187 | the row is the first hundred of the items of all pages, newest first |
| RecentlyAdded.OfTypeParts | plexio/routers/addon.py:118-123 | sections of a type stay in order, each taken on its own |
| RecentlyAdded.OneOfType | plexio/routers/addon.py:118-123 | exactly movie sections for movies and show sections for series |
| RecentlyAdded.FirstPageExact | plexio/routers/addon.py:169-187 | with nothing skipped, merging one page per section gives the first page of the whole library, for any number of sections |
| RecentlyAdded.SingleSectionExact | plexio/routers/addon.py:169-187 | one section gives the right page for any skip |
| RecentlyAdded.TwinsWrong | plexio/routers/addon.py:169-187 | for every other count and skip there is a library whose page is wrong |
| RecentlyAdded.RowExactIff | plexio/routers/addon.py:169-187 | the row is right for every library exactly when nothing is skipped or there is at most one section |
| RecentlyAdded.EveryItemShownIff | plexio/routers/addon.py:169-187 | paging through the row shows every item, as often as the library holds it, exactly when the first pages of all sections together fit on one |
| RecentlyAdded.RecentlyAdded | plexio/routers/addon.py:169-187 | the loop returns that row for the sections of the type |
| Versions.LessIsStrictTotal | plexio/models/plex.py:239-246 | the priority keys are strictly and totally ordered |
| Versions.OrderSorted | plexio/models/plex.py:445 | the order holds every position once, sorted by key, with no heavy version before a lighter one |
| VersionOrder.OrderIff | plexio/models/plex.py:208-246 | of any two versions that one comes first which has at most 40000 kbit/s and 42949672960 bytes where the other has more; else the better codec (h264 and avc, hevc and h265, vp9, av1, others), the better container (mp4 and m4v, mkv, others), the greater height, the smaller bitrate with none last, the smaller index |
| VersionOrder.EveryVersionShows | plexio/models/plex.py:208-238 | these facts are read off every version in one way: its own fields first, then its first part and that part's first video stream |
| Versions.OrderUnique | plexio/models/plex.py:445 | any arrangement of the same positions in key order is that order |
| Versions.GetStremioStreams | plexio/models/plex.py:439-620 | fails exactly when a version lacks a part, its file, a stream's type, or a key or width that is needed, with the first such version's fault; else the streams of the versions in order |
| Versions.StreamsOf | plexio/models/plex.py:447-618 | the streams of one version in the order they are added, or its first fault |
| Versions.DirectLoop | plexio/models/plex.py:470-535 | one direct entry in proxy mode, one per connection otherwise; a missing key raises if there is any connection |
| Versions.DownLoop | plexio/models/plex.py:578-609 | the lower qualities the version is wide enough for; a missing width raises if there is any quality |
| Versions.StreamCount | plexio/models/plex.py:470-618 | the number of streams in closed form over versions, connections, flags and qualities |
| Versions.EveryIndexOnce | plexio/models/plex.py:537-576 | each version is offered for transcoding under its original position exactly once, and no other index is |
| Versions.DownOfferedIff | plexio/models/plex.py:578-609 | a lower quality is offered for exactly the versions wider than it needs, under their original position |
| AddonConfig.CatalogIdInjective | plexio/models/addon.py:63-65 | with numeric rating keys, catalog ids are equal exactly for the same section and rating key, although section keys may hold hyphens |
| AddonConfig.HyphenatedKeysCollide | plexio/models/addon.py:51-65 | without the numeric rule two places share an id |
| AddonConfig.ValidateCollections | plexio/models/addon.py:106-116 | accepts exactly the lists whose collections belong to their sections and are pairwise in different places; an error names a first fault |
| AddonConfig.CollectionCatalogs | plexio/routers/addon.py:254-280 | for an accepted configuration the manifest raises exactly on a section type Stremio lacks; each collection, if they are included, gets its entry: id, type, title and the title of its section |
| AddonConfig.TitleFound | plexio/routers/addon.py:268-272 | the title search succeeds exactly for keys that have a section type |
| AddonConfig.SectionTypeIff | plexio/models/addon.py:107-110 | a key has the type of its last section |
| AddonConfig.FirstTitleIff | plexio/routers/addon.py:268-272 | and the title of its first |
| AddonConfig.ManifestEntryFound | plexio/routers/addon.py:350-361 | asking for a manifest entry with its type gives the collection it was made from |
| AddonConfig.FoundIsConfigured | plexio/routers/addon.py:350-361 | what a request finds was configured under that id and type |
| AddonConfig.FindCollectionIff | plexio/routers/addon.py:350-361 | the first collection of the id whose type is the one asked for decides, or raises first if it has a type Stremio lacks; 404 exactly without one |
| AddonConfig.CatalogTargetIff | plexio/routers/addon.py:341-375 | `plexio-ondeck`, `plexio-recent`, the collections by their prefix and everything else as a section key |
| AddonConfig.DirectPlayConnections | plexio/models/addon.py:131-146 | the connections whose trimmed URL was not listed before |
| AddonConfig.KeptUrls | plexio/models/addon.py:139-146 | every candidate's URL is kept and nothing else |
| AddonConfig.KeptOnce | plexio/models/addon.py:139-146 | no URL is kept twice |
| AddonConfig.StreamingFirst | plexio/models/addon.py:132-138 | the streaming URL comes first, and alone without fallbacks |
| AddonConfig.TrimmedIff | plexio/models/addon.py:142 | trimming takes off all slashes at the end and nothing else |

## Left out

- ScrubExact.ScrubRoundTripIff: leaves out tokens that imitate a placeholder (they begin with one less its trailing underscores, or are a beginning of the encoded form's) unless some character tells them from both and encoding leaves them alone; for those PassesUndoneIff gives the exact condition pass by pass.
- ScrubLeaks.NothingStoredIff: speaks of tokens without a percent sign, and of responses only for those without a double quote; JSON prints a double quote, a backslash or a control character escaped, so for a token with one of these the field given is not text that a response holds. For a token with a percent sign only the sufficient condition NothingStored is proved.
- ScrubLeaks.LeakingResponse: the same tokens.
- ScrubLeaks.UnderscoreAtTheEdgeLeaks: the same tokens.
- CacheKeys.RoutesCollide: routing and URL decoding are not part of this model; a request is taken to match the route whose segments it has.
- StreamEndpoint.GetStream: which fields a version lacks when building fails is not said here but by Versions.GetStremioStreams; the printer is any function.
- SessionDedupe.HashesStayUniqueIff: starts from a table whose stored hashes are right and distinct.
- Position.RangeHeader: `int()` is modelled on ASCII text; Unicode digits and spaces are not.
- Versions.GetStremioStreams: numbers are reals; numeric strings, NaN and rounding are not modelled, only ASCII is lower-cased, and an external subtitle without id or title, which raises as well, is left out. A stream is what its URL points at, without labels, subtitles and flags.
- Cached values that no longer parse, and the fall-back to a miss after one.
- Requests that take time: the clock of a request is read once, though the code reads it at every cache access.
- Redis as the cache, and caches without an expiry.
- The order in which waiting creates get the lock, and a second cancellation during playback clean-up.
- Validation of a stored configuration after `get_config` has read it; labels, server names and the listing of sessions.
- JSON printing and parsing, percent-encoding of lone surrogates, Fernet, SHA-256, `uuid4` and SQLite themselves.
- HEAD requests, header pass-through, timeline request failures and their logging.
- The continue-watching row, catalog extras, metadata pages, the frontend, settings, CORS and the body limit: simple members beside those above.
