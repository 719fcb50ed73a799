/** The cache keys, and which requests share the key of a stream response. */
module CacheKeys {
  import opened TextReplace
  import Base64Url
  import PyText

  // ---- keys ----

  /** A digest stands for SHA-256 in hexadecimal: injective, and its output has no colon. */
  ghost predicate IsDigest(digest: string -> string) {
    && (forall x, y :: digest(x) == digest(y) ==> x == y)
    && (forall x :: ':' !in digest(x))
  }

  function ResourceCacheKey(digest: string -> string, namespace: string, resource: string, identity: string): string {
    "plexio:" + resource + ":" + namespace + ":" + digest(identity)
  }

  /** Keys of different resources, namespaces or identities are different. */
  lemma KeysSeparate(
    digest: string -> string, n: string, r: string, i: string, n': string, r': string, i': string)
    requires IsDigest(digest)
    requires ':' !in n && ':' !in r && ':' !in n' && ':' !in r'
    requires ResourceCacheKey(digest, n, r, i) == ResourceCacheKey(digest, n', r', i')
    ensures n == n' && r == r' && i == i'
  {
    var k, k' := ResourceCacheKey(digest, n, r, i), ResourceCacheKey(digest, n', r', i');
    assert k == ("plexio:" + r + ":" + n) + [':'] + digest(i);
    assert k' == ("plexio:" + r' + ":" + n') + [':'] + digest(i');
    PyText.LastSeparator("plexio:" + r + ":" + n, digest(i), "plexio:" + r' + ":" + n', digest(i'), ':');
    PyText.LastSeparator("plexio:" + r, n, "plexio:" + r', n', ':');
    assert ("plexio:" + r)[7..] == r && ("plexio:" + r')[7..] == r';
  }

  // ---- identities ----

  /** What the stream handler hashes: media type, id and the configuration path of proxied links. */
  function StreamIdentity(kind: string, mediaId: string, configPath: string): string {
    kind + ":" + mediaId + ":" + configPath
  }

  /** `longer` is some text, a colon and `path`. */
  predicate Behind(path: string, longer: string) {
    |path| < |longer| && longer[|longer| - |path| - 1..] == [':'] + path
  }

  predicate Apart(path: string, path': string) {
    !Behind(path, path') && !Behind(path', path)
  }

  /** Equal ends behind a colon, of different lengths, put one behind the other. */
  lemma EqualEnds(a: string, p: string, b: string, q: string)
    requires a + [':'] + p == b + [':'] + q && |p| < |q|
    ensures Behind(p, q)
  {
    var s := a + [':'] + p;
    assert s[|s| - |p| - 1..] == [':'] + p;
    assert q == s[|s| - |q|..];
    assert q[|q| - |p| - 1..] == s[|s| - |p| - 1..];
  }

  /** Requests whose paths are apart, and whose media types hold no colon, do not share an identity. */
  lemma IdentitiesSeparate(kind: string, id: string, path: string, kind': string, id': string, path': string)
    requires ':' !in kind && ':' !in kind' && Apart(path, path')
    requires StreamIdentity(kind, id, path) == StreamIdentity(kind', id', path')
    ensures kind == kind' && id == id' && path == path'
  {
    var a, b := kind + ":" + id, kind' + ":" + id';
    assert StreamIdentity(kind, id, path) == a + [':'] + path;
    assert StreamIdentity(kind', id', path') == b + [':'] + path';
    if |path| < |path'| {
      EqualEnds(a, path, b, path');
    } else if |path'| < |path| {
      EqualEnds(b, path', a, path);
    } else {
      var s := a + [':'] + path;
      assert s[|s| - |path|..] == path && s[|s| - |path'|..] == path';
      assert s[..|s| - |path| - 1] == a && s[..|s| - |path| - 1] == b;
      PyText.FirstSeparator(kind, id, kind', id', ':');
    }
  }

  /** A path behind another shares the identity of every id there is, with that id and the text between. */
  lemma BehindCollides(kind: string, id: string, path: string, longer: string) returns (between: string)
    requires Behind(path, longer)
    ensures between != id
    ensures StreamIdentity(kind, between, path) == StreamIdentity(kind, id, longer)
  {
    var x := longer[..|longer| - |path| - 1];
    between := id + ":" + x;
    assert longer == x + ([':'] + path);
  }

  /**
    Two configuration paths keep all requests apart, whatever their ids, exactly when
    neither stands behind a colon in the other.
   */
  lemma IdentitiesSeparateIff(kind: string, path: string, path': string)
    requires ':' !in kind
    ensures (forall id, id' :: StreamIdentity(kind, id, path) == StreamIdentity(kind, id', path') ==>
               id == id' && path == path')
            <==> Apart(path, path')
  {
    if Apart(path, path') {
      forall id, id' | StreamIdentity(kind, id, path) == StreamIdentity(kind, id', path')
        ensures id == id' && path == path'
      {
        IdentitiesSeparate(kind, id, path, kind, id', path');
      }
    } else if Behind(path, path') {
      var between := BehindCollides(kind, "", path, path');
    } else {
      var between := BehindCollides(kind, "", path', path);
    }
  }

  // ---- which configuration paths there are ----

  const STREAM := "/stream/"

  /** `url.path.split('/stream/')[0]`. */
  function ConfigPathOf(urlPath: string): string {
    urlPath[..NextMatch(urlPath, STREAM)]
  }

  /** A request under a session, and one that carries its configuration itself. */
  function SessionRequest(session: string, rest: string): string {
    "/" + session + (STREAM + rest)
  }

  function LegacyRequest(installation: string, cfg: string, rest: string): string {
    "/" + installation + ("/" + cfg + (STREAM + rest))
  }

  /** The rest of a stream request: media type and id. */
  function Asks(kind: string, mediaId: string): string {
    kind + "/" + mediaId + ".json"
  }

  lemma {:induction false} NoMatchInside(u: string, z: string)
    requires '/' !in u
    ensures NextMatch(u + z, STREAM) == |u| + NextMatch(z, STREAM)
  {
    if u == "" {
      assert u + z == z;
    } else {
      assert (u + z)[0] == u[0] && (u + z)[1..] == u[1..] + z;
      NoMatchInside(u[1..], z);
    }
  }

  lemma PastHead(a: string, name: string, z: string)
    requires a != "" && NextMatch(name + z, a) == |name| + NextMatch(z, a)
    ensures NextMatch("/" + name + z, a) == if a <= "/" + name + z then 0 else 1 + |name| + NextMatch(z, a)
  {
    hide NextMatch;
    assert ("/" + name + z)[1..] == name + z;
    ScanSteps("/" + name + z, a, "");
  }

  /** A segment `name` ahead of a slash: the scan stops before it if it is `stream`, else goes past it. */
  lemma PastSegment(name: string, z: string)
    requires '/' !in name && z != "" && z[0] == '/'
    ensures NextMatch("/" + name + z, STREAM) == if name == "stream" then 0 else 1 + |name| + NextMatch(z, STREAM)
  {
    hide NextMatch;
    NoMatchInside(name, z);
    SegmentIsStream(name, z);
    PastHead(STREAM, name, z);
  }

  lemma SegmentIsStream(name: string, z: string)
    requires '/' !in name && z != "" && z[0] == '/'
    ensures STREAM <= "/" + name + z <==> name == "stream"
  {
    var s := "/" + name + z;
    assert STREAM[..1] + "stream" + "/" == STREAM;
    assert s[1 + |name|] == '/';
    assert forall k :: 0 <= k < |name| ==> s[1 + k] == name[k];
    if STREAM <= s {
      assert forall k :: 0 <= k < 8 ==> STREAM[k] == s[k];
      assert forall k :: 1 <= k < 7 ==> STREAM[k] != '/';
      assert STREAM[7] == '/';
      assert |name| == 6;
      assert forall k :: 0 <= k < 6 ==> name[k] == STREAM[1 + k] == "stream"[k];
    }
  }

  /** The configuration path of a request, segment by segment. */
  lemma ConfigPathOfRequests(installation: string, cfg: string, rest: string)
    requires '/' !in installation && '/' !in cfg
    ensures ConfigPathOf(SessionRequest(installation, rest))
            == if installation == "stream" then "" else "/" + installation
    ensures ConfigPathOf(LegacyRequest(installation, cfg, rest))
            == if installation == "stream" then ""
               else if cfg == "stream" then "/" + installation
               else "/" + installation + "/" + cfg
  {
    var z := STREAM + rest;
    assert STREAM <= z && z[0] == '/';
    PastSegment(installation, z);
    PastSegment(cfg, z);
    PastSegment(installation, "/" + cfg + z);
    assert "/" + installation + z == ("/" + installation) + z;
    assert "/" + installation + ("/" + cfg + z) == ("/" + installation + "/" + cfg) + z;
  }

  /** A configuration segment with four colons behind it, which its decoder skips. */
  function WithColons(cfg: string): string {
    cfg + "::::"
  }

  function UpToLastColon(installation: string, cfg: string): string {
    "/" + installation + "/" + cfg + ":::"
  }

  /**
    Two requests for one configuration that share an identity, for any configuration
    segment, installation and id: the decoder of the segment skips the colons, and an
    installation named `stream` leaves the other request's path empty.
   */
  lemma RoutesCollide(installation: string, cfg: string, kind: string, mediaId: string)
    requires '/' !in installation && '/' !in cfg && installation != "stream"
    ensures var longId := mediaId + ":" + UpToLastColon(installation, cfg);
            var path := ConfigPathOf(LegacyRequest(installation, WithColons(cfg), Asks(kind, mediaId)));
            var path' := ConfigPathOf(LegacyRequest("stream", cfg, Asks(kind, longId)));
            && Base64Url.DecodeLenient(WithColons(cfg)) == Base64Url.DecodeLenient(cfg)
            && Behind(path', path) && longId != mediaId
            && StreamIdentity(kind, mediaId, path) == StreamIdentity(kind, longId, path')
  {
    hide ConfigPathOf, Asks, StreamIdentity, Behind, Base64Url.DecodeLenient;
    var x := UpToLastColon(installation, cfg);
    SkippedColons(cfg);
    NotStream(cfg);
    ConfigPathOfRequests(installation, WithColons(cfg), Asks(kind, mediaId));
    ConfigPathOfRequests("stream", cfg, Asks(kind, mediaId + ":" + x));
    assert "/" + installation + "/" + WithColons(cfg) == x + ":";
    TrailingColon(kind, mediaId, x);
  }

  lemma SkippedColons(cfg: string)
    requires '/' !in cfg
    ensures Base64Url.DecodeLenient(WithColons(cfg)) == Base64Url.DecodeLenient(cfg) && '/' !in WithColons(cfg)
  {
    hide Base64Url.DecodeLenient;
    assert [':', ':', ':', ':'] == "::::";
    Base64Url.FourSkipped(cfg, ':');
  }

  lemma NotStream(cfg: string)
    ensures WithColons(cfg) != "stream"
  {
    assert WithColons(cfg)[|cfg| + 3] == ':';
    assert ':' !in "stream";
  }

  lemma TrailingColon(kind: string, id: string, x: string)
    ensures StreamIdentity(kind, id, x + ":") == StreamIdentity(kind, id + ":" + x, "")
    ensures Behind("", x + ":") && |id + ":" + x| > |id|
  {}

  // ---- exactly which requests are apart ----

  /** Paths that start with a slash and hold equally many are apart. */
  lemma SameDepthApart(path: string, path': string)
    requires path != "" && path' != "" && path[0] == '/' && path'[0] == '/'
    requires Occurrences(path, '/') == Occurrences(path', '/')
    ensures Apart(path, path')
  {
    if Behind(path, path') { BehindIsDeeper(path, path'); }
    if Behind(path', path) { BehindIsDeeper(path', path); }
  }

  lemma BehindIsDeeper(path: string, longer: string)
    requires longer != "" && longer[0] == '/' && Behind(path, longer)
    ensures Occurrences(longer, '/') > Occurrences(path, '/')
  {
    var n := |longer| - |path| - 1;
    var x := longer[..n];
    assert longer == x + ([':'] + path);
    OccurrencesConcat(x, [':'] + path, '/');
    OccurrencesConcat([':'], path, '/');
    assert longer[n..][0] == ':';
    assert x[0] == '/';
  }

  /** The two shapes of a stream request's path, by the segments ahead of `/stream/`. */
  datatype Route = Session(session: string) | Legacy(installation: string, cfg: string)

  predicate NoSlashes(r: Route) {
    match r
    case Session(session) => '/' !in session
    case Legacy(installation, cfg) => '/' !in installation && '/' !in cfg
  }

  function UrlPath(r: Route, rest: string): string {
    match r
    case Session(session) => SessionRequest(session, rest)
    case Legacy(installation, cfg) => LegacyRequest(installation, cfg, rest)
  }

  /** The segments that stay in the configuration path: those ahead of the first one named `stream`. */
  function Segments(r: Route): (segments: seq<string>)
    ensures |segments| <= 2
  {
    match r
    case Session(session) => if session == "stream" then [] else [session]
    case Legacy(installation, cfg) =>
      if installation == "stream" then [] else if cfg == "stream" then [installation] else [installation, cfg]
  }

  function Joined(segments: seq<string>): string {
    if segments == [] then "" else "/" + segments[0] + Joined(segments[1..])
  }

  lemma JoinedCases(segments: seq<string>)
    ensures |segments| == 0 ==> Joined(segments) == ""
    ensures |segments| == 1 ==> Joined(segments) == "/" + segments[0]
    ensures |segments| == 2 ==> Joined(segments) == "/" + segments[0] + "/" + segments[1]
  {
    if |segments| == 2 { assert Joined(segments[1..]) == "/" + segments[1] + Joined([]); }
  }

  lemma ConfigPathOfRoute(r: Route, rest: string)
    requires NoSlashes(r)
    ensures ConfigPathOf(UrlPath(r, rest)) == Joined(Segments(r))
  {
    hide ConfigPathOf, Joined;
    JoinedCases(Segments(r));
    match r
    case Session(session) => ConfigPathOfRequests(session, "", rest);
    case Legacy(installation, cfg) => ConfigPathOfRequests(installation, cfg, rest);
  }

  predicate EndsInColon(s: string) {
    s != "" && s[|s| - 1] == ':'
  }

  /**
    The one path stands behind a colon in the other: it is empty and the other ends in a
    colon, or it is one segment, the last of the other's two, and the first ends in a colon.
   */
  predicate Clashes(segments: seq<string>, longer: seq<string>) {
    || (segments == [] && longer != [] && EndsInColon(longer[|longer| - 1]))
    || (|segments| == 1 && |longer| == 2 && segments[0] == longer[1] && EndsInColon(longer[0]))
  }

  lemma Depth(segments: seq<string>)
    requires |segments| <= 2 && forall i :: 0 <= i < |segments| ==> '/' !in segments[i]
    ensures Occurrences(Joined(segments), '/') == |segments|
    ensures segments != [] ==> Joined(segments) != "" && Joined(segments)[0] == '/'
  {
    if segments != [] {
      Depth(segments[1..]);
      OccurrencesConcat("/" + segments[0], Joined(segments[1..]), '/');
      OccurrencesConcat("/", segments[0], '/');
      OccurrencesZeroIff(segments[0], '/');
      assert Occurrences("/", '/') == 1 + Occurrences("", '/');
    }
  }

  lemma EmptyBehindIff(segments: seq<string>)
    requires 1 <= |segments| <= 2
    ensures Behind("", Joined(segments)) <==> EndsInColon(segments[|segments| - 1])
  {
    hide Joined;
    JoinedCases(segments);
    var path, last := Joined(segments), segments[|segments| - 1];
    assert path[|path| - 1] == if last == "" then '/' else last[|last| - 1];
    assert [':'] + "" == [':'] && path[|path| - 1..] == [path[|path| - 1]];
  }

  lemma OneBehindTwoIff(a: string, i: string, c: string)
    requires '/' !in a && '/' !in c
    ensures Behind("/" + a, "/" + i + "/" + c) <==> a == c && EndsInColon(i)
  {
    var path, longer := "/" + a, "/" + i + "/" + c;
    if Behind(path, longer) {
      var n := |longer| - |path| - 1;
      var x := longer[..n];
      assert longer == (x + ":") + ['/'] + a && longer == ("/" + i) + ['/'] + c by {
        assert longer == x + ([':'] + path);
      }
      PyText.LastSeparator(x + ":", a, "/" + i, c, '/');
      assert (x + ":")[|x|] == ':';
      assert ("/" + i)[|i|] == if i == "" then '/' else i[|i| - 1];
    }
    if a == c && EndsInColon(i) {
      assert i == i[..|i| - 1] + [':'];
      assert longer == ("/" + i[..|i| - 1]) + ([':'] + path);
    }
  }

  lemma BehindIff(segments: seq<string>, longer: seq<string>)
    requires |segments| <= 2 && forall i :: 0 <= i < |segments| ==> '/' !in segments[i]
    requires |longer| <= 2 && forall i :: 0 <= i < |longer| ==> '/' !in longer[i]
    ensures Behind(Joined(segments), Joined(longer)) <==> Clashes(segments, longer)
  {
    hide Joined;
    JoinedCases(segments);
    JoinedCases(longer);
    if longer == [] {
    } else if |segments| >= |longer| {
      Depth(segments);
      Depth(longer);
      if Behind(Joined(segments), Joined(longer)) { BehindIsDeeper(Joined(segments), Joined(longer)); }
    } else if segments == [] {
      EmptyBehindIff(longer);
    } else {
      OneBehindTwoIff(segments[0], longer[0], longer[1]);
    }
  }

  /** Exactly when two requests, of whichever shapes, keep their identities apart whatever their ids. */
  lemma RoutesApartIff(r: Route, rest: string, r': Route, rest': string)
    requires NoSlashes(r) && NoSlashes(r')
    ensures Apart(ConfigPathOf(UrlPath(r, rest)), ConfigPathOf(UrlPath(r', rest')))
            <==> !Clashes(Segments(r), Segments(r')) && !Clashes(Segments(r'), Segments(r))
  {
    hide ConfigPathOf, Joined, Behind, Clashes;
    ConfigPathOfRoute(r, rest);
    ConfigPathOfRoute(r', rest');
    BehindIff(Segments(r), Segments(r'));
    BehindIff(Segments(r'), Segments(r));
  }

  /**
    So legacy requests, whose configuration segments are not `stream`, are apart except
    for an installation named `stream` and another with a segment that ends in a colon.
   */
  lemma LegacyApartIff(i: string, c: string, rest: string, i': string, c': string, rest': string)
    requires '/' !in i && '/' !in c && '/' !in i' && '/' !in c' && c != "stream" && c' != "stream"
    ensures Apart(ConfigPathOf(LegacyRequest(i, c, rest)), ConfigPathOf(LegacyRequest(i', c', rest')))
            <==> && !(i == "stream" && i' != "stream" && EndsInColon(c'))
                 && !(i' == "stream" && i != "stream" && EndsInColon(c))
  {
    hide ConfigPathOf;
    RoutesApartIff(Legacy(i, c), rest, Legacy(i', c'), rest');
  }

  /** And session requests are apart unless one session is named `stream` and the other ends in a colon. */
  lemma SessionsApartIff(a: string, rest: string, b: string, rest': string)
    requires '/' !in a && '/' !in b
    ensures Apart(ConfigPathOf(SessionRequest(a, rest)), ConfigPathOf(SessionRequest(b, rest')))
            <==> && !(a == "stream" && b != "stream" && EndsInColon(b))
                 && !(b == "stream" && a != "stream" && EndsInColon(a))
  {
    hide ConfigPathOf;
    RoutesApartIff(Session(a), rest, Session(b), rest');
  }
}
