/**
  The order in which a title's versions are offered, and the streams offered for each.
 */
module Versions {
  import opened Wrappers

  // ---- what Plex says about a version ----

  /** A field that should hold a number. */
  datatype Field = Missing | NotNumber | Num(value: real) {
    /** Truth in the source's sense: present and not zero. */
    predicate Truthy() {
      NotNumber? || (Num? && value != 0.0)
    }
  }

  datatype PartStream = PartStream(streamType: Option<int>, codec: string)
  datatype Part = Part(
    key: Option<string>, file: Option<string>, container: string, bitrate: Field, size: Field,
    streams: seq<PartStream>)
  datatype Version = Version(
    videoCodec: string, container: string, bitrate: Field, height: Field, resolution: string,
    width: Option<int>, parts: seq<Part>)

  const HIGH_BITRATE_THRESHOLD_KBPS := 40000.0
  const HIGH_SIZE_THRESHOLD_BYTES := 42949672960.0

  function Lower(s: string): string {
    seq(|s|, i requires 0 <= i < |s| => if 'A' <= s[i] <= 'Z' then (s[i] as int + 32) as char else s[i])
  }

  function Number(x: Field): real {
    if x.Num? then x.value else 0.0
  }

  function FirstVideoCodec(streams: seq<PartStream>): string {
    if streams == [] then ""
    else if streams[0].streamType == Some(1) then streams[0].codec
    else FirstVideoCodec(streams[1..])
  }

  function FirstPart(v: Version): Part {
    if v.parts == [] then Part(None, None, "", Missing, Missing, []) else v.parts[0]
  }

  function Or(a: string, b: string): string {
    if a != "" then a else b
  }

  function CodecRank(codec: string): nat {
    if codec == "h264" || codec == "avc" then 0
    else if codec == "hevc" || codec == "h265" then 1
    else if codec == "vp9" then 2
    else if codec == "av1" then 3
    else 4
  }

  function ContainerRank(container: string): nat {
    if container == "mp4" || container == "m4v" then 0 else if container == "mkv" then 1 else 2
  }

  function HeightOf(v: Version): real {
    if Number(v.height) != 0.0 then Number(v.height)
    else
      var r := Lower(v.resolution);
      if r == "4k" || r == "2160" then 2160.0 else if r == "1080" then 1080.0 else if r == "720" then 720.0 else 0.0
  }

  function BitrateOf(v: Version): real {
    Number(if v.bitrate.Truthy() then v.bitrate else FirstPart(v).bitrate)
  }

  predicate IsHeavy(v: Version) {
    BitrateOf(v) > HIGH_BITRATE_THRESHOLD_KBPS || Number(FirstPart(v).size) > HIGH_SIZE_THRESHOLD_BYTES
  }

  /** The sort key; no bitrate counts as infinite, written None. */
  datatype Key = Key(heavy: bool, codec: nat, container: nat, negatedHeight: real, bitrate: Option<real>, index: nat)

  function Priority(index: nat, v: Version): Key {
    var part := FirstPart(v);
    Key(IsHeavy(v),
        CodecRank(Lower(Or(v.videoCodec, FirstVideoCodec(part.streams)))),
        ContainerRank(Lower(Or(v.container, part.container))),
        -HeightOf(v),
        if BitrateOf(v) == 0.0 then None else Some(BitrateOf(v)),
        index)
  }

  predicate FasterThan(a: Option<real>, b: Option<real>) {
    a.Some? && (b.None? || a.value < b.value)
  }

  /** Tuple comparison. */
  predicate Less(a: Key, b: Key) {
    if a.heavy != b.heavy then !a.heavy
    else if a.codec != b.codec then a.codec < b.codec
    else if a.container != b.container then a.container < b.container
    else if a.negatedHeight != b.negatedHeight then a.negatedHeight < b.negatedHeight
    else if a.bitrate != b.bitrate then FasterThan(a.bitrate, b.bitrate)
    else a.index < b.index
  }

  /** The key order is a strict total order. */
  lemma LessIsStrictTotal(a: Key, b: Key, c: Key)
    ensures !Less(a, a)
    ensures Less(a, b) && Less(b, c) ==> Less(a, c)
    ensures a == b || Less(a, b) || Less(b, a)
  {}

  // ---- the sorted order of versions ----

  function KeyOf(media: seq<Version>, i: nat): Key
    requires i < |media|
  {
    Priority(i, media[i])
  }

  predicate Within(order: seq<nat>, media: seq<Version>) {
    forall p :: 0 <= p < |order| ==> order[p] < |media|
  }

  function Place(media: seq<Version>, i: nat, order: seq<nat>): (r: seq<nat>)
    requires i < |media| && Within(order, media)
    ensures Within(r, media) && multiset(r) == multiset(order) + multiset{i}
  {
    if order == [] || Less(KeyOf(media, i), KeyOf(media, order[0])) then [i] + order
    else
      assert order == [order[0]] + order[1..];
      [order[0]] + Place(media, i, order[1..])
  }

  function Range(n: nat): seq<nat> {
    seq(n, i => i)
  }

  /** `sorted(enumerate(media), key=_playback_priority)`, as original positions. */
  function OrderFirst(media: seq<Version>, n: nat): (r: seq<nat>)
    requires n <= |media|
    ensures Within(r, media) && multiset(r) == multiset(Range(n))
  {
    if n == 0 then [] else
    assert Range(n) == Range(n - 1) + [n - 1];
    Place(media, n - 1, OrderFirst(media, n - 1))
  }

  function Order(media: seq<Version>): (r: seq<nat>)
    ensures Within(r, media) && multiset(r) == multiset(Range(|media|))
  {
    OrderFirst(media, |media|)
  }

  ghost predicate SortedBy(media: seq<Version>, order: seq<nat>)
    requires Within(order, media)
  {
    forall p, q :: 0 <= p < q < |order| ==> Less(KeyOf(media, order[p]), KeyOf(media, order[q]))
  }

  lemma KeysDiffer(media: seq<Version>, i: nat, j: nat)
    requires i < |media| && j < |media| && i != j
    ensures KeyOf(media, i) != KeyOf(media, j)
  {
    assert KeyOf(media, i).index != KeyOf(media, j).index;
  }

  lemma {:induction false} PlaceSorted(media: seq<Version>, i: nat, order: seq<nat>)
    requires i < |media| && Within(order, media) && SortedBy(media, order) && i !in order
    ensures SortedBy(media, Place(media, i, order))
  {
    hide Less, KeyOf;
    if order != [] {
      var k, head := KeyOf(media, i), KeyOf(media, order[0]);
      LessIsStrictTotal(k, head, head);
      KeysDiffer(media, i, order[0]);
      if Less(k, head) {
        forall q | 0 <= q < |order| ensures Less(k, KeyOf(media, order[q])) {
          LessIsStrictTotal(k, head, KeyOf(media, order[q]));
        }
      } else {
        PlaceSorted(media, i, order[1..]);
        var rest := Place(media, i, order[1..]);
        forall q | 0 <= q < |rest| ensures Less(head, KeyOf(media, rest[q])) {
          assert rest[q] in multiset(rest);
          if rest[q] != i { assert rest[q] in multiset(order[1..]); }
        }
      }
    }
  }

  lemma NotYetPlaced(order: seq<nat>, n: nat)
    requires multiset(order) == multiset(Range(n))
    ensures n !in order
  {
    assert n in order ==> n in multiset(order);
    assert n !in Range(n);
  }

  lemma {:induction false} OrderFirstSorted(media: seq<Version>, n: nat)
    requires n <= |media|
    ensures SortedBy(media, OrderFirst(media, n))
  {
    hide Less, KeyOf, Place, Range;
    if n > 0 {
      OrderFirstSorted(media, n - 1);
      var order := OrderFirst(media, n - 1);
      NotYetPlaced(order, n - 1);
      PlaceSorted(media, n - 1, order);
      assert OrderFirst(media, n) == Place(media, n - 1, order);
    }
  }

  /** The order: every position once, sorted by priority, no heavy version before a lighter one. */
  lemma OrderSorted(media: seq<Version>)
    ensures multiset(Order(media)) == multiset(Range(|media|)) && SortedBy(media, Order(media))
    ensures forall p, q :: 0 <= p < q < |Order(media)| && IsHeavy(media[Order(media)[p]]) ==>
              IsHeavy(media[Order(media)[q]])
  {
    OrderFirstSorted(media, |media|);
  }

  lemma SameHead(media: seq<Version>, a: seq<nat>, b: seq<nat>)
    requires Within(a, media) && Within(b, media) && SortedBy(media, a) && SortedBy(media, b)
    requires multiset(a) == multiset(b) && a != [] && b != []
    ensures a[0] == b[0]
  {
    hide Less, KeyOf;
    assert a[0] in multiset(b) && b[0] in multiset(a);
    var q :| 0 <= q < |b| && b[q] == a[0];
    var p :| 0 <= p < |a| && a[p] == b[0];
    LessIsStrictTotal(KeyOf(media, a[0]), KeyOf(media, b[0]), KeyOf(media, a[0]));
  }

  lemma WithoutHead(media: seq<Version>, a: seq<nat>)
    requires a != [] && Within(a, media) && SortedBy(media, a)
    ensures Within(a[1..], media) && SortedBy(media, a[1..])
    ensures multiset(a[1..]) == multiset(a) - multiset{a[0]} && a == [a[0]] + a[1..]
  {
    hide Less, KeyOf;
    assert a == [a[0]] + a[1..];
  }

  /** Nothing else is sorted: any arrangement of the positions in key order is this one. */
  lemma {:induction false} OrderUnique(media: seq<Version>, a: seq<nat>, b: seq<nat>)
    requires Within(a, media) && Within(b, media) && SortedBy(media, a) && SortedBy(media, b)
    requires multiset(a) == multiset(b)
    ensures a == b
  {
    hide Less, KeyOf;
    assert |a| == |multiset(a)| == |multiset(b)| == |b|;
    if a != [] {
      SameHead(media, a, b);
      WithoutHead(media, a);
      WithoutHead(media, b);
      OrderUnique(media, a[1..], b[1..]);
    }
  }

  // ---- streams ----

  datatype Resolution = R480 | R720 | R1080

  function MinWidth(r: Resolution): int {
    match r case R480 => 640 case R720 => 1280 case R1080 => 1920
  }

  datatype Config = Config(
    includeDirectPlay: bool, connections: seq<string>, includeTranscodeOriginal: bool,
    includeTranscodeDown: bool, qualities: seq<Resolution>, includePlexTv: bool)

  /** A stream by what its URL points at. */
  datatype Stream =
    | Proxied(prefix: string, partKey: string)
    | Direct(base: string, partKey: string)
    | Transcode(mediaIndex: nat, quality: Option<Resolution>)
    | PlexTv

  /** The title around the versions: whether its guid is a `plex:` one, and the proxy prefix if any. */
  datatype Title = Title(plexGuid: bool, playPrefix: Option<string>)

  function PartKey(v: Version): string {
    if FirstPart(v).key.Some? then FirstPart(v).key.value else ""
  }

  function Width(v: Version): int {
    if v.width.Some? then v.width.value else 0
  }

  function DirectStreams(c: Config, t: Title, partKey: string): seq<Stream> {
    if !c.includeDirectPlay then []
    else if t.playPrefix.Some? then if c.connections == [] then [] else [Proxied(t.playPrefix.value, partKey)]
    else seq(|c.connections|, k requires 0 <= k < |c.connections| => Direct(c.connections[k], partKey))
  }

  function DownStreams(qualities: seq<Resolution>, width: int, i: nat): seq<Stream> {
    if qualities == [] then []
    else
      var n := |qualities| - 1;
      DownStreams(qualities[..n], width, i)
      + if width <= MinWidth(qualities[n]) then [] else [Transcode(i, Some(qualities[n]))]
  }

  function VersionStreams(c: Config, t: Title, i: nat, v: Version): seq<Stream> {
    DirectStreams(c, t, PartKey(v))
    + (if c.includeTranscodeOriginal then [Transcode(i, None)] else [])
    + (if c.includeTranscodeDown then DownStreams(c.qualities, Width(v), i) else [])
    + (if c.includePlexTv && t.plexGuid then [PlexTv] else [])
  }

  function StreamsInOrder(c: Config, t: Title, media: seq<Version>, order: seq<nat>): seq<Stream>
    requires Within(order, media)
  {
    if order == [] then []
    else
      var n := |order| - 1;
      StreamsInOrder(c, t, media, order[..n]) + VersionStreams(c, t, order[n], media[order[n]])
  }

  datatype StreamError = NoPart | NoFile | NoStreamType | NoKey | NoWidth

  /** What a version lacks of what its streams are made from, in the order it is needed. */
  function Fault(c: Config, v: Version): Option<StreamError> {
    if v.parts == [] then Some(NoPart)
    else if v.parts[0].file.None? then Some(NoFile)
    else if exists i :: 0 <= i < |v.parts[0].streams| && v.parts[0].streams[i].streamType.None? then Some(NoStreamType)
    else if c.includeDirectPlay && c.connections != [] && v.parts[0].key.None? then Some(NoKey)
    else if c.includeTranscodeDown && c.qualities != [] && v.width.None? then Some(NoWidth)
    else None
  }

  /** The p-th version in order is the first at fault. */
  ghost predicate FailsAt(c: Config, media: seq<Version>, error: StreamError, p: nat) {
    p < |Order(media)| && Fault(c, media[Order(media)[p]]) == Some(error)
    && forall q :: 0 <= q < p ==> Fault(c, media[Order(media)[q]]).None?
  }

  /** A version at fault makes the whole listing fail, the first one in order with its fault. */
  method GetStremioStreams(c: Config, t: Title, media: seq<Version>) returns (r: Result<seq<Stream>, StreamError>)
    ensures r.Ok? <==> forall i :: 0 <= i < |media| ==> Fault(c, media[i]).None?
    ensures r.Ok? ==> r.value == StreamsInOrder(c, t, media, Order(media))
    ensures r.Err? ==> exists p :: FailsAt(c, media, r.error, p)
  {
    hide VersionStreams, OrderFirst, Fault;
    var order := Order(media);
    var streams: seq<Stream> := [];
    for p := 0 to |order|
      invariant streams == StreamsInOrder(c, t, media, order[..p])
      invariant forall q :: 0 <= q < p ==> Fault(c, media[order[q]]).None?
    {
      InOrderStep(c, t, media, order, p);
      var more := StreamsOf(c, t, order[p], media[order[p]]);
      if more.Err? {
        assert FailsAt(c, media, more.error, p);
        return Err(more.error);
      }
      streams := streams + more.value;
    }
    assert order[..|order|] == order;
    forall i | 0 <= i < |media| ensures Fault(c, media[i]).None? {
      var q := PlaceOf(media, i);
    }
    r := Ok(streams);
  }

  lemma InOrderStep(c: Config, t: Title, media: seq<Version>, order: seq<nat>, p: nat)
    requires Within(order, media) && p < |order|
    ensures StreamsInOrder(c, t, media, order[..p + 1])
            == StreamsInOrder(c, t, media, order[..p]) + VersionStreams(c, t, order[p], media[order[p]])
  {
    assert order[..p + 1][..p] == order[..p];
  }

  method StreamsOf(c: Config, t: Title, i: nat, v: Version) returns (r: Result<seq<Stream>, StreamError>)
    ensures r == match Fault(c, v) case Some(error) => Err(error) case None => Ok(VersionStreams(c, t, i, v))
  {
    if v.parts == [] { return Err(NoPart); }
    var part := v.parts[0];
    if part.file.None? { return Err(NoFile); }
    for k := 0 to |part.streams|
      invariant forall j :: 0 <= j < k ==> part.streams[j].streamType.Some?
    {
      if part.streams[k].streamType.None? { return Err(NoStreamType); }
    }
    var direct := DirectLoop(c, t, part.key);
    if direct.Err? { return Err(direct.error); }
    var streams := direct.value;
    if c.includeTranscodeOriginal { streams := streams + [Transcode(i, None)]; }
    assert streams == DirectStreams(c, t, PartKey(v)) + if c.includeTranscodeOriginal then [Transcode(i, None)] else [];
    var down := DownLoop(c, v.width, i);
    if down.Err? { return Err(down.error); }
    streams := streams + down.value;
    if c.includePlexTv && t.plexGuid { streams := streams + [PlexTv]; }
    assert Fault(c, v).None?;
    assert streams == VersionStreams(c, t, i, v);
    r := Ok(streams);
  }

  method DirectLoop(c: Config, t: Title, key: Option<string>) returns (r: Result<seq<Stream>, StreamError>)
    ensures r == if c.includeDirectPlay && c.connections != [] && key.None? then Err(NoKey)
                 else Ok(DirectStreams(c, t, if key.Some? then key.value else ""))
  {
    var streams: seq<Stream> := [];
    if c.includeDirectPlay && c.connections != [] {
      if key.None? { return Err(NoKey); }
      var partKey := key.value;
      for k := 0 to |c.connections|
        invariant t.playPrefix.Some? ==> streams == if k == 0 then [] else [Proxied(t.playPrefix.value, partKey)]
        invariant t.playPrefix.None? ==> streams == DirectStreams(c, t, partKey)[..k]
      {
        if t.playPrefix.Some? {
          if k > 0 { break; }
          streams := streams + [Proxied(t.playPrefix.value, partKey)];
        } else {
          streams := streams + [Direct(c.connections[k], partKey)];
        }
      }
      var whole := DirectStreams(c, t, partKey);
      assert t.playPrefix.None? ==> whole[..|whole|] == whole;
    } else {
      assert DirectStreams(c, t, if key.Some? then key.value else "") == [];
    }
    r := Ok(streams);
  }

  method DownLoop(c: Config, optionalWidth: Option<int>, i: nat) returns (r: Result<seq<Stream>, StreamError>)
    ensures r == if c.includeTranscodeDown && c.qualities != [] && optionalWidth.None? then Err(NoWidth)
                 else if !c.includeTranscodeDown then Ok([])
                 else Ok(DownStreams(c.qualities, if optionalWidth.Some? then optionalWidth.value else 0, i))
  {
    var streams: seq<Stream> := [];
    if c.includeTranscodeDown && c.qualities != [] {
      if optionalWidth.None? { return Err(NoWidth); }
      var width := optionalWidth.value;
      for k := 0 to |c.qualities|
        invariant streams == DownStreams(c.qualities[..k], width, i)
      {
        assert c.qualities[..k + 1][..k] == c.qualities[..k];
        if width <= MinWidth(c.qualities[k]) { continue; }
        streams := streams + [Transcode(i, Some(c.qualities[k]))];
      }
      assert c.qualities[..|c.qualities|] == c.qualities;
    }
    r := Ok(streams);
  }

  lemma PlaceOf(media: seq<Version>, i: nat) returns (q: nat)
    requires i < |media|
    ensures q < |Order(media)| && Order(media)[q] == i
  {
    assert Range(|media|)[i] == i;
    assert i in multiset(Range(|media|)) && i in multiset(Order(media));
    q :| 0 <= q < |Order(media)| && Order(media)[q] == i;
  }

  // ---- how many streams, and of which version ----

  function Offered(qualities: seq<Resolution>, width: int): nat {
    if qualities == [] then 0
    else Offered(qualities[..|qualities| - 1], width) + if width > MinWidth(qualities[|qualities| - 1]) then 1 else 0
  }

  function DirectCount(c: Config, t: Title): nat {
    if !c.includeDirectPlay || c.connections == [] then 0 else if t.playPrefix.Some? then 1 else |c.connections|
  }

  function Flag(b: bool): nat {
    if b then 1 else 0
  }

  /** Lower qualities offered, summed over the versions in the order Plex lists them. */
  function DownCount(c: Config, media: seq<Version>): nat {
    if media == [] then 0
    else DownCount(c, media[..|media| - 1])
         + if c.includeTranscodeDown then Offered(c.qualities, Width(media[|media| - 1])) else 0
  }

  lemma {:induction false} DownStreamsCount(qualities: seq<Resolution>, width: int, i: nat)
    ensures |DownStreams(qualities, width, i)| == Offered(qualities, width)
  {
    if qualities != [] { DownStreamsCount(qualities[..|qualities| - 1], width, i); }
  }

  /** Streams of one version: direct ones, the flags, and the lower qualities. */
  function PerVersion(c: Config, t: Title, v: Version): nat {
    DirectCount(c, t) + Flag(c.includeTranscodeOriginal) + Flag(c.includePlexTv && t.plexGuid)
    + if c.includeTranscodeDown then Offered(c.qualities, Width(v)) else 0
  }

  lemma VersionStreamsCount(c: Config, t: Title, i: nat, v: Version)
    ensures |VersionStreams(c, t, i, v)| == PerVersion(c, t, v)
  {
    DownStreamsCount(c.qualities, Width(v), i);
  }

  /** Any per-version amount, summed along a list of positions. */
  function Sum(f: nat -> nat, order: seq<nat>): nat {
    if order == [] then 0 else Sum(f, order[..|order| - 1]) + f(order[|order| - 1])
  }

  lemma {:induction false} SumConcat(f: nat -> nat, a: seq<nat>, b: seq<nat>)
    ensures Sum(f, a + b) == Sum(f, a) + Sum(f, b)
  {
    if b == [] {
      assert a + b == a;
    } else {
      assert (a + b)[..|a + b| - 1] == a + b[..|b| - 1];
      SumConcat(f, a, b[..|b| - 1]);
    }
  }

  lemma {:induction false} SumOfPermutation(f: nat -> nat, a: seq<nat>, b: seq<nat>)
    requires multiset(a) == multiset(b)
    ensures Sum(f, a) == Sum(f, b)
  {
    if a == [] {
      assert |b| == |multiset(b)| == 0;
    } else {
      var n := |a| - 1;
      assert a == a[..n] + [a[n]];
      assert a[n] in multiset(b);
      var k :| 0 <= k < |b| && b[k] == a[n];
      assert b == b[..k] + [b[k]] + b[k + 1..];
      var b' := b[..k] + b[k + 1..];
      assert multiset(a[..n]) == multiset(a) - multiset{a[n]} == multiset(b');
      SumOfPermutation(f, a[..n], b');
      SumConcat(f, b[..k] + [b[k]], b[k + 1..]);
      SumConcat(f, b[..k], [b[k]]);
      SumConcat(f, b[..k], b[k + 1..]);
    }
  }

  lemma {:induction false} StreamsCount(c: Config, t: Title, media: seq<Version>, order: seq<nat>, f: nat -> nat)
    requires Within(order, media)
    requires forall i :: 0 <= i < |media| ==> f(i) == PerVersion(c, t, media[i])
    ensures |StreamsInOrder(c, t, media, order)| == Sum(f, order)
  {
    if order != [] {
      var n := |order| - 1;
      StreamsCount(c, t, media, order[..n], f);
      VersionStreamsCount(c, t, order[n], media[order[n]]);
    }
  }

  /** Streams that every version gets. */
  function Each(c: Config, t: Title): nat {
    DirectCount(c, t) + Flag(c.includeTranscodeOriginal) + Flag(c.includePlexTv && t.plexGuid)
  }

  lemma {:induction false} SumInListedOrder(c: Config, t: Title, media: seq<Version>, f: nat -> nat, n: nat)
    requires n <= |media|
    requires forall i :: 0 <= i < |media| ==> f(i) == PerVersion(c, t, media[i])
    ensures Sum(f, Range(n)) == n * Each(c, t) + DownCount(c, media[..n])
  {
    if n > 0 {
      SumInListedOrder(c, t, media, f, n - 1);
      assert Range(n)[..n - 1] == Range(n - 1);
      assert media[..n][..n - 1] == media[..n - 1];
      OneMore(n, Each(c, t));
      assert f(n - 1) == Each(c, t) + if c.includeTranscodeDown then Offered(c.qualities, Width(media[n - 1])) else 0;
    }
  }

  lemma OneMore(n: nat, each: nat)
    requires n > 0
    ensures n * each == (n - 1) * each + each
  {}

  /**
    The number of streams in closed form: per version the direct ones (one in proxy mode,
    one per connection otherwise) and the flags, and the lower qualities that fit.
   */
  lemma StreamCount(c: Config, t: Title, media: seq<Version>)
    ensures |StreamsInOrder(c, t, media, Order(media))|
            == |media| * Each(c, t) + DownCount(c, media)
  {
    hide StreamsInOrder, OrderFirst, DownCount;
    var f := (i: nat) => if i < |media| then PerVersion(c, t, media[i]) else 0;
    StreamsCount(c, t, media, Order(media), f);
    SumOfPermutation(f, Order(media), Range(|media|));
    SumInListedOrder(c, t, media, f, |media|);
    assert media[..|media|] == media;
  }

  /** How often a stream is offered. */
  function Times(streams: seq<Stream>, s: Stream): nat {
    multiset(streams)[s]
  }

  lemma {:induction false} DownTimes(qualities: seq<Resolution>, width: int, i: nat, s: Stream)
    requires !s.Transcode? || s.mediaIndex != i || s.quality == None
    ensures Times(DownStreams(qualities, width, i), s) == 0
  {
    if qualities != [] { DownTimes(qualities[..|qualities| - 1], width, i, s); }
  }

  lemma TimesConcat(a: seq<Stream>, b: seq<Stream>, s: Stream)
    ensures Times(a + b, s) == Times(a, s) + Times(b, s)
  {}

  lemma VersionTimes(c: Config, t: Title, i: nat, v: Version, j: nat)
    ensures Times(VersionStreams(c, t, i, v), Transcode(j, None))
            == if i == j then Flag(c.includeTranscodeOriginal) else 0
  {
    hide Times;
    var s := Transcode(j, None);
    var direct := DirectStreams(c, t, PartKey(v));
    var original := if c.includeTranscodeOriginal then [Transcode(i, None)] else [];
    var down := if c.includeTranscodeDown then DownStreams(c.qualities, Width(v), i) else [];
    var tv := if c.includePlexTv && t.plexGuid then [PlexTv] else [];
    TimesConcat(direct + original + down, tv, s);
    TimesConcat(direct + original, down, s);
    TimesConcat(direct, original, s);
    DownTimes(c.qualities, Width(v), i, s);
    Absent(direct, s);
    Absent(tv, s);
    if !c.includeTranscodeDown { Absent(down, s); }
    if c.includeTranscodeOriginal && i == j { Single(s); } else { Absent(original, s); }
  }

  lemma Absent(streams: seq<Stream>, s: Stream)
    requires s !in streams
    ensures Times(streams, s) == 0
  {
    assert s !in multiset(streams);
  }

  lemma Single(s: Stream)
    ensures Times([s], s) == 1
  {}

  lemma {:induction false} OriginalTimes(c: Config, t: Title, media: seq<Version>, order: seq<nat>, j: nat)
    requires Within(order, media)
    ensures Times(StreamsInOrder(c, t, media, order), Transcode(j, None))
            == if c.includeTranscodeOriginal then multiset(order)[j] else 0
  {
    hide Times, VersionStreams;
    if order == [] {
      Absent([], Transcode(j, None));
    } else {
      var n := |order| - 1;
      var earlier, last := StreamsInOrder(c, t, media, order[..n]), VersionStreams(c, t, order[n], media[order[n]]);
      OriginalTimes(c, t, media, order[..n], j);
      VersionTimes(c, t, order[n], media[order[n]], j);
      TimesConcat(earlier, last, Transcode(j, None));
      assert order == order[..n] + [order[n]];
    }
  }

  lemma {:induction false} RangeTimes(n: nat, j: nat)
    ensures multiset(Range(n))[j] == if j < n then 1 else 0
  {
    if n > 0 {
      RangeTimes(n - 1, j);
      assert Range(n) == Range(n - 1) + [n - 1];
    }
  }

  /** Every position of the original list is offered for transcoding exactly once, and no other index is. */
  lemma EveryIndexOnce(c: Config, t: Title, media: seq<Version>, j: nat)
    ensures Times(StreamsInOrder(c, t, media, Order(media)), Transcode(j, None))
            == if c.includeTranscodeOriginal && j < |media| then 1 else 0
  {
    OriginalTimes(c, t, media, Order(media), j);
    RangeTimes(|media|, j);
  }

  lemma {:induction false} DownIff(qualities: seq<Resolution>, width: int, i: nat, j: nat, q: Resolution)
    ensures Transcode(j, Some(q)) in DownStreams(qualities, width, i)
            <==> i == j && q in qualities && width > MinWidth(q)
  {
    if qualities != [] {
      var n := |qualities| - 1;
      DownIff(qualities[..n], width, i, j, q);
      assert qualities == qualities[..n] + [qualities[n]];
    }
  }

  lemma VersionDownIff(c: Config, t: Title, i: nat, v: Version, j: nat, q: Resolution)
    ensures Transcode(j, Some(q)) in VersionStreams(c, t, i, v)
            <==> i == j && c.includeTranscodeDown && q in c.qualities && Width(v) > MinWidth(q)
  {
    DownIff(c.qualities, Width(v), i, j, q);
    var direct := DirectStreams(c, t, PartKey(v));
    assert Transcode(j, Some(q)) !in direct;
  }

  lemma {:induction false} InOrderDownIff(
    c: Config, t: Title, media: seq<Version>, order: seq<nat>, j: nat, q: Resolution)
    requires Within(order, media)
    ensures Transcode(j, Some(q)) in StreamsInOrder(c, t, media, order)
            <==> j in order && c.includeTranscodeDown && q in c.qualities && Width(media[j]) > MinWidth(q)
  {
    hide VersionStreams;
    if order != [] {
      var n := |order| - 1;
      InOrderDownIff(c, t, media, order[..n], j, q);
      VersionDownIff(c, t, order[n], media[order[n]], j, q);
      assert order == order[..n] + [order[n]];
    }
  }

  /** A lower quality is offered for exactly the versions wider than it needs, under their original index. */
  lemma DownOfferedIff(c: Config, t: Title, media: seq<Version>, j: nat, q: Resolution)
    ensures Transcode(j, Some(q)) in StreamsInOrder(c, t, media, Order(media))
            <==> j < |media| && c.includeTranscodeDown && q in c.qualities
                 && (if media[j].width.Some? then media[j].width.value else 0)
                    > (match q case R480 => 640 case R720 => 1280 case R1080 => 1920)
  {
    InOrderDownIff(c, t, media, Order(media), j, q);
    if j < |media| { var p := PlaceOf(media, j); }
  }
}
