/**
  The order of a title's versions, said of what Plex reports about them and nothing else.
 */
module VersionOrder {
  import opened Wrappers
  import opened Versions

  /** What decides a version's place: kilobits a second, bytes, lines, and the names of codec and container. */
  datatype Facts = Facts(bitrate: real, size: real, height: real, codec: string, container: string)

  /** The value of a field, zero if it is absent or no number. */
  predicate Reads(x: Field, value: real) {
    x == Num(value) || ((x == Missing || x == NotNumber) && value == 0.0)
  }

  /** The value of the first field that is present and not zero, else of the second. */
  predicate ReadsFirst(x: Field, y: Field, value: real) {
    if x == Missing || x == Num(0.0) then Reads(y, value) else Reads(x, value)
  }

  predicate LowerCase(s: string, low: string) {
    |low| == |s|
    && forall k :: 0 <= k < |s| ==> low[k] as int == s[k] as int + if 'A' <= s[k] <= 'Z' then 32 else 0
  }

  /** The codec named by the first video stream, if there is one. */
  ghost predicate VideoCodec(streams: seq<PartStream>, codec: string) {
    || (exists k: nat :: IsFirstVideo(streams, k) && streams[k].codec == codec)
    || (codec == "" && forall k :: 0 <= k < |streams| ==> streams[k].streamType != Some(1))
  }

  predicate IsFirstVideo(streams: seq<PartStream>, k: nat) {
    k < |streams| && streams[k].streamType == Some(1)
    && forall j :: 0 <= j < k ==> streams[j].streamType != Some(1)
  }

  /** The height, or what the name of the resolution stands for. */
  ghost predicate ShowsHeight(v: Version, height: real) {
    exists name :: LowerCase(v.resolution, name) &&
      if v.height.Num? && v.height.value != 0.0 then height == v.height.value
      else height == if name == "4k" || name == "2160" then 2160.0
                     else if name == "1080" then 1080.0 else if name == "720" then 720.0 else 0.0
  }

  ghost predicate ShowsPart(v: Version, f: Facts, part: Part) {
    && ReadsFirst(v.bitrate, part.bitrate, f.bitrate) && Reads(part.size, f.size)
    && LowerCase(if v.container != "" then v.container else part.container, f.container)
    && exists codec :: VideoCodec(part.streams, codec)
                       && LowerCase(if v.videoCodec != "" then v.videoCodec else codec, f.codec)
  }

  /** The facts about a version: its own fields, with those of its first part to fall back on. */
  ghost predicate Shows(v: Version, f: Facts) {
    && ShowsHeight(v, f.height)
    && ShowsPart(v, f, if v.parts != [] then v.parts[0] else Part(None, None, "", Missing, Missing, []))
  }

  /** One name is in an earlier group than another. */
  ghost predicate Ahead(groups: seq<set<string>>, name: string, other: string) {
    exists g :: 0 <= g < |groups| && name in groups[g] && forall h :: 0 <= h <= g ==> other !in groups[h]
  }

  ghost function Codecs(): seq<set<string>> {
    [{"h264", "avc"}, {"hevc", "h265"}, {"vp9"}, {"av1"}]
  }

  ghost function Containers(): seq<set<string>> {
    [{"mp4", "m4v"}, {"mkv"}]
  }

  predicate Light(f: Facts) {
    f.bitrate <= 40000.0 && f.size <= 42949672960.0
  }

  /**
    Light versions come first; then those of the better codec, of the better container, of
    the greater height, of the smaller bitrate, with none known last, and else the one
    listed earlier.
   */
  ghost predicate Precedes(f: Facts, i: nat, g: Facts, j: nat) {
    if Light(f) != Light(g) then Light(f)
    else if Ahead(Codecs(), f.codec, g.codec) || Ahead(Codecs(), g.codec, f.codec)
    then Ahead(Codecs(), f.codec, g.codec)
    else if Ahead(Containers(), f.container, g.container) || Ahead(Containers(), g.container, f.container)
    then Ahead(Containers(), f.container, g.container)
    else if f.height != g.height then f.height > g.height
    else if f.bitrate != g.bitrate then f.bitrate != 0.0 && (g.bitrate == 0.0 || f.bitrate < g.bitrate)
    else i < j
  }

  // ---- the facts of a version ----

  function FactsOf(v: Version): Facts {
    var part := FirstPart(v);
    Facts(BitrateOf(v), Number(part.size), HeightOf(v),
          Lower(Or(v.videoCodec, FirstVideoCodec(part.streams))), Lower(Or(v.container, part.container)))
  }

  lemma LowerIff(s: string, low: string)
    ensures LowerCase(s, low) <==> low == Lower(s)
  {
    if LowerCase(s, low) {
      forall k | 0 <= k < |s| ensures low[k] == Lower(s)[k] {}
    }
  }

  lemma {:induction false} FirstVideoIff(streams: seq<PartStream>, codec: string)
    ensures VideoCodec(streams, codec) <==> codec == FirstVideoCodec(streams)
  {
    if streams != [] {
      var rest := streams[1..];
      assert forall k :: 0 < k < |streams| ==> streams[k] == rest[k - 1];
      FirstVideoIff(rest, codec);
      if streams[0].streamType == Some(1) {
        assert IsFirstVideo(streams, 0);
      } else {
        if k: nat :| IsFirstVideo(rest, k) && rest[k].codec == codec { assert IsFirstVideo(streams, k + 1); }
        if k: nat :| IsFirstVideo(streams, k) && streams[k].codec == codec { assert IsFirstVideo(rest, k - 1); }
      }
    }
  }

  lemma HeightIff(v: Version, height: real)
    ensures ShowsHeight(v, height) <==> height == HeightOf(v)
  {
    LowerIff(v.resolution, Lower(v.resolution));
    forall name | LowerCase(v.resolution, name) ensures name == Lower(v.resolution) { LowerIff(v.resolution, name); }
    hide Lower, LowerCase;
  }

  lemma NumbersIff(v: Version, f: Facts)
    ensures Reads(FirstPart(v).size, f.size) <==> f.size == Number(FirstPart(v).size)
    ensures ReadsFirst(v.bitrate, FirstPart(v).bitrate, f.bitrate) <==> f.bitrate == BitrateOf(v)
  {}

  /** Every version shows one set of facts. */
  lemma ShowsIff(v: Version, f: Facts)
    ensures Shows(v, f) <==> f == FactsOf(v)
  {
    var part := FirstPart(v);
    HeightIff(v, f.height);
    NumbersIff(v, f);
    LowerIff(Or(v.container, part.container), f.container);
    forall codec ensures VideoCodec(part.streams, codec) <==> codec == FirstVideoCodec(part.streams) {
      FirstVideoIff(part.streams, codec);
    }
    LowerIff(Or(v.videoCodec, FirstVideoCodec(part.streams)), f.codec);
    assert VideoCodec(part.streams, FirstVideoCodec(part.streams));
    hide Lower, LowerCase, HeightOf, ShowsHeight, VideoCodec, FirstVideoCodec, Reads, ReadsFirst, BitrateOf, Number;
  }

  // ---- ranks and groups ----

  lemma CodecsAhead(name: string, other: string)
    ensures Ahead(Codecs(), name, other) <==> CodecRank(name) < CodecRank(other)
  {
    InGroup(Codecs(), name, CodecRank(name));
    InGroup(Codecs(), other, CodecRank(other));
    AheadIff(Codecs(), name, CodecRank(name), other, CodecRank(other));
  }

  lemma ContainersAhead(name: string, other: string)
    ensures Ahead(Containers(), name, other) <==> ContainerRank(name) < ContainerRank(other)
  {
    InGroup(Containers(), name, ContainerRank(name));
    InGroup(Containers(), other, ContainerRank(other));
    AheadIff(Containers(), name, ContainerRank(name), other, ContainerRank(other));
  }

  /** The number of the first group with a name, or how many there are. */
  ghost predicate Group(groups: seq<set<string>>, name: string, g: nat) {
    g <= |groups| && (g < |groups| ==> name in groups[g]) && forall h :: 0 <= h < g ==> name !in groups[h]
  }

  lemma InGroup(groups: seq<set<string>>, name: string, g: nat)
    requires (groups == Codecs() && g == CodecRank(name)) || (groups == Containers() && g == ContainerRank(name))
    ensures Group(groups, name, g)
  {}

  lemma AheadIff(groups: seq<set<string>>, name: string, g: nat, other: string, h: nat)
    requires Group(groups, name, g) && Group(groups, other, h)
    ensures Ahead(groups, name, other) <==> g < h
  {}

  // ---- the order ----

  lemma PrecedesIsLess(media: seq<Version>, i: nat, j: nat)
    requires i < |media| && j < |media|
    ensures Precedes(FactsOf(media[i]), i, FactsOf(media[j]), j) <==> Less(KeyOf(media, i), KeyOf(media, j))
  {
    var f, g := FactsOf(media[i]), FactsOf(media[j]);
    CodecsAhead(f.codec, g.codec);
    CodecsAhead(g.codec, f.codec);
    ContainersAhead(f.container, g.container);
    ContainersAhead(g.container, f.container);
    hide Ahead, Codecs, Containers, CodecRank, ContainerRank, Lower, HeightOf, BitrateOf, FirstVideoCodec;
  }

  /** The position of each version in the order: `i` stands before `j`. */
  ghost predicate Before(order: seq<nat>, i: nat, j: nat) {
    exists p, q :: 0 <= p < q < |order| && order[p] == i && order[q] == j
  }

  lemma BeforeIsLess(media: seq<Version>, order: seq<nat>, i: nat, j: nat)
    requires i < |media| && j < |media| && Within(order, media) && SortedBy(media, order) && Before(order, i, j)
    ensures Less(KeyOf(media, i), KeyOf(media, j))
  {
    hide Less, KeyOf;
  }

  /** Of any two versions, the one that the facts put first comes first. */
  lemma OrderIff(media: seq<Version>, i: nat, j: nat, f: Facts, g: Facts)
    requires i < |media| && j < |media| && i != j
    requires Shows(media[i], f) && Shows(media[j], g)
    ensures Before(Order(media), i, j) <==> Precedes(f, i, g, j)
  {
    ShowsIff(media[i], f);
    ShowsIff(media[j], g);
    PrecedesIsLess(media, i, j);
    OrderSorted(media);
    LessIsStrictTotal(KeyOf(media, i), KeyOf(media, j), KeyOf(media, i));
    var p := PlaceOf(media, i);
    var q := PlaceOf(media, j);
    hide Shows, Precedes, Less, KeyOf, Order, FactsOf, SortedBy;
    assert if p < q then Before(Order(media), i, j) else Before(Order(media), j, i);
    if Before(Order(media), i, j) { BeforeIsLess(media, Order(media), i, j); }
    if Before(Order(media), j, i) { BeforeIsLess(media, Order(media), j, i); }
  }

  /** Facts there are for every version. */
  lemma EveryVersionShows(v: Version)
    ensures exists f :: Shows(v, f) && forall g :: Shows(v, g) ==> g == f
  {
    forall g ensures Shows(v, g) <==> g == FactsOf(v) { ShowsIff(v, g); }
    assert Shows(v, FactsOf(v));
  }
}
