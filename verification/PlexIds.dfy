/**
  The two families of Plexio media ids, one around a Plex guid and one around a Plex
  rating key, and the dispatch that tells them apart.
 */
module PlexIds {
  import opened Wrappers
  import opened PyText
  import Base64Url
  import Utf8

  const PLEXIO_PREFIX := "plexio:"
  const RATING_KEY_PREFIX := "plexio:rk-"

  datatype IdError = InvalidGuidId | NotNumeric | InvalidRatingKeyId

  function GuidToPlexioId(guid: string): string {
    PLEXIO_PREFIX + Base64Url.Encode(Utf8.Encode(guid))
  }

  function PlexioIdToGuid(id: string): Result<string, IdError> {
    if !(PLEXIO_PREFIX <= id) then Err(InvalidGuidId) else
    var encoded := id[|PLEXIO_PREFIX|..];
    if encoded == "" then Err(InvalidGuidId) else
    match Base64Url.Decode(encoded)
    case None => Err(InvalidGuidId)
    case Some(bytes) =>
      match Utf8.Decode(bytes)
      case None => Err(InvalidGuidId)
      case Some(guid) => Ok(guid)
  }

  function RatingKeyToPlexioId(value: string): Result<string, IdError> {
    if AllDigits(value) then Ok(RATING_KEY_PREFIX + value) else Err(NotNumeric)
  }

  predicate IsRatingKeyPlexioId(id: string) {
    RATING_KEY_PREFIX <= id &&
    var parts := Split(id[|RATING_KEY_PREFIX|..], ':');
    (|parts| == 1 || |parts| == 3) && forall i :: 0 <= i < |parts| ==> AllDigits(parts[i])
  }

  function PlexioIdToRatingKey(id: string): Result<string, IdError> {
    if IsRatingKeyPlexioId(id) then Ok(id[|RATING_KEY_PREFIX|..]) else Err(InvalidRatingKeyId)
  }

  /** What a media id asks for, in the order the stream handler tests it. */
  datatype Lookup = ByImdb(id: string) | ByRatingKey(value: string) | ByGuid(guid: string) | NotFound

  function Dispatch(mediaId: string): Lookup {
    if "tt" <= mediaId then ByImdb(mediaId)
    else if IsRatingKeyPlexioId(mediaId) then ByRatingKey(PlexioIdToRatingKey(mediaId).value)
    else if PLEXIO_PREFIX <= mediaId then
      match PlexioIdToGuid(mediaId)
      case Err(_) => NotFound
      case Ok(guid) => ByGuid(guid)
    else ByGuid(mediaId)
  }

  /** What follows the prefix of a rating-key id: one number, or three for an episode. */
  ghost predicate RatingKeyForm(value: string) {
    AllDigits(value) || exists show, season, number :: EpisodeValue(value, show, season, number)
  }

  predicate EpisodeValue(value: string, show: string, season: string, number: string) {
    AllDigits(show) && AllDigits(season) && AllDigits(number) && value == show + ":" + season + ":" + number
  }

  lemma RatingKeyFormIff(value: string)
    ensures IsRatingKeyPlexioId("plexio:rk-" + value) <==> RatingKeyForm(value)
  {
    hide Split;
    var id := "plexio:rk-" + value;
    assert id[|RATING_KEY_PREFIX|..] == value;
    var parts := Split(value, ':');
    SplitIff(value, ':', parts);
    if IsRatingKeyPlexioId(id) && |parts| == 3 {
      assert parts[1..][1..] == [parts[2]];
      assert Join(parts[1..], ':') == parts[1] + [':'] + Join([parts[2]], ':');
      assert EpisodeValue(value, parts[0], parts[1], parts[2]);
    }
    if AllDigits(value) { SplitWithout(value, ':'); }
    if show, season, number :| EpisodeValue(value, show, season, number) {
      EpisodeDispatch(show, season, number);
    }
  }

  /**
    Every media id by its form: IMDb ids as they are, rating-key ids without their prefix,
    other prefixed ids by the guid they encode if there is one, and any other id as a guid.
   */
  lemma DispatchIff(id: string)
    ensures forall x :: Dispatch(id) == ByImdb(x) <==> "tt" <= id && x == id
    ensures forall v :: Dispatch(id) == ByRatingKey(v) <==> id == "plexio:rk-" + v && RatingKeyForm(v)
    ensures !("tt" <= id) && !("plexio:" <= id) ==> Dispatch(id) == ByGuid(id)
    ensures forall e, guid ::
              id == "plexio:" + e && !IsRatingKeyPlexioId(id) ==>
                (Dispatch(id) == ByGuid(guid)
                 <==> e != "" && Base64Url.Decode(e) == Some(Utf8.Encode(guid)))
    ensures Dispatch(id).NotFound? ==> "plexio:" <= id
  {
    hide Base64Url.Decode, Utf8.Decode, Utf8.Encode;
    assert "plexio:" <= id ==> id[0] == 'p';
    assert "plexio:rk-" <= id ==> id == "plexio:rk-" + id[10..];
    forall v ensures Dispatch(id) == ByRatingKey(v) <==> id == "plexio:rk-" + v && RatingKeyForm(v) {
      RatingKeyFormIff(v);
      assert id == "plexio:rk-" + v ==> id[10..] == v;
    }
    forall e, guid | id == "plexio:" + e && !IsRatingKeyPlexioId(id)
      ensures Dispatch(id) == ByGuid(guid) <==> e != "" && Base64Url.Decode(e) == Some(Utf8.Encode(guid))
    {
      assert id[7..] == e;
      if e != "" && Base64Url.Decode(e).Some? { Utf8.DecodeIff(Base64Url.Decode(e).value, guid); }
    }
  }

  /** A guid id never reads as a rating-key id: that would take a first byte no text encodes to. */
  lemma GuidIdIsNotRatingKey(guid: string)
    ensures !IsRatingKeyPlexioId(GuidToPlexioId(guid))
  {
    var id := GuidToPlexioId(guid);
    var bytes := Utf8.Encode(guid);
    if guid != "" {
      Utf8.FirstByteLeads(guid);
      Base64Url.FirstCharacter(bytes);
      var text := Base64Url.Encode(bytes);
      assert id[|PLEXIO_PREFIX|] == text[0];
      assert Base64Url.FromChar('r') == Some(43);
      assert text[0] != 'r';
    }
  }

  /** Every non-empty guid is dispatched to itself; the id of the empty guid is refused. */
  lemma GuidDispatch(guid: string)
    ensures PlexioIdToGuid(GuidToPlexioId(guid)) == if guid == "" then Err(InvalidGuidId) else Ok(guid)
    ensures Dispatch(GuidToPlexioId(guid)) == if guid == "" then NotFound else ByGuid(guid)
  {
    var id := GuidToPlexioId(guid);
    var bytes := Utf8.Encode(guid);
    GuidIdIsNotRatingKey(guid);
    assert id[|PLEXIO_PREFIX|..] == Base64Url.Encode(bytes);
    assert id[0] == 'p';
    if guid != "" {
      Utf8.FirstByteLeads(guid);
      Base64Url.FirstCharacter(bytes);
      Base64Url.RoundTrip(bytes);
      Utf8.DecodeIff(bytes, guid);
    }
  }

  /** Rating keys are accepted exactly when numeric, and then dispatched to themselves. */
  lemma RatingKeyDispatch(value: string)
    ensures RatingKeyToPlexioId(value).Ok? <==> value != "" && forall i :: 0 <= i < |value| ==> '0' <= value[i] <= '9'
    ensures RatingKeyToPlexioId(value).Ok? ==> Dispatch(RatingKeyToPlexioId(value).value) == ByRatingKey(value)
  {
    var id := RATING_KEY_PREFIX + value;
    assert id[|RATING_KEY_PREFIX|..] == value;
    assert id[0] == 'p';
    if AllDigits(value) { SplitWithout(value, ':'); }
  }

  /** The episode form: show rating key, season and episode number. */
  lemma EpisodeDispatch(show: string, season: string, episode: string)
    requires AllDigits(show) && AllDigits(season) && AllDigits(episode)
    ensures var value := show + ":" + season + ":" + episode;
            Dispatch(RATING_KEY_PREFIX + value) == ByRatingKey(value) && Split(value, ':') == [show, season, episode]
  {
    hide Split;
    var value := show + ":" + season + ":" + episode;
    var id := RATING_KEY_PREFIX + value;
    assert value == show + ":" + (season + ":" + episode);
    SplitAtFirst(show, ':', season + ":" + episode);
    SplitAtFirst(season, ':', episode);
    SplitWithout(episode, ':');
    assert id[|RATING_KEY_PREFIX|..] == value;
    assert id[0] == 'p';
  }

  /** No guid and no rating key share an id, and each family is injective. */
  lemma IdsAreInjective(guid: string, guid': string, value: string, value': string)
    requires AllDigits(value) && AllDigits(value')
    ensures GuidToPlexioId(guid) != RatingKeyToPlexioId(value).value
    ensures GuidToPlexioId(guid) == GuidToPlexioId(guid') ==> guid == guid'
    ensures RatingKeyToPlexioId(value) == RatingKeyToPlexioId(value') ==> value == value'
  {
    GuidDispatch(guid);
    GuidDispatch(guid');
    RatingKeyDispatch(value);
    RatingKeyDispatch(value');
  }

  // ---- part keys in play URLs ----

  /** The path segment of a play URL that carries the media part's key. */
  function PartSegment(partKey: string): string {
    Base64Url.Encode(Utf8.Encode(partKey))
  }

  /** `b64decode_path`; None wherever it raises. */
  function DecodeSegment(segment: string): Option<string> {
    match Base64Url.DecodeLenient(segment)
    case None => None
    case Some(bytes) => Utf8.Decode(bytes)
  }

  lemma PartKeySurvives(partKey: string)
    ensures DecodeSegment(PartSegment(partKey)) == Some(partKey)
    ensures '/' !in PartSegment(partKey) && '=' !in PartSegment(partKey)
  {
    var bytes := Utf8.Encode(partKey);
    Base64Url.RoundTrip(bytes);
    Base64Url.LenientRoundTrip(bytes);
    Utf8.DecodeIff(bytes, partKey);
  }
}
