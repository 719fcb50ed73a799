/**
  Collection catalogs and connection lists of an addon configuration: what validation
  accepts, what the manifest then offers, and what a catalog request finds.
 */
module AddonConfig {
  import opened Wrappers
  import opened PyText

  datatype PlexType = Show | Movie | Episode
  datatype StremioType = Series | MovieType

  datatype Section = Section(key: string, title: string, kind: PlexType)
  datatype Collection = Collection(ratingKey: string, sectionKey: string, title: string, kind: PlexType)

  const COLLECTION_PREFIX := "plexio-collection-"

  function CatalogId(c: Collection): string {
    COLLECTION_PREFIX + c.sectionKey + "-" + c.ratingKey
  }

  function ToStremio(kind: PlexType): Option<StremioType> {
    match kind case Show => Some(Series) case Movie => Some(MovieType) case Episode => None
  }

  /** The dictionary of section types: a later section of the same key wins. */
  function SectionType(sections: seq<Section>, key: string): Option<PlexType> {
    if sections == [] then None
    else
      match SectionType(sections[1..], key)
      case Some(kind) => Some(kind)
      case None => if sections[0].key == key then Some(sections[0].kind) else None
  }

  /** The manifest's title search: the first section of a key. */
  function FirstTitle(sections: seq<Section>, key: string): Option<string> {
    if sections == [] then None
    else if sections[0].key == key then Some(sections[0].title)
    else FirstTitle(sections[1..], key)
  }

  /** The last section of a key. */
  ghost predicate LastWithKey(sections: seq<Section>, key: string, j: nat) {
    j < |sections| && sections[j].key == key && forall k :: j < k < |sections| ==> sections[k].key != key
  }

  /** The first one. */
  ghost predicate FirstWithKey(sections: seq<Section>, key: string, j: nat) {
    j < |sections| && sections[j].key == key && forall k :: 0 <= k < j ==> sections[k].key != key
  }

  /** The dictionary holds the type of the last section of a key, for the keys that some section has. */
  lemma {:induction false} SectionTypeIff(sections: seq<Section>, key: string)
    ensures forall kind :: SectionType(sections, key) == Some(kind)
                           <==> exists j: nat :: LastWithKey(sections, key, j) && sections[j].kind == kind
    ensures SectionType(sections, key).Some? <==> exists j :: 0 <= j < |sections| && sections[j].key == key
  {
    if sections != [] {
      var rest := sections[1..];
      SectionTypeIff(rest, key);
      assert forall k :: 0 < k < |sections| ==> sections[k] == rest[k - 1];
      if SectionType(rest, key).Some? {
        var j: nat :| LastWithKey(rest, key, j) && rest[j].kind == SectionType(rest, key).value;
        assert LastWithKey(sections, key, j + 1);
      } else if sections[0].key == key {
        assert LastWithKey(sections, key, 0);
      }
    }
  }

  /** The title is that of the first section of a key. */
  lemma {:induction false} FirstTitleIff(sections: seq<Section>, key: string)
    ensures forall title :: FirstTitle(sections, key) == Some(title)
                            <==> exists j: nat :: FirstWithKey(sections, key, j) && sections[j].title == title
    ensures FirstTitle(sections, key).Some? <==> exists j :: 0 <= j < |sections| && sections[j].key == key
  {
    if sections != [] {
      var rest := sections[1..];
      FirstTitleIff(rest, key);
      assert forall k :: 0 < k < |sections| ==> sections[k] == rest[k - 1];
      if sections[0].key == key {
        assert FirstWithKey(sections, key, 0);
      } else if FirstTitle(rest, key).Some? {
        var j: nat :| FirstWithKey(rest, key, j) && rest[j].title == FirstTitle(rest, key).value;
        assert FirstWithKey(sections, key, j + 1);
      }
    }
  }

  /** A collection's section, the last of its key, has its type. */
  ghost predicate Belongs(sections: seq<Section>, c: Collection) {
    exists j: nat :: LastWithKey(sections, c.sectionKey, j) && sections[j].kind == c.kind
  }

  predicate SamePlace(c: Collection, d: Collection) {
    c.sectionKey == d.sectionKey && c.ratingKey == d.ratingKey
  }

  predicate NumericKeys(collections: seq<Collection>) {
    forall i :: 0 <= i < |collections| ==> AllDigits(collections[i].ratingKey)
  }

  /** Every collection belongs to its section, and no two are the same place. */
  ghost predicate Accepted(sections: seq<Section>, collections: seq<Collection>) {
    && (forall i :: 0 <= i < |collections| ==> Belongs(sections, collections[i]))
    && (forall i, j :: 0 <= i < j < |collections| ==> !SamePlace(collections[i], collections[j]))
  }

  /** Catalog ids tell places apart, although section keys may hold hyphens. */
  lemma CatalogIdInjective(c: Collection, d: Collection)
    requires AllDigits(c.ratingKey) && AllDigits(d.ratingKey)
    ensures CatalogId(c) == CatalogId(d) <==> SamePlace(c, d)
  {
    if CatalogId(c) == CatalogId(d) {
      NoHyphen(c.ratingKey);
      NoHyphen(d.ratingKey);
      LastSeparator(COLLECTION_PREFIX + c.sectionKey, c.ratingKey, COLLECTION_PREFIX + d.sectionKey, d.ratingKey, '-');
      assert (COLLECTION_PREFIX + c.sectionKey)[|COLLECTION_PREFIX|..] == c.sectionKey;
      assert (COLLECTION_PREFIX + d.sectionKey)[|COLLECTION_PREFIX|..] == d.sectionKey;
    }
  }

  lemma NoHyphen(s: string)
    requires AllDigits(s)
    ensures '-' !in s
  {}

  /** Without the digits rule it would not: here two places share an id. */
  lemma HyphenatedKeysCollide()
    ensures var c, d := Collection("b-1", "a", "", Movie), Collection("1", "a-b", "", Movie);
            CatalogId(c) == CatalogId(d) && !SamePlace(c, d)
  {}

  // ---- validation ----

  datatype Fault = NotInSection | NotUnique

  /** The verdict names the first collection at fault, by the first rule it breaks. */
  ghost predicate FirstFault(sections: seq<Section>, collections: seq<Collection>, i: nat, fault: Fault) {
    i < |collections| && Accepted(sections, collections[..i])
    && match fault
       case NotInSection => !Belongs(sections, collections[i])
       case NotUnique =>
         Belongs(sections, collections[i]) && exists j :: 0 <= j < i && SamePlace(collections[j], collections[i])
  }

  method ValidateCollections(sections: seq<Section>, collections: seq<Collection>) returns (r: Result<(), Fault>)
    requires NumericKeys(collections)
    ensures r.Ok? <==> Accepted(sections, collections)
    ensures r.Err? ==> exists i :: FirstFault(sections, collections, i, r.error)
  {
    var seen: set<string> := {};
    for n := 0 to |collections|
      invariant Accepted(sections, collections[..n])
      invariant forall id :: id in seen <==> exists j :: 0 <= j < n && CatalogId(collections[j]) == id
    {
      var c := collections[n];
      SectionTypeIff(sections, c.sectionKey);
      if SectionType(sections, c.sectionKey) != Some(c.kind) {
        assert FirstFault(sections, collections, n, NotInSection);
        return Err(NotInSection);
      }
      forall j | 0 <= j < n ensures CatalogId(collections[j]) == CatalogId(c) <==> SamePlace(collections[j], c) {
        CatalogIdInjective(collections[j], c);
      }
      if CatalogId(c) in seen {
        assert FirstFault(sections, collections, n, NotUnique);
        return Err(NotUnique);
      }
      seen := seen + {CatalogId(c)};
      assert collections[..n + 1] == collections[..n] + [c];
    }
    assert collections[..|collections|] == collections;
    r := Ok(());
  }

  // ---- the manifest and catalog requests ----

  datatype Config = Config(sections: seq<Section>, collections: seq<Collection>, includeCollections: bool)

  function Configured(c: Config): seq<Collection> {
    if c.includeCollections then c.collections else []
  }

  ghost predicate Valid(c: Config) {
    NumericKeys(c.collections) && Accepted(c.sections, c.collections)
  }

  datatype Catalog = Catalog(id: string, kind: StremioType, title: string, sectionTitle: string)

  datatype LookupError = KeyError | StopIteration

  /** The title of the first section of the key. */
  ghost predicate TitledBy(sections: seq<Section>, key: string, title: string) {
    exists j: nat :: FirstWithKey(sections, key, j) && sections[j].title == title
  }

  /** A collection's entry: its id, title and Stremio type, and the title of its section. */
  ghost predicate EntryOf(sections: seq<Section>, item: Collection, entry: Catalog) {
    && entry.id == "plexio-collection-" + item.sectionKey + "-" + item.ratingKey
    && entry.title == item.title && TitledBy(sections, item.sectionKey, entry.sectionTitle)
    && ((item.kind == Show && entry.kind == Series) || (item.kind == Movie && entry.kind == MovieType))
  }

  /** The collection entries of the manifest; a type Stremio does not have raises first. */
  method CollectionCatalogs(c: Config) returns (r: Result<seq<Catalog>, LookupError>)
    requires Valid(c)
    ensures r.Ok? <==> forall i :: 0 <= i < |c.sections| ==> c.sections[i].kind != Episode
    ensures r.Err? ==> r.error == KeyError
    ensures r.Ok? && c.includeCollections ==>
              |r.value| == |c.collections|
              && forall i :: 0 <= i < |r.value| ==> EntryOf(c.sections, c.collections[i], r.value[i])
    ensures r.Ok? && !c.includeCollections ==> r.value == []
  {
    for i := 0 to |c.sections|
      invariant forall j :: 0 <= j < i ==> c.sections[j].kind != Episode
    {
      if ToStremio(c.sections[i].kind).None? { return Err(KeyError); }
    }
    var items := Configured(c);
    var catalogs: seq<Catalog> := [];
    for i := 0 to |items|
      invariant |catalogs| == i
      invariant forall j :: 0 <= j < i ==> EntryOf(c.sections, items[j], catalogs[j])
    {
      ghost var j: nat :| LastWithKey(c.sections, items[i].sectionKey, j) && c.sections[j].kind == items[i].kind;
      FirstTitleIff(c.sections, items[i].sectionKey);
      var kind := ToStremio(items[i].kind);
      var title := FirstTitle(c.sections, items[i].sectionKey);
      catalogs := catalogs + [Catalog(CatalogId(items[i]), kind.value, items[i].title, title.value)];
    }
    r := Ok(catalogs);
  }

  /** The title search succeeds exactly for the keys that have a type. */
  lemma {:induction false} TitleFound(sections: seq<Section>, key: string)
    ensures FirstTitle(sections, key).Some? <==> SectionType(sections, key).Some?
  {
    if sections != [] { TitleFound(sections[1..], key); }
  }

  datatype Target = OnDeck | Recent | OfCollection(collection: Collection) | NotFound | Raises | OfSection(key: string)

  /** The first configured collection of an id and type; comparing a type Stremio lacks raises. */
  function FindCollection(items: seq<Collection>, id: string, kind: StremioType): Target {
    if items == [] then NotFound
    else if CatalogId(items[0]) == id then
      (match ToStremio(items[0].kind)
       case None => Raises
       case Some(k) => if k == kind then OfCollection(items[0]) else FindCollection(items[1..], id, kind))
    else FindCollection(items[1..], id, kind)
  }

  /** A collection that the search stops at: its id is the one asked for, and its type is, or has no Stremio type. */
  predicate StopsAt(item: Collection, id: string, kind: StremioType) {
    && id == "plexio-collection-" + item.sectionKey + "-" + item.ratingKey
    && (item.kind == Episode || (item.kind == Show && kind == Series) || (item.kind == Movie && kind == MovieType))
  }

  /** The search is decided by the first of those, and finds nothing without one. */
  lemma {:induction false} FindCollectionIff(items: seq<Collection>, id: string, kind: StremioType)
    ensures (forall i :: 0 <= i < |items| ==> !StopsAt(items[i], id, kind)) ==>
              FindCollection(items, id, kind) == NotFound
    ensures forall i :: 0 <= i < |items| && StopsAt(items[i], id, kind)
                        && (forall j :: 0 <= j < i ==> !StopsAt(items[j], id, kind)) ==>
              FindCollection(items, id, kind) == if items[i].kind == Episode then Raises else OfCollection(items[i])
  {
    if items != [] {
      var rest := items[1..];
      FindCollectionIff(rest, id, kind);
      assert forall i :: 0 < i < |items| ==> items[i] == rest[i - 1];
      forall i | 0 <= i < |items| && StopsAt(items[i], id, kind)
                 && (forall j :: 0 <= j < i ==> !StopsAt(items[j], id, kind))
        ensures FindCollection(items, id, kind) == if items[i].kind == Episode then Raises else OfCollection(items[i])
      {
        if i > 0 {
          assert !StopsAt(items[0], id, kind);
          forall j | 0 <= j < i - 1 ensures !StopsAt(rest[j], id, kind) { assert rest[j] == items[j + 1]; }
        }
      }
    }
  }

  /** What each id asks for: the two rows, a collection by its prefix, and any other id as a section's key. */
  lemma CatalogTargetIff(c: Config, kind: StremioType, id: string)
    ensures CatalogTarget(c, kind, id) == OnDeck <==> id == "plexio-ondeck"
    ensures CatalogTarget(c, kind, id) == Recent <==> id == "plexio-recent"
    ensures CatalogTarget(c, kind, id) == OfSection(id)
            <==> id != "plexio-ondeck" && id != "plexio-recent" && !("plexio-collection-" <= id)
    ensures "plexio-collection-" <= id ==>
              CatalogTarget(c, kind, id)
              == FindCollection(if c.includeCollections then c.collections else [], id, kind)
  {
    assert "plexio-collection-" <= id ==> id[7] == 'c';
    FoundOrNot(Configured(c), id, kind);
  }

  lemma {:induction false} FoundOrNot(items: seq<Collection>, id: string, kind: StremioType)
    ensures var r := FindCollection(items, id, kind); r.OfCollection? || r.Raises? || r.NotFound?
  {
    if items != [] { FoundOrNot(items[1..], id, kind); }
  }

  function CatalogTarget(c: Config, kind: StremioType, id: string): Target {
    if id == "plexio-ondeck" then OnDeck
    else if id == "plexio-recent" then Recent
    else if COLLECTION_PREFIX <= id then FindCollection(Configured(c), id, kind)
    else OfSection(id)
  }

  /** A manifest entry, asked for with its own type, leads back to the collection it was made from. */
  lemma ManifestEntryFound(c: Config, i: nat)
    requires Valid(c) && i < |Configured(c)| && ToStremio(Configured(c)[i].kind).Some?
    ensures CatalogTarget(c, ToStremio(Configured(c)[i].kind).value, CatalogId(Configured(c)[i]))
            == OfCollection(Configured(c)[i])
  {
    var items := Configured(c);
    var id := CatalogId(items[i]);
    assert id[7] == 'c';
    forall j | 0 <= j < i ensures CatalogId(items[j]) != id {
      CatalogIdInjective(items[j], items[i]);
    }
    FoundAt(items, id, ToStremio(items[i].kind).value, i);
  }

  lemma {:induction false} FoundAt(items: seq<Collection>, id: string, kind: StremioType, i: nat)
    requires i < |items| && CatalogId(items[i]) == id && ToStremio(items[i].kind) == Some(kind)
    requires forall j :: 0 <= j < i ==> CatalogId(items[j]) != id
    ensures FindCollection(items, id, kind) == OfCollection(items[i])
  {
    if i > 0 {
      assert CatalogId(items[0]) != id;
      forall j | 0 <= j < i - 1 ensures CatalogId(items[1..][j]) != id {
        assert items[1..][j] == items[j + 1];
      }
      FoundAt(items[1..], id, kind, i - 1);
    }
  }

  /** And what a request finds was configured, under that id and type. */
  lemma {:induction false} FoundIsConfigured(items: seq<Collection>, id: string, kind: StremioType)
    requires FindCollection(items, id, kind).OfCollection?
    ensures var found := FindCollection(items, id, kind).collection;
            found in items && CatalogId(found) == id && ToStremio(found.kind) == Some(kind)
  {
    if !(CatalogId(items[0]) == id && ToStremio(items[0].kind) == Some(kind)) {
      FoundIsConfigured(items[1..], id, kind);
    }
  }

  // ---- connections for direct play ----

  datatype Kind = Local | Remote | Relay

  datatype Connection = Connection(url: string, kind: Kind)

  /** `rstrip('/')`. */
  function Trimmed(url: string): string {
    if url != "" && url[|url| - 1] == '/' then Trimmed(url[..|url| - 1]) else url
  }

  /** It takes off all slashes at the end and nothing else. */
  lemma {:induction false} TrimmedIff(url: string, t: string)
    ensures t == Trimmed(url)
            <==> t <= url && (forall i :: |t| <= i < |url| ==> url[i] == '/') && (t != "" ==> t[|t| - 1] != '/')
  {
    if url != "" && url[|url| - 1] == '/' {
      TrimmedIff(url[..|url| - 1], t);
    }
  }

  function Candidates(streaming: Connection, others: seq<Connection>, fallbacks: bool): seq<Connection> {
    [streaming] + if fallbacks then others else []
  }

  function Urls(candidates: seq<Connection>): set<string> {
    if candidates == [] then {}
    else Urls(candidates[..|candidates| - 1]) + {Trimmed(candidates[|candidates| - 1].url)}
  }

  /** The candidates whose trimmed URL was not listed before. */
  function FirstListed(candidates: seq<Connection>): seq<Connection> {
    if candidates == [] then []
    else
      var earlier, last := candidates[..|candidates| - 1], candidates[|candidates| - 1];
      FirstListed(earlier)
      + if Trimmed(last.url) in Urls(earlier) then [] else [Connection(Trimmed(last.url), last.kind)]
  }

  method DirectPlayConnections(
    streaming: Connection, others: seq<Connection>, fallbacks: bool)
    returns (r: seq<Connection>)
    ensures r == FirstListed([streaming] + (if fallbacks then others else []))
  {
    var candidates := Candidates(streaming, others, fallbacks);
    var seen: set<string> := {};
    r := [];
    for i := 0 to |candidates|
      invariant seen == Urls(candidates[..i]) && r == FirstListed(candidates[..i])
    {
      assert candidates[..i + 1][..i] == candidates[..i];
      var url := Trimmed(candidates[i].url);
      if url !in seen {
        seen := seen + {url};
        r := r + [Connection(url, candidates[i].kind)];
      }
    }
    assert candidates[..|candidates|] == candidates;
  }

  /** Every candidate's URL is kept, and nothing else. */
  lemma {:induction false} KeptUrls(candidates: seq<Connection>, url: string)
    ensures url in Urls(candidates) <==> exists i :: 0 <= i < |candidates| && Trimmed(candidates[i].url) == url
    ensures url in Urls(candidates)
            <==> exists k :: 0 <= k < |FirstListed(candidates)| && FirstListed(candidates)[k].url == url
  {
    if candidates != [] {
      var n := |candidates| - 1;
      var earlier := candidates[..n];
      KeptUrls(earlier, url);
      var kept, r := FirstListed(earlier), FirstListed(candidates);
      assert forall i :: 0 <= i < n ==> candidates[i] == earlier[i];
      assert forall k :: 0 <= k < |kept| ==> r[k] == kept[k];
      if url == Trimmed(candidates[n].url) && url !in Urls(earlier) {
        assert r[|kept|].url == url;
      }
    }
  }

  /** No URL is kept twice. */
  lemma {:induction false} KeptOnce(candidates: seq<Connection>, k: nat, l: nat)
    requires k < l < |FirstListed(candidates)|
    ensures FirstListed(candidates)[k].url != FirstListed(candidates)[l].url
  {
    var n := |candidates| - 1;
    var earlier := candidates[..n];
    var kept := FirstListed(earlier);
    if l < |kept| {
      KeptOnce(earlier, k, l);
    } else {
      KeptUrls(earlier, Trimmed(candidates[n].url));
      assert kept[k].url != Trimmed(candidates[n].url);
    }
  }

  /** A longer list only adds at the end: a URL keeps the place and kind of its first listing. */
  lemma {:induction false} EarlierKept(a: seq<Connection>, b: seq<Connection>)
    ensures FirstListed(a) <= FirstListed(a + b)
  {
    if b == [] {
      assert a + b == a;
    } else {
      assert (a + b)[..|a + b| - 1] == a + b[..|b| - 1];
      EarlierKept(a, b[..|b| - 1]);
    }
  }

  /** The streaming URL always comes first, and alone without fallbacks. */
  lemma StreamingFirst(streaming: Connection, others: seq<Connection>, fallbacks: bool)
    ensures var r := FirstListed(Candidates(streaming, others, fallbacks));
            r != [] && r[0] == Connection(Trimmed(streaming.url), streaming.kind) && (!fallbacks ==> |r| == 1)
  {
    var more := if fallbacks then others else [];
    EarlierKept([streaming], more);
    assert [streaming][..0] == [];
    assert FirstListed([streaming]) == [Connection(Trimmed(streaming.url), streaming.kind)];
    if !fallbacks { assert [streaming] + more == [streaming]; }
  }
}
