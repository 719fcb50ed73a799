/**
  The "Recently Added" row: one page from every section of a type, merged by date added.
 */
module RecentlyAdded {
  import opened Wrappers

  const PAGE := 100

  /** A library item; `title` stands for everything but its date. */
  datatype Item = Item(addedAt: int, title: string)

  type Section = seq<Item>

  // ---- a stable sort, newest first ----

  /** Puts an item that came before all of `sorted` in front of the first one not newer. */
  function Insert(x: Item, sorted: seq<Item>): seq<Item> {
    if sorted == [] || sorted[0].addedAt <= x.addedAt then [x] + sorted
    else [sorted[0]] + Insert(x, sorted[1..])
  }

  /** `sort(key=added_at, reverse=True)`: equal dates keep their order. */
  function Sort(items: seq<Item>): seq<Item> {
    if items == [] then [] else Insert(items[0], Sort(items[1..]))
  }

  predicate NewestFirst(items: seq<Item>) {
    forall i, j :: 0 <= i < j < |items| ==> items[i].addedAt >= items[j].addedAt
  }

  function WithDate(items: seq<Item>, date: int): seq<Item> {
    if items == [] then []
    else (if items[0].addedAt == date then [items[0]] else []) + WithDate(items[1..], date)
  }

  lemma {:induction false} InsertPosition(x: Item, sorted: seq<Item>) returns (i: nat)
    ensures i <= |sorted| && Insert(x, sorted) == sorted[..i] + [x] + sorted[i..]
    ensures forall j :: 0 <= j < i ==> sorted[j].addedAt > x.addedAt
    ensures i < |sorted| ==> sorted[i].addedAt <= x.addedAt
  {
    if sorted == [] || sorted[0].addedAt <= x.addedAt {
      i := 0;
    } else {
      i := InsertPosition(x, sorted[1..]);
      assert sorted == [sorted[0]] + sorted[1..];
      i := i + 1;
    }
  }

  lemma InsertSorted(x: Item, sorted: seq<Item>)
    requires NewestFirst(sorted)
    ensures NewestFirst(Insert(x, sorted)) && multiset(Insert(x, sorted)) == multiset(sorted) + multiset{x}
  {
    var i := InsertPosition(x, sorted);
    assert sorted == sorted[..i] + sorted[i..];
  }

  lemma {:induction false} InsertStable(x: Item, sorted: seq<Item>, date: int)
    ensures WithDate(Insert(x, sorted), date) == (if x.addedAt == date then [x] else []) + WithDate(sorted, date)
  {
    var r := Insert(x, sorted);
    if sorted == [] || sorted[0].addedAt <= x.addedAt {
      assert r[0] == x && r[1..] == sorted;
    } else {
      InsertStable(x, sorted[1..], date);
      assert r[0] == sorted[0] && r[1..] == Insert(x, sorted[1..]);
      if x.addedAt == date {
        assert sorted[0].addedAt != date;
        assert [] + WithDate(sorted[1..], date) == WithDate(sorted[1..], date);
      } else {
        assert [] + WithDate(sorted[1..], date) == WithDate(sorted[1..], date);
        assert [] + WithDate(sorted, date) == WithDate(sorted, date);
      }
    }
  }

  lemma SortedStep(items: seq<Item>, rest: seq<Item>)
    requires items != [] && NewestFirst(rest) && multiset(rest) == multiset(items[1..])
    ensures NewestFirst(Insert(items[0], rest)) && multiset(Insert(items[0], rest)) == multiset(items)
  {
    InsertSorted(items[0], rest);
    assert items == [items[0]] + items[1..];
  }

  /** The sort is one: in order, a permutation, and stable. */
  lemma {:induction false} SortIsStable(items: seq<Item>, date: int)
    ensures NewestFirst(Sort(items)) && multiset(Sort(items)) == multiset(items)
    ensures WithDate(Sort(items), date) == WithDate(items, date)
  {
    if items != [] {
      var rest := Sort(items[1..]);
      SortIsStable(items[1..], date);
      SortedStep(items, rest);
      InsertStable(items[0], rest, date);
    }
  }

  // ---- pages ----

  function Take(items: seq<Item>, n: nat): seq<Item> {
    if |items| <= n then items else items[..n]
  }

  function Drop(items: seq<Item>, n: nat): seq<Item> {
    if |items| <= n then [] else items[n..]
  }

  /** What Plex answers for a section sorted newest first, from `skip` on. */
  function PageOf(section: Section, skip: nat): seq<Item> {
    Take(Drop(section, skip), PAGE)
  }

  function Pages(sections: seq<Section>, skip: nat): seq<Item> {
    if sections == [] then [] else PageOf(sections[0], skip) + Pages(sections[1..], skip)
  }

  function All(sections: seq<Section>): seq<Item> {
    if sections == [] then [] else sections[0] + All(sections[1..])
  }

  /** A page holds the next hundred items, or what is left of the section. */
  lemma PageAt(section: Section, skip: nat)
    ensures var page := PageOf(section, skip);
            && |page| == (if |section| <= skip then 0 else if |section| <= skip + 100 then |section| - skip else 100)
            && forall i :: 0 <= i < |page| ==> page[i] == section[skip + i]
  {}

  /** The row the handler returns. */
  function Row(sections: seq<Section>, skip: nat): seq<Item> {
    Take(Sort(Pages(sections, skip)), PAGE)
  }

  /** The page of the whole library that a skip asks for. */
  function TruePage(sections: seq<Section>, skip: nat): seq<Item> {
    Take(Drop(Sort(All(sections)), skip), PAGE)
  }

  /** The row is the first hundred of all items of the pages, newest first. */
  lemma RowAt(sections: seq<Section>, skip: nat)
    ensures var row, items := Row(sections, skip), Sort(Pages(sections, skip));
            && |row| == (if |items| <= 100 then |items| else 100)
            && (forall i :: 0 <= i < |row| ==> row[i] == items[i])
            && (forall i, j :: 0 <= i < j < |items| ==> items[i].addedAt >= items[j].addedAt)
            && multiset(items) == multiset(Pages(sections, skip))
  {
    SortIsStable(Pages(sections, skip), 0);
  }

  ghost predicate SectionsSorted(sections: seq<Section>) {
    forall i :: 0 <= i < |sections| ==> NewestFirst(sections[i])
  }

  // ---- dropping an item that cannot reach the first page ----

  function AtLeast(items: seq<Item>, date: int): nat {
    if items == [] then 0 else (if items[0].addedAt >= date then 1 else 0) + AtLeast(items[1..], date)
  }

  lemma {:induction false} InsertIntoFront(y: Item, a: seq<Item>, b: seq<Item>)
    requires b != [] ==> b[0].addedAt <= y.addedAt
    ensures Insert(y, a + b) == Insert(y, a) + b
  {
    if a == [] {
      assert a + b == b;
    } else {
      InsertIntoFront(y, a[1..], b);
      assert (a + b)[0] == a[0] && (a + b)[1..] == a[1..] + b;
      assert [a[0]] + (Insert(y, a[1..]) + b) == [a[0]] + Insert(y, a[1..]) + b;
      assert [y] + (a + b) == [y] + a + b;
    }
  }

  lemma {:induction false} InsertIntoBack(y: Item, a: seq<Item>, b: seq<Item>)
    requires forall i :: 0 <= i < |a| ==> a[i].addedAt > y.addedAt
    ensures Insert(y, a + b) == a + Insert(y, b)
  {
    if a == [] {
      assert a + b == b;
    } else {
      InsertIntoBack(y, a[1..], b);
      assert (a + b)[0] == a[0] && (a + b)[1..] == a[1..] + b;
      assert [a[0]] + (a[1..] + Insert(y, b)) == a + Insert(y, b);
    }
  }

  lemma {:induction false} InsertLength(x: Item, sorted: seq<Item>)
    ensures |Insert(x, sorted)| == |sorted| + 1
  {
    if sorted != [] { InsertLength(x, sorted[1..]); }
  }

  lemma SortCons(before: seq<Item>, rest: seq<Item>)
    requires before != []
    ensures Sort(before + rest) == Insert(before[0], Sort(before[1..] + rest))
  {
    assert (before + rest)[1..] == before[1..] + rest;
  }

  /** Where the sort puts an item `x` standing behind `before` and ahead of `after`. */
  lemma {:induction false} SortAround(before: seq<Item>, x: Item, after: seq<Item>) returns (a: seq<Item>, b: seq<Item>)
    ensures Sort(before + ([x] + after)) == a + [x] + b && Sort(before + after) == a + b
    ensures |a| >= AtLeast(before, x.addedAt)
  {
    hide Sort, Insert;
    if before == [] {
      a, b := SortFront(x, after);
      assert before + ([x] + after) == [x] + after && before + after == after;
    } else {
      SortCons(before, [x] + after);
      SortCons(before, after);
      a, b := SortAround(before[1..], x, after);
      SortedAround(before[1..] + ([x] + after), a, x, b);
      a, b := InsertAround(before[0], a, x, b);
    }
  }

  lemma SortFront(x: Item, after: seq<Item>) returns (a: seq<Item>, b: seq<Item>)
    ensures Sort([x] + after) == a + [x] + b && Sort(after) == a + b
  {
    assert ([x] + after)[1..] == after;
    var i := InsertPosition(x, Sort(after));
    a, b := Sort(after)[..i], Sort(after)[i..];
  }

  lemma InsertAround(y: Item, a: seq<Item>, x: Item, b: seq<Item>) returns (a': seq<Item>, b': seq<Item>)
    requires forall i :: 0 <= i < |a| ==> a[i].addedAt >= x.addedAt
    requires b != [] ==> b[0].addedAt <= x.addedAt
    ensures Insert(y, a + [x] + b) == a' + [x] + b' && Insert(y, a + b) == a' + b'
    ensures |a'| == |a| + if y.addedAt >= x.addedAt then 1 else 0
  {
    a', b' := a, b;
    assert a + [x] + b == a + ([x] + b);
    if y.addedAt >= x.addedAt {
      InsertIntoFront(y, a, [x] + b);
      InsertIntoFront(y, a, b);
      InsertLength(y, a);
      a' := Insert(y, a);
    } else {
      InsertIntoBack(y, a, [x] + b);
      InsertIntoBack(y, a, b);
      assert ([x] + b)[1..] == b;
      b' := Insert(y, b);
    }
    assert a' + ([x] + b') == a' + [x] + b';
  }

  lemma SortedAround(items: seq<Item>, a: seq<Item>, x: Item, b: seq<Item>)
    requires Sort(items) == a + [x] + b
    ensures forall i :: 0 <= i < |a| ==> a[i].addedAt >= x.addedAt
    ensures b != [] ==> b[0].addedAt <= x.addedAt
  {
    SortIsStable(items, 0);
    var s := a + [x] + b;
    assert s[|a|] == x;
    assert forall i :: 0 <= i < |a| ==> s[i] == a[i];
    assert b != [] ==> s[|a| + 1] == b[0];
  }

  /** An item with a page of items ahead of it, none older, does not reach the first page. */
  lemma DropItem(before: seq<Item>, x: Item, after: seq<Item>, n: nat)
    requires AtLeast(before, x.addedAt) >= n
    ensures Take(Sort(before + [x] + after), n) == Take(Sort(before + after), n)
  {
    hide Sort, AtLeast;
    var a, b := SortAround(before, x, after);
    assert before + ([x] + after) == before + [x] + after;
    assert (a + [x] + b)[..n] == a[..n] == (a + b)[..n];
  }

  lemma {:induction false} DropItems(before: seq<Item>, q: seq<Item>, after: seq<Item>, n: nat)
    requires forall i :: 0 <= i < |q| ==> AtLeast(before, q[i].addedAt) >= n
    ensures Take(Sort(before + q + after), n) == Take(Sort(before + after), n)
  {
    hide Sort, AtLeast, Take;
    if q == [] {
      assert before + q == before;
    } else {
      DropItem(before, q[0], q[1..] + after, n);
      assert before + q + after == before + [q[0]] + (q[1..] + after);
      assert before + (q[1..] + after) == before + q[1..] + after;
      DropItems(before, q[1..], after, n);
    }
  }

  lemma {:induction false} AtLeastConcat(a: seq<Item>, b: seq<Item>, date: int)
    ensures AtLeast(a + b, date) == AtLeast(a, date) + AtLeast(b, date)
  {
    if a == [] {
      assert a + b == b;
    } else {
      AtLeastConcat(a[1..], b, date);
      assert (a + b)[1..] == a[1..] + b;
    }
  }

  lemma {:induction false} AtLeastAll(a: seq<Item>, date: int)
    requires forall i :: 0 <= i < |a| ==> a[i].addedAt >= date
    ensures AtLeast(a, date) == |a|
  {
    if a != [] { AtLeastAll(a[1..], date); }
  }

  /** Cutting one sorted section to its first page changes nothing on the merged first page. */
  lemma CutSection(before: seq<Item>, section: Section, after: seq<Item>, n: nat)
    requires NewestFirst(section)
    ensures Take(Sort(before + section + after), n) == Take(Sort(before + Take(section, n) + after), n)
  {
    hide Sort, AtLeast;
    if |section| > n {
      var p, q := section[..n], section[n..];
      forall i | 0 <= i < |q| ensures AtLeast(before + p, q[i].addedAt) >= n {
        PageAhead(before, section, n, n + i);
      }
      DropItems(before + p, q, after, n);
      Rejoin(before, p, q, after);
      assert section == p + q;
    }
  }

  lemma Rejoin(before: seq<Item>, p: seq<Item>, q: seq<Item>, after: seq<Item>)
    ensures before + (p + q) + after == before + p + q + after
  {}

  lemma PageAhead(before: seq<Item>, section: Section, n: nat, i: nat)
    requires NewestFirst(section) && n <= i < |section|
    ensures AtLeast(before + section[..n], section[i].addedAt) >= n
  {
    AtLeastConcat(before, section[..n], section[i].addedAt);
    AtLeastAll(section[..n], section[i].addedAt);
  }

  lemma {:induction false} CutSections(before: seq<Item>, sections: seq<Section>)
    requires SectionsSorted(sections)
    ensures Take(Sort(before + Pages(sections, 0)), PAGE) == Take(Sort(before + All(sections)), PAGE)
    decreases sections
  {
    if sections != [] {
      var page := PageOf(sections[0], 0);
      assert Drop(sections[0], 0) == sections[0];
      CutSections(before + page, sections[1..]);
      CutSection(before, sections[0], All(sections[1..]), PAGE);
      assert before + Pages(sections, 0) == before + page + Pages(sections[1..], 0);
      assert before + All(sections) == before + sections[0] + All(sections[1..]);
      assert before + page + All(sections[1..]) == (before + page) + All(sections[1..]);
    }
  }

  // ---- when the row is the true page ----

  /** With no skip the row is the first page of the whole library, for any number of sections. */
  lemma FirstPageExact(sections: seq<Section>)
    requires SectionsSorted(sections)
    ensures Row(sections, 0) == TruePage(sections, 0)
  {
    CutSections([], sections);
    assert [] + Pages(sections, 0) == Pages(sections, 0) && [] + All(sections) == All(sections);
    assert Drop(Sort(All(sections)), 0) == Sort(All(sections));
  }

  lemma {:induction false} SortSorted(items: seq<Item>)
    requires NewestFirst(items)
    ensures Sort(items) == items
  {
    if items != [] { SortSorted(items[1..]); }
  }

  lemma SingleSectionExact(section: Section, skip: nat)
    requires NewestFirst(section)
    ensures Row([section], skip) == TruePage([section], skip)
  {
    var page := PageOf(section, skip);
    assert Pages([section], skip) == page + Pages([], skip) == page;
    assert All([section]) == section + All([]) == section;
    SortSorted(section);
    SortSorted(page);
  }

  /** `n` sections of which the first two hold `skip` items each: the later page comes out empty. */
  function Twins(n: nat, skip: nat): seq<Section>
    requires n >= 2
  {
    var copy := seq(skip, _ => Item(0, ""));
    [copy, copy] + seq(n - 2, _ => [])
  }

  lemma {:induction false} NothingLeft(sections: seq<Section>, skip: nat)
    requires forall i :: 0 <= i < |sections| ==> |sections[i]| <= skip
    ensures Pages(sections, skip) == []
  {
    if sections != [] { NothingLeft(sections[1..], skip); }
  }

  lemma TwinsWrong(n: nat, skip: nat)
    requires n >= 2 && skip >= 1
    ensures SectionsSorted(Twins(n, skip)) && |Twins(n, skip)| == n
    ensures Row(Twins(n, skip), skip) != TruePage(Twins(n, skip), skip)
  {
    var sections := Twins(n, skip);
    NothingLeft(sections, skip);
    assert Row(sections, skip) == [];
    AllLength(sections);
    SortIsStable(All(sections), 0);
    assert |multiset(Sort(All(sections)))| == |multiset(All(sections))|;
  }

  lemma AllLength(sections: seq<Section>)
    requires |sections| >= 2
    ensures |All(sections)| >= |sections[0]| + |sections[1]|
  {
    assert sections[1..][0] == sections[1];
  }

  /**
    For `n` sections the row is the page asked for, whatever the library holds, exactly
    when nothing is skipped or there is at most one section.
   */
  lemma RowExactIff(n: nat, skip: nat)
    ensures (forall sections :: SectionsSorted(sections) && |sections| == n ==>
               Row(sections, skip) == TruePage(sections, skip))
            <==> skip == 0 || n <= 1
  {
    if skip == 0 || n <= 1 {
      forall sections | SectionsSorted(sections) && |sections| == n
        ensures Row(sections, skip) == TruePage(sections, skip)
      {
        if skip == 0 {
          FirstPageExact(sections);
        } else if n == 1 {
          SingleSectionExact(sections[0], skip);
          assert sections == [sections[0]];
        } else {
          assert sections == [];
        }
      }
    } else {
      TwinsWrong(n, skip);
    }
  }

  // ---- paging through the row ----

  /** The first `pages` pages a client gets by skipping a page at a time. */
  function Rows(sections: seq<Section>, pages: nat): seq<Item> {
    if pages == 0 then [] else Rows(sections, pages - 1) + Row(sections, (pages - 1) * PAGE)
  }

  /** The same before the merged pages are cut. */
  function Uncut(sections: seq<Section>, pages: nat): seq<Item> {
    if pages == 0 then [] else Uncut(sections, pages - 1) + Pages(sections, (pages - 1) * PAGE)
  }

  function Firsts(sections: seq<Section>, n: nat): seq<Item> {
    if sections == [] then [] else Take(sections[0], n) + Firsts(sections[1..], n)
  }

  lemma {:induction false} NextPage(sections: seq<Section>, n: nat)
    ensures multiset(Firsts(sections, n + PAGE)) == multiset(Firsts(sections, n)) + multiset(Pages(sections, n))
  {
    if sections != [] {
      NextPage(sections[1..], n);
      assert Take(sections[0], n + PAGE) == Take(sections[0], n) + PageOf(sections[0], n);
    }
  }

  lemma {:induction false} UncutIsFirsts(sections: seq<Section>, pages: nat)
    ensures multiset(Uncut(sections, pages)) == multiset(Firsts(sections, pages * PAGE))
  {
    hide Pages, Firsts;
    if pages == 0 {
      FirstsOfNone(sections);
    } else {
      UncutIsFirsts(sections, pages - 1);
      NextPage(sections, (pages - 1) * PAGE);
    }
  }

  lemma {:induction false} FirstsOfNone(sections: seq<Section>)
    ensures Firsts(sections, 0) == []
  {
    if sections != [] { FirstsOfNone(sections[1..]); }
  }

  lemma {:induction false} FirstsAreAll(sections: seq<Section>, n: nat)
    requires forall i :: 0 <= i < |sections| ==> |sections[i]| <= n
    ensures Firsts(sections, n) == All(sections)
  {
    if sections != [] { FirstsAreAll(sections[1..], n); }
  }

  lemma {:induction false} FirstPageLongest(sections: seq<Section>, skip: nat)
    ensures |Pages(sections, skip)| <= |Pages(sections, 0)|
  {
    if sections != [] { FirstPageLongest(sections[1..], skip); }
  }

  lemma RowOfPages(sections: seq<Section>, skip: nat)
    ensures |Row(sections, skip)| == if |Pages(sections, skip)| <= PAGE then |Pages(sections, skip)| else PAGE
    ensures |Pages(sections, skip)| <= PAGE ==> multiset(Row(sections, skip)) == multiset(Pages(sections, skip))
  {
    var all := Pages(sections, skip);
    SortIsStable(all, 0);
    assert |multiset(Sort(all))| == |multiset(all)|;
  }

  lemma {:induction false} RowsLength(sections: seq<Section>, pages: nat)
    ensures |Rows(sections, pages)| <= |Uncut(sections, pages)|
    ensures pages >= 1 && |Pages(sections, 0)| > PAGE ==> |Rows(sections, pages)| < |Uncut(sections, pages)|
  {
    hide Pages, Row;
    if pages > 0 {
      RowsLength(sections, pages - 1);
      RowOfPages(sections, (pages - 1) * PAGE);
    }
  }

  lemma {:induction false} RowsUncut(sections: seq<Section>, pages: nat)
    requires |Pages(sections, 0)| <= PAGE
    ensures multiset(Rows(sections, pages)) == multiset(Uncut(sections, pages))
  {
    hide Pages, Row;
    if pages > 0 {
      RowsUncut(sections, pages - 1);
      FirstPageLongest(sections, (pages - 1) * PAGE);
      RowOfPages(sections, (pages - 1) * PAGE);
    }
  }

  /**
    Paging to the end of every section shows each item, as often as the library holds it,
    exactly when the first pages of all sections together fit on one.
   */
  lemma EveryItemShownIff(sections: seq<Section>, pages: nat)
    requires pages >= 1 && forall i :: 0 <= i < |sections| ==> |sections[i]| <= pages * PAGE
    ensures multiset(Rows(sections, pages)) == multiset(All(sections)) <==> |Pages(sections, 0)| <= PAGE
  {
    hide Pages, Rows, Uncut, Firsts, All;
    UncutIsFirsts(sections, pages);
    FirstsAreAll(sections, pages * PAGE);
    if |Pages(sections, 0)| <= PAGE {
      RowsUncut(sections, pages);
    } else {
      RowsLength(sections, pages);
      assert |multiset(Uncut(sections, pages))| == |Uncut(sections, pages)|;
      assert |multiset(Rows(sections, pages))| == |Rows(sections, pages)|;
    }
  }

  // ---- the handler's loop ----

  datatype PlexType = Movie | Show | Episode
  datatype StremioType = MovieType | SeriesType

  datatype LibrarySection = LibrarySection(key: string, kind: PlexType)

  /** Plex's movies and shows have a Stremio type; episodes have none. */
  function ToStremio(kind: PlexType): Option<StremioType> {
    match kind case Movie => Some(MovieType) case Show => Some(SeriesType) case Episode => None
  }

  function OfType(sections: seq<LibrarySection>, asked: StremioType): seq<LibrarySection> {
    if sections == [] then []
    else (if ToStremio(sections[0].kind) == Some(asked) then [sections[0]] else []) + OfType(sections[1..], asked)
  }

  /** Sections stay in order, and each is taken by its own type alone. */
  lemma {:induction false} OfTypeParts(a: seq<LibrarySection>, b: seq<LibrarySection>, asked: StremioType)
    ensures OfType(a + b, asked) == OfType(a, asked) + OfType(b, asked)
  {
    hide ToStremio;
    if a == [] {
      assert a + b == b;
    } else {
      OfTypeParts(a[1..], b, asked);
      assert (a + b)[0] == a[0] && (a + b)[1..] == a[1..] + b;
      var first := if ToStremio(a[0].kind) == Some(asked) then [a[0]] else [];
      assert first + (OfType(a[1..], asked) + OfType(b, asked)) == first + OfType(a[1..], asked) + OfType(b, asked);
    }
  }

  lemma OneOfType(section: LibrarySection, asked: StremioType)
    ensures OfType([section], asked)
            == if section.kind == (if asked == MovieType then Movie else Show) then [section] else []
  {
    assert [section][1..] == [] && OfType([], asked) == [];
  }

  function Contents(plex: string -> Section, sections: seq<LibrarySection>): seq<Section> {
    seq(|sections|, i requires 0 <= i < |sections| => plex(sections[i].key))
  }

  lemma PagesStep(contents: seq<Section>, i: nat, skip: nat)
    requires i < |contents|
    ensures Pages(contents[i..], skip) == PageOf(contents[i], skip) + Pages(contents[i + 1..], skip)
  {
    assert contents[i..][1..] == contents[i + 1..];
  }

  /** `plex` answers, for a section key, the whole section newest first. */
  method RecentlyAdded(plex: string -> Section, configured: seq<LibrarySection>, asked: StremioType, skip: nat)
    returns (row: seq<Item>)
    ensures row == Row(Contents(plex, OfType(configured, asked)), skip)
  {
    hide Pages, PageOf, Sort, Take;
    var sections := OfType(configured, asked);
    var results := [];
    ghost var contents := Contents(plex, sections);
    for i := 0 to |sections|
      invariant results + Pages(contents[i..], skip) == Pages(contents, skip)
    {
      assert contents[i] == plex(sections[i].key);
      PagesStep(contents, i, skip);
      results := results + PageOf(plex(sections[i].key), skip);
    }
    assert contents[|sections|..] == [];
    NothingLeft([], skip);
    assert results == results + Pages([], skip) == Pages(contents, skip);
    row := Take(Sort(results), PAGE);
  }
}
