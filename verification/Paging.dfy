/** Walking the public releases of a package page by page while the registry changes. */
module Paging {
  import opened Wrappers
  import opened Order
  import opened Releases

  /** The decoded payload of a release cursor. */
  datatype Cursor = Cursor(packageName: Text, afterVersion: Text)

  datatype Page = Page(items: seq<Release>, nextCursor: Option<Cursor>)

  datatype ServerError = PackageNotFound | InvalidCursor

  datatype ClientError = RequestFailed(e: ServerError) | InvalidPagination | PaginationLimit

  const MAX_PAGES: nat := 10000

  /** A public release is published or yanked. */
  predicate Visible(s: Registry, name: Text, version: Text) {
    && Key(name, version) in s.releases
    && (s.releases[Key(name, version)].status.Published? || s.releases[Key(name, version)].status.Yanked?)
  }

  predicate After(after: Option<Text>, version: Text, less: Less) { after.Some? ==> less(after.value, version) }

  ghost predicate Keyed(s: Registry) { forall k | k in s.releases :: s.releases[k].key == k }

  ghost predicate Has(items: seq<Release>, version: Text) {
    exists i | 0 <= i < |items| :: items[i].key.version == version
  }

  ghost predicate AscendingItems(items: seq<Release>, less: Less) {
    forall i, j | 0 <= i < j < |items| :: less(items[i].key.version, items[j].key.version)
  }

  function Last(items: seq<Release>): Text
    requires |items| > 0
  {
    items[|items| - 1].key.version
  }

  ghost predicate Covers(p: Page, version: Text, less: Less) {
    || Has(p.items, version)
    || (p.nextCursor.Some? && less(p.nextCursor.value.afterVersion, version))
  }

  /** The first `limit` visible releases after `after`, with a cursor exactly if more remain. */
  ghost predicate IsPage(p: Page, s: Registry, name: Text, after: Option<Text>, limit: nat, less: Less) {
    && AscendingItems(p.items, less)
    && (forall r | r in p.items ::
          r.key.name == name && Visible(s, name, r.key.version) && r == s.releases[r.key] && After(after, r.key.version, less))
    && (forall v {:trigger Covers(p, v, less)} ::
          Visible(s, name, v) && After(after, v, less) ==> Covers(p, v, less))
    && |p.items| <= limit
    && (p.nextCursor.Some? ==>
          && |p.items| == limit > 0
          && p.nextCursor.value == Cursor(name, Last(p.items))
          && exists v :: Visible(s, name, v) && less(Last(p.items), v))
  }

  // ---- the server ----

  /** The versions that pass the filter, in whatever order the releases are stored. */
  method Matches(s: Registry, name: Text, after: Option<Text>, less: Less) returns (versions: seq<Text>)
    ensures Distinct(versions)
    ensures forall v :: v in versions <==> Visible(s, name, v) && After(after, v, less)
  {
    versions := [];
    var rest := s.releases.Keys;
    while rest != {}
      invariant rest <= s.releases.Keys
      invariant Distinct(versions)
      invariant forall v :: v in versions <==> Visible(s, name, v) && After(after, v, less) && Key(name, v) !in rest
    {
      var key :| key in rest;
      var status := s.releases[key].status;
      if key.name == name && (status.Published? || status.Yanked?) && After(after, key.version, less) {
        assert key.version !in versions;
        versions := versions + [key.version];
      }
      rest := rest - {key};
    }
  }

  /** `listPublicReleases`: filter, sort, cut at limit + 1, and say where the next page starts. */
  method ListPublicReleases(s: Registry, name: Text, cursor: Option<Cursor>, limit: nat, less: Less)
    returns (r: Result<Page, ServerError>)
    requires StrictTotal(less) && Keyed(s) && limit >= 1
    ensures r.Err? <==>
              || name !in s.directory.packages || !s.directory.packages[name].isPublic
              || (cursor.Some? && cursor.value.packageName != name)
    ensures r.Err? ==> r.error == if name !in s.directory.packages || !s.directory.packages[name].isPublic
                                  then PackageNotFound else InvalidCursor
    ensures r.Ok? ==> |r.value.items| <= limit && (r.value.nextCursor.Some? ==> |r.value.items| == limit)
    ensures r.Ok? ==> forall item | item in r.value.items ::
              && (item.status.Published? || item.status.Yanked?)
              && item.key.name == name && item.key in s.releases && s.releases[item.key] == item
              && (cursor.Some? ==> less(cursor.value.afterVersion, item.key.version))
    ensures r.Ok? ==> forall k | k in s.releases && k.name == name
                                 && (s.releases[k].status.Published? || s.releases[k].status.Yanked?)
                                 && (cursor.Some? ==> less(cursor.value.afterVersion, k.version)) ::
              || s.releases[k] in r.value.items
              || (r.value.nextCursor.Some? && less(r.value.nextCursor.value.afterVersion, k.version))
    ensures r.Ok? ==> IsPage(r.value, s, name, if cursor.Some? then Some(cursor.value.afterVersion) else None, limit, less)
  {
    if name !in s.directory.packages || !s.directory.packages[name].isPublic { return Err(PackageNotFound); }
    if cursor.Some? && cursor.value.packageName != name { return Err(InvalidCursor); }
    var after := if cursor.Some? then Some(cursor.value.afterVersion) else None;
    var sorted := SortedMatches(s, name, after, less);
    var matches := sorted[..if |sorted| <= limit + 1 then |sorted| else limit + 1];
    var shown := matches[..if |matches| <= limit then |matches| else limit];
    var items := seq(|shown|, i requires 0 <= i < |shown| => s.releases[Key(name, shown[i])]);
    var next := if |matches| > limit then Some(Cursor(name, items[|items| - 1].key.version)) else None;
    PageOfSorted(Page(items, next), s, name, after, limit, less, sorted);
    PageMeans(Page(items, next), s, name, after, limit, less);
    return Ok(Page(items, next));
  }

  /** What a page lists, and what it leaves to the next ones. */
  lemma PageMeans(p: Page, s: Registry, name: Text, after: Option<Text>, limit: nat, less: Less)
    requires Keyed(s) && IsPage(p, s, name, after, limit, less)
    ensures forall item | item in p.items ::
              && (item.status.Published? || item.status.Yanked?)
              && item.key.name == name && item.key in s.releases && s.releases[item.key] == item
              && (after.Some? ==> less(after.value, item.key.version))
    ensures forall k | k in s.releases && k.name == name
                       && (s.releases[k].status.Published? || s.releases[k].status.Yanked?)
                       && (after.Some? ==> less(after.value, k.version)) ::
              || s.releases[k] in p.items
              || (p.nextCursor.Some? && less(p.nextCursor.value.afterVersion, k.version))
  {
    forall item | item in p.items ensures item.key == Key(name, item.key.version) {
    }
    forall k | k in s.releases && k.name == name && (s.releases[k].status.Published? || s.releases[k].status.Yanked?)
               && (after.Some? ==> less(after.value, k.version))
      ensures s.releases[k] in p.items || (p.nextCursor.Some? && less(p.nextCursor.value.afterVersion, k.version))
    {
      assert k == Key(name, k.version) && Visible(s, name, k.version);
      assert Covers(p, k.version, less);
      if Has(p.items, k.version) {
        var i :| 0 <= i < |p.items| && p.items[i].key.version == k.version;
        assert p.items[i] in p.items && p.items[i].key == k;
      }
    }
  }

  method SortedMatches(s: Registry, name: Text, after: Option<Text>, less: Less) returns (sorted: seq<Text>)
    requires StrictTotal(less)
    ensures Ascending(sorted, less)
    ensures forall v :: v in sorted <==> Visible(s, name, v) && After(after, v, less)
    ensures forall i | 0 <= i < |sorted| :: Key(name, sorted[i]) in s.releases
  {
    var versions := Matches(s, name, after, less);
    sorted := Sort(versions, less);
    SortAscending(versions, less);
    SortPermutes(versions, less);
    forall i | 0 <= i < |sorted| ensures Key(name, sorted[i]) in s.releases {
      assert sorted[i] in sorted && Visible(s, name, sorted[i]);
    }
  }

  /** Cutting the sorted matches gives the page. */
  lemma PageOfSorted(p: Page, s: Registry, name: Text, after: Option<Text>, limit: nat, less: Less, sorted: seq<Text>)
    requires StrictTotal(less) && Keyed(s) && limit >= 1 && Ascending(sorted, less)
    requires forall v :: v in sorted <==> Visible(s, name, v) && After(after, v, less)
    requires forall i | 0 <= i < |sorted| :: Key(name, sorted[i]) in s.releases
    requires |p.items| == if |sorted| <= limit then |sorted| else limit
    requires forall i | 0 <= i < |p.items| :: p.items[i] == s.releases[Key(name, sorted[i])]
    requires p.nextCursor == if |sorted| > limit then Some(Cursor(name, Last(p.items))) else None
    ensures IsPage(p, s, name, after, limit, less)
  {
    assert forall i | 0 <= i < |p.items| :: p.items[i].key == Key(name, sorted[i]);
    forall v | Visible(s, name, v) && After(after, v, less) ensures Covers(p, v, less) {
      assert v in sorted;
      var i :| 0 <= i < |sorted| && sorted[i] == v;
      if i < |p.items| {
        assert p.items[i].key.version == v;
      } else {
        assert less(sorted[|p.items| - 1], sorted[i]);
      }
    }
    if |sorted| > limit {
      assert sorted[limit] in sorted && less(sorted[limit - 1], sorted[limit]);
      assert Visible(s, name, sorted[limit]) && less(Last(p.items), sorted[limit]);
    }
  }

  // ---- walks ----

  /** Where page `i` of a walk starts. */
  function StartOf(pages: seq<Page>, i: nat): Option<Text>
    requires i <= |pages| && forall j | 0 <= j < i :: pages[j].nextCursor.Some?
  {
    if i == 0 then None else Some(pages[i - 1].nextCursor.value.afterVersion)
  }

  /** Page `i` was served by the registry as it was at the i-th request. */
  ghost predicate Served(pages: seq<Page>, i: nat, world: nat -> Registry, name: Text, limit: nat, less: Less) {
    && i < |pages| && (forall j | 0 <= j < i :: pages[j].nextCursor.Some?)
    && IsPage(pages[i], world(i), name, StartOf(pages, i), limit, less)
  }

  ghost predicate IsWalk(pages: seq<Page>, world: nat -> Registry, name: Text, limit: nat, less: Less) {
    && (forall i | 0 <= i < |pages| - 1 :: pages[i].nextCursor.Some?)
    && (forall i {:trigger Served(pages, i, world, name, limit, less)} ::
          0 <= i < |pages| ==> Served(pages, i, world, name, limit, less))
  }

  function Concat(pages: seq<Page>): seq<Release>
    decreases |pages|
  {
    if |pages| == 0 then [] else Concat(pages[..|pages| - 1]) + pages[|pages| - 1].items
  }

  ghost predicate Open(pages: seq<Page>) { |pages| > 0 ==> pages[|pages| - 1].nextCursor.Some? }

  lemma WalkPrefix(pages: seq<Page>, world: nat -> Registry, name: Text, limit: nat, less: Less)
    requires IsWalk(pages, world, name, limit, less) && |pages| > 0
    ensures IsWalk(pages[..|pages| - 1], world, name, limit, less) && Open(pages[..|pages| - 1])
  {
    var before := pages[..|pages| - 1];
    forall i | 0 <= i < |before| ensures Served(before, i, world, name, limit, less) {
      assert Served(pages, i, world, name, limit, less);
    }
  }

  lemma WalkExtends(pages: seq<Page>, p: Page, world: nat -> Registry, name: Text, limit: nat, less: Less)
    requires IsWalk(pages, world, name, limit, less) && Open(pages)
    requires IsPage(p, world(|pages|), name, StartOf(pages, |pages|), limit, less)
    ensures IsWalk(pages + [p], world, name, limit, less)
  {
    var longer := pages + [p];
    forall i | 0 <= i < |longer| ensures Served(longer, i, world, name, limit, less) {
      if i < |pages| { assert Served(pages, i, world, name, limit, less); }
    }
  }

  lemma ConcatExtends(pages: seq<Page>, p: Page)
    ensures Concat(pages + [p]) == Concat(pages) + p.items
  {
    assert (pages + [p])[..|pages|] == pages;
  }

  lemma {:induction false} WalkFills(pages: seq<Page>, world: nat -> Registry, name: Text, limit: nat, less: Less)
    requires StrictTotal(less) && limit >= 1 && IsWalk(pages, world, name, limit, less)
    ensures |Concat(pages)| <= |pages| * limit
    ensures |pages| > 0 && Open(pages) ==>
              && |Concat(pages)| == |pages| * limit && |Concat(pages)| > 0
              && Last(Concat(pages)) == pages[|pages| - 1].nextCursor.value.afterVersion
    decreases |pages|
  {
    if |pages| > 0 {
      WalkPrefix(pages, world, name, limit, less);
      WalkFills(pages[..|pages| - 1], world, name, limit, less);
      assert Served(pages, |pages| - 1, world, name, limit, less);
      assert |pages| * limit == (|pages| - 1) * limit + limit;
    }
  }

  /** A walk never repeats or goes back: all its versions ascend, and a page that is not the last is full. */
  lemma {:induction false} WalkAscends(pages: seq<Page>, world: nat -> Registry, name: Text, limit: nat, less: Less)
    requires StrictTotal(less) && limit >= 1 && IsWalk(pages, world, name, limit, less)
    ensures AscendingItems(Concat(pages), less)
    ensures |Concat(pages)| <= |pages| * limit
    ensures |pages| > 0 && Open(pages) ==>
              && |Concat(pages)| == |pages| * limit && |Concat(pages)| > 0
              && Last(Concat(pages)) == pages[|pages| - 1].nextCursor.value.afterVersion
    decreases |pages|
  {
    WalkFills(pages, world, name, limit, less);
    if |pages| > 0 {
      WalkPrefix(pages, world, name, limit, less);
      WalkAscends(pages[..|pages| - 1], world, name, limit, less);
      var before, p := Concat(pages[..|pages| - 1]), pages[|pages| - 1];
      assert Served(pages, |pages| - 1, world, name, limit, less);
      if |pages| > 1 { ItemsFollow(before, p.items, Last(before), less); }
    }
  }

  lemma ItemsFollow(before: seq<Release>, items: seq<Release>, last: Text, less: Less)
    requires StrictTotal(less) && AscendingItems(before, less) && |before| > 0 && last == Last(before)
    requires forall r | r in items :: less(last, r.key.version)
    ensures forall i, j | 0 <= i < |before| && 0 <= j < |items| :: less(before[i].key.version, items[j].key.version)
  {
    forall i, j | 0 <= i < |before| && 0 <= j < |items| ensures less(before[i].key.version, items[j].key.version) {
      assert items[j] in items && less(last, items[j].key.version);
      assert i < |before| - 1 ==> less(before[i].key.version, last);
      assert Transits(less, before[i].key.version, last, items[j].key.version);
    }
  }

  lemma {:induction false} CursorBelow(
    pages: seq<Page>, world: nat -> Registry, name: Text, limit: nat, less: Less, i: nat)
    requires StrictTotal(less) && limit >= 1 && IsWalk(pages, world, name, limit, less) && Open(pages)
    requires i < |pages| - 1
    ensures pages[i].nextCursor.Some?
    ensures less(pages[i].nextCursor.value.afterVersion, pages[|pages| - 1].nextCursor.value.afterVersion)
    decreases |pages|
  {
    var n := |pages| - 1;
    WalkPrefix(pages, world, name, limit, less);
    var p := pages[n];
    assert Served(pages, n, world, name, limit, less);
    assert p.items[|p.items| - 1] in p.items;
    assert less(pages[n - 1].nextCursor.value.afterVersion, p.nextCursor.value.afterVersion);
    if i < n - 1 {
      CursorBelow(pages[..n], world, name, limit, less, i);
      assert Transits(
        less, pages[i].nextCursor.value.afterVersion, pages[n - 1].nextCursor.value.afterVersion,
        p.nextCursor.value.afterVersion);
    }
  }

  ghost predicate LedOn(pages: seq<Page>, c: Cursor) {
    exists i | 0 <= i < |pages| :: pages[i].nextCursor == Some(c)
  }

  /** The client never sees the same cursor twice. */
  lemma CursorIsNew(pages: seq<Page>, p: Page, world: nat -> Registry, name: Text, limit: nat, less: Less)
    requires StrictTotal(less) && limit >= 1 && IsWalk(pages + [p], world, name, limit, less) && p.nextCursor.Some?
    ensures !LedOn(pages, p.nextCursor.value)
  {
    forall i | 0 <= i < |pages| ensures pages[i].nextCursor != p.nextCursor {
      CursorBelow(pages + [p], world, name, limit, less, i);
      assert (pages + [p])[i] == pages[i];
    }
  }

  lemma StillLedOn(pages: seq<Page>, p: Page)
    ensures forall c | LedOn(pages, c) :: LedOn(pages + [p], c)
    ensures p.nextCursor.Some? ==> LedOn(pages + [p], p.nextCursor.value)
  {
    forall c | LedOn(pages, c) ensures LedOn(pages + [p], c) {
      var i :| 0 <= i < |pages| && pages[i].nextCursor == Some(c);
      assert (pages + [p])[i].nextCursor == Some(c);
    }
    assert (pages + [p])[|pages|] == p;
  }

  lemma HasEither(a: seq<Release>, b: seq<Release>, v: Text)
    ensures Has(a, v) || Has(b, v) ==> Has(a + b, v)
  {
    if Has(a, v) {
      var i :| 0 <= i < |a| && a[i].key.version == v;
      assert (a + b)[i].key.version == v;
    } else if Has(b, v) {
      var j :| 0 <= j < |b| && b[j].key.version == v;
      assert (a + b)[|a| + j].key.version == v;
    }
  }

  /** Whatever is visible at every request of a finished walk is among its items. */
  lemma {:induction false} WalkCovers(
    pages: seq<Page>, world: nat -> Registry, name: Text, limit: nat, less: Less, v: Text)
    requires StrictTotal(less) && IsWalk(pages, world, name, limit, less) && |pages| > 0
    requires forall i | 0 <= i < |pages| :: Visible(world(i), name, v)
    ensures Has(Concat(pages), v) || (Open(pages) && less(pages[|pages| - 1].nextCursor.value.afterVersion, v))
    decreases |pages|
  {
    var n := |pages| - 1;
    var before, p := Concat(pages[..n]), pages[n];
    HasEither(before, p.items, v);
    if n > 0 {
      WalkPrefix(pages, world, name, limit, less);
      WalkCovers(pages[..n], world, name, limit, less, v);
    }
    if !Has(before, v) {
      assert Served(pages, n, world, name, limit, less);
      assert Covers(p, v, less);
    }
  }

  /** Every item was visible when its page was served. */
  lemma {:induction false} WalkIsSound(
    pages: seq<Page>, world: nat -> Registry, name: Text, limit: nat, less: Less, r: Release)
    requires IsWalk(pages, world, name, limit, less) && r in Concat(pages)
    ensures exists i | 0 <= i < |pages| ::
              Visible(world(i), name, r.key.version) && r == world(i).releases[Key(name, r.key.version)]
    decreases |pages|
  {
    var n := |pages| - 1;
    if r in Concat(pages[..n]) {
      WalkPrefix(pages, world, name, limit, less);
      WalkIsSound(pages[..n], world, name, limit, less, r);
    } else {
      assert Served(pages, n, world, name, limit, less);
      assert r in pages[n].items;
      assert r.key == Key(name, r.key.version);
    }
  }

  // ---- the client ----

  /** The pages so far, and what the loop keeps of them. */
  ghost predicate Walking(
    pages: seq<Page>, seenCursors: set<Cursor>, cursor: Option<Cursor>,
    world: nat -> Registry, name: Text, limit: nat, less: Less)
  {
    && IsWalk(pages, world, name, limit, less) && Open(pages)
    && (forall c | c in seenCursors :: LedOn(pages, c))
    && cursor == (if |pages| == 0 then None else pages[|pages| - 1].nextCursor)
    && (cursor.Some? ==> cursor.value.packageName == name)
  }

  ghost function AfterOf(cursor: Option<Cursor>): Option<Text> {
    if cursor.None? then None else Some(cursor.value.afterVersion)
  }

  lemma OneMorePage(
    pages: seq<Page>, p: Page, seenCursors: set<Cursor>, cursor: Option<Cursor>,
    world: nat -> Registry, name: Text, limit: nat, less: Less)
    requires StrictTotal(less) && limit >= 1 && Walking(pages, seenCursors, cursor, world, name, limit, less)
    requires IsPage(p, world(|pages|), name, AfterOf(cursor), limit, less)
    ensures IsWalk(pages + [p], world, name, limit, less)
    ensures p.nextCursor.Some? ==>
              && p.nextCursor.value !in seenCursors
              && Walking(pages + [p], seenCursors + {p.nextCursor.value}, p.nextCursor, world, name, limit, less)
  {
    WalkExtends(pages, p, world, name, limit, less);
    StillLedOn(pages, p);
    if p.nextCursor.Some? { CursorIsNew(pages, p, world, name, limit, less); }
  }

  /** `listPublicReleasePage` of the client: one request. */
  method ListPublicReleasePage(s: Registry, name: Text, cursor: Option<Cursor>, limit: nat, less: Less)
    returns (r: Result<Page, ClientError>)
    requires StrictTotal(less) && Keyed(s) && limit >= 1 && (cursor.Some? ==> cursor.value.packageName == name)
    ensures r.Ok? ==> IsPage(r.value, s, name, AfterOf(cursor), limit, less)
    ensures r.Err? ==>
              && r.error == RequestFailed(PackageNotFound)
              && (name in s.directory.packages ==> !s.directory.packages[name].isPublic)
  {
    var page := ListPublicReleases(s, name, cursor, limit, less);
    r := if page.Ok? then Ok(page.value) else Err(RequestFailed(page.error));
  }

  /** `listPublicReleases` of the client, against a registry that changes between requests: it returns the
      whole walk, and never takes it for a broken server. */
  method CollectPublicReleases(world: nat -> Registry, name: Text, limit: nat, less: Less)
    returns (r: Result<seq<Release>, ClientError>, ghost pages: seq<Page>)
    requires StrictTotal(less) && limit >= 1 && forall i :: Keyed(world(i))
    ensures IsWalk(pages, world, name, limit, less) && |pages| <= MAX_PAGES
    ensures r.Ok? ==> |pages| > 0 && !Open(pages) && r.value == Concat(pages)
    ensures r.Err? ==> Open(pages)
    ensures r.Err? ==>
              || (r.error == PaginationLimit && |pages| == 10000)
              || (&& r.error == RequestFailed(PackageNotFound) && |pages| < MAX_PAGES
                  && (name in world(|pages|).directory.packages ==> !world(|pages|).directory.packages[name].isPublic))
  {
    var releases: seq<Release> := [];
    var seenCursors: set<Cursor> := {};
    var cursor: Option<Cursor> := None;
    pages := [];
    for pageNumber := 0 to MAX_PAGES
      invariant |pages| == pageNumber && releases == Concat(pages)
      invariant Walking(pages, seenCursors, cursor, world, name, limit, less)
    {
      var page := ListPublicReleasePage(world(pageNumber), name, cursor, limit, less);
      if page.Err? { return Err(page.error), pages; }
      OneMorePage(pages, page.value, seenCursors, cursor, world, name, limit, less);
      ConcatExtends(pages, page.value);
      pages := pages + [page.value];
      releases := releases + page.value.items;
      if page.value.nextCursor.None? { return Ok(releases), pages; }
      if page.value.nextCursor.value in seenCursors {
        assert false;
      }
      seenCursors := seenCursors + {page.value.nextCursor.value};
      cursor := page.value.nextCursor;
    }
    return Err(PaginationLimit), pages;
  }

  // ---- what a walk over a changing registry guarantees ----

  ghost predicate HasOnce(items: seq<Release>, version: Text) {
    && Has(items, version)
    && forall i, j | 0 <= i < |items| && 0 <= j < |items| ::
         items[i].key.version == version && items[j].key.version == version ==> i == j
  }

  /** The registry as it was at each request of a client, some operations having run in between. */
  ghost predicate Observes(world: nat -> Registry, ops: seq<Op>, cuts: nat -> nat) {
    && (forall i {:trigger cuts(i)} :: cuts(i) <= |ops|)
    && (forall i, j {:trigger cuts(i), cuts(j)} :: i <= j ==> cuts(i) <= cuts(j))
    && (forall i {:trigger world(i)} :: cuts(i) <= |ops| ==> world(i) == Releases.Run(ops[..cuts(i)]))
  }

  lemma ObservedIsKeyed(world: nat -> Registry, ops: seq<Op>, cuts: nat -> nat)
    requires Observes(world, ops, cuts)
    ensures forall i :: Keyed(world(i))
  {
    forall i ensures Keyed(world(i)) {
      assert cuts(i) <= |ops|;
      RunIsGood(ops[..cuts(i)]);
      forall k | k in world(i).releases ensures world(i).releases[k].key == k {
        assert ReleaseOk(world(i), k);
      }
    }
  }

  /** Published or yanked, a release stays public. */
  lemma StaysVisible(world: nat -> Registry, ops: seq<Op>, cuts: nat -> nat, name: Text, version: Text, i: nat)
    requires Observes(world, ops, cuts) && Visible(world(0), name, version)
    ensures Visible(world(i), name, version)
  {
    assert cuts(0) <= cuts(i) <= |ops|;
    var first, more := ops[..cuts(0)], ops[cuts(0)..cuts(i)];
    assert first + more == ops[..cuts(i)];
    NoDecisionIsUndone(first, more);
  }

  lemma AscendingOnce(items: seq<Release>, less: Less, version: Text)
    requires StrictTotal(less) && AscendingItems(items, less) && Has(items, version)
    ensures HasOnce(items, version)
  {
    forall i, j | 0 <= i < j < |items| ensures items[i].key.version != items[j].key.version {
      assert less(items[i].key.version, items[j].key.version);
    }
  }

  /** Submits, approvals, rejections and yanks between the pages do not disturb a finished walk: what was public
      at the first request is listed exactly once, and nothing is listed twice. */
  lemma ChangingWalkIsComplete(
    world: nat -> Registry, ops: seq<Op>, cuts: nat -> nat,
    pages: seq<Page>, name: Text, limit: nat, less: Less, version: Text)
    requires StrictTotal(less) && limit >= 1 && Observes(world, ops, cuts)
    requires IsWalk(pages, world, name, limit, less) && |pages| > 0 && !Open(pages)
    ensures AscendingItems(Concat(pages), less)
    ensures Key(name, version) in world(0).releases
            && (world(0).releases[Key(name, version)].status.Published?
                || world(0).releases[Key(name, version)].status.Yanked?) ==>
              HasOnce(Concat(pages), version)
    ensures forall r | r in Concat(pages) :: r.key.name == name && (r.status.Published? || r.status.Yanked?)
  {
    WalkAscends(pages, world, name, limit, less);
    if Visible(world(0), name, version) {
      forall i | 0 <= i < |pages| ensures Visible(world(i), name, version) {
        StaysVisible(world, ops, cuts, name, version, i);
      }
      WalkCovers(pages, world, name, limit, less, version);
      AscendingOnce(Concat(pages), less, version);
    }
    forall r | r in Concat(pages) ensures r.key.name == name && (r.status.Published? || r.status.Yanked?) {
      ObservedIsKeyed(world, ops, cuts);
      ListedIsPublic(pages, world, name, limit, less, r);
    }
  }

  lemma ListedIsPublic(pages: seq<Page>, world: nat -> Registry, name: Text, limit: nat, less: Less, r: Release)
    requires IsWalk(pages, world, name, limit, less) && (forall i :: Keyed(world(i))) && r in Concat(pages)
    ensures r.key.name == name && (r.status.Published? || r.status.Yanked?)
  {
    WalkIsSound(pages, world, name, limit, less, r);
    var i :| 0 <= i < |pages| && Visible(world(i), name, r.key.version)
          && r == world(i).releases[Key(name, r.key.version)];
    assert Keyed(world(i));
  }

  // ---- when a walk fits ----

  ghost predicate Quiet(world: nat -> Registry) { forall i {:trigger world(i)} :: world(i) == world(0) }

  ghost function VersionsOf(s: Registry, name: Text): set<Text> {
    set k | k in s.releases && k.name == name && (s.releases[k].status.Published? || s.releases[k].status.Yanked?) ::
      k.version
  }

  lemma {:induction false} DistinctCount(items: seq<Release>, versions: set<Text>, less: Less)
    requires StrictTotal(less) && AscendingItems(items, less)
    requires forall r | r in items :: r.key.version in versions
    ensures |items| <= |versions|
    ensures (forall v | v in versions :: Has(items, v)) <==> |items| == |versions|
    decreases |items|
  {
    if |items| == 0 {
      if versions != {} {
        var v :| v in versions;
        assert !Has(items, v);
      }
    } else {
      var n := |items| - 1;
      var rest := versions - {items[n].key.version};
      assert items[n] in items;
      forall r | r in items[..n] ensures r.key.version in rest {
        var i :| 0 <= i < n && items[i] == r;
        assert less(items[i].key.version, items[n].key.version);
      }
      DistinctCount(items[..n], rest, less);
      HasInit(items, rest, less);
      assert |versions| == |rest| + 1;
    }
  }

  lemma HasInit(items: seq<Release>, rest: set<Text>, less: Less)
    requires StrictTotal(less) && AscendingItems(items, less) && |items| > 0 && Last(items) !in rest
    ensures (forall v | v in rest + {Last(items)} :: Has(items, v)) <==>
            (forall v | v in rest :: Has(items[..|items| - 1], v))
  {
    var n := |items| - 1;
    forall v | v in rest ensures Has(items, v) <==> Has(items[..n], v) {
      if Has(items, v) {
        var i :| 0 <= i < |items| && items[i].key.version == v;
        assert items[..n][i].key.version == v;
      }
      if Has(items[..n], v) {
        var i :| 0 <= i < n && items[..n][i].key.version == v;
        assert items[i].key.version == v;
      }
    }
    assert items[n].key.version == Last(items);
  }

  /** What is still to come after the last page is not yet listed. */
  lemma OpenWalkMisses(pages: seq<Page>, world: nat -> Registry, name: Text, limit: nat, less: Less)
    returns (v: Text)
    requires StrictTotal(less) && limit >= 1 && IsWalk(pages, world, name, limit, less) && |pages| > 0 && Open(pages)
    ensures Visible(world(|pages| - 1), name, v) && !Has(Concat(pages), v)
  {
    var items := Concat(pages);
    WalkAscends(pages, world, name, limit, less);
    assert Served(pages, |pages| - 1, world, name, limit, less);
    v :| Visible(world(|pages| - 1), name, v) && less(Last(pages[|pages| - 1].items), v);
    Asymmetric(less, Last(items), v);
    forall i | 0 <= i < |items| ensures items[i].key.version != v {
      assert i < |items| - 1 ==> less(items[i].key.version, Last(items));
    }
  }

  lemma WalkWithin(pages: seq<Page>, world: nat -> Registry, name: Text, limit: nat, less: Less)
    requires StrictTotal(less) && limit >= 1 && Quiet(world) && IsWalk(pages, world, name, limit, less)
    ensures forall r | r in Concat(pages) :: r.key.version in VersionsOf(world(0), name)
  {
    forall r | r in Concat(pages) ensures r.key.version in VersionsOf(world(0), name) {
      WalkIsSound(pages, world, name, limit, less, r);
      assert Key(name, r.key.version) in world(0).releases;
    }
  }

  /** On a registry that does not change, a walk of at most 10,000 pages ends exactly if that many pages can hold
      the public releases. */
  lemma QuietWalkFits(pages: seq<Page>, world: nat -> Registry, name: Text, limit: nat, less: Less)
    requires StrictTotal(less) && limit >= 1 && Quiet(world)
    requires IsWalk(pages, world, name, limit, less) && 0 < |pages| <= MAX_PAGES
    requires Open(pages) ==> |pages| == MAX_PAGES
    ensures !Open(pages) <==> |VersionsOf(world(0), name)| <= MAX_PAGES * limit
    ensures !Open(pages) ==> |Concat(pages)| == |VersionsOf(world(0), name)|
  {
    var items, versions := Concat(pages), VersionsOf(world(0), name);
    WalkAscends(pages, world, name, limit, less);
    WalkWithin(pages, world, name, limit, less);
    DistinctCount(items, versions, less);
    if !Open(pages) {
      forall v | v in versions ensures Has(items, v) {
        assert forall i | 0 <= i < |pages| :: world(i) == world(0);
        WalkCovers(pages, world, name, limit, less, v);
      }
      MultiplyMonotone(|pages|, MAX_PAGES, limit);
    } else {
      var v := OpenWalkMisses(pages, world, name, limit, less);
      assert world(|pages| - 1) == world(0) && Key(name, v) in world(0).releases;
      assert v in versions;
    }
  }

  lemma MultiplyMonotone(a: nat, b: nat, c: nat)
    requires a <= b
    ensures a * c <= b * c
  {
  }

  /** For every page size: the client's result is complete and free of repeats, whatever happens between its
      requests, and it never reports a broken server. */
  method BrowseReleases(
    world: nat -> Registry, name: Text, limit: nat, less: Less, ghost ops: seq<Op>, ghost cuts: nat -> nat)
    returns (r: Result<seq<Release>, ClientError>)
    requires StrictTotal(less) && limit >= 1 && Observes(world, ops, cuts)
    ensures r.Ok? ==>
              && AscendingItems(r.value, less)
              && (forall k | k in world(0).releases && k.name == name
                             && (world(0).releases[k].status.Published? || world(0).releases[k].status.Yanked?) ::
                    HasOnce(r.value, k.version))
              && (forall item | item in r.value :: item.key.name == name && (item.status.Published? || item.status.Yanked?))
    ensures r != Err(InvalidPagination)
    ensures Quiet(world) && name in world(0).directory.packages && world(0).directory.packages[name].isPublic ==>
              (r.Ok? <==> |VersionsOf(world(0), name)| <= 10000 * limit)
  {
    ObservedIsKeyed(world, ops, cuts);
    ghost var pages;
    r, pages := CollectPublicReleases(world, name, limit, less);
    if r.Ok? {
      WalkAscends(pages, world, name, limit, less);
      forall k | k in world(0).releases && k.name == name
                 && (world(0).releases[k].status.Published? || world(0).releases[k].status.Yanked?)
        ensures HasOnce(r.value, k.version)
      {
        assert k == Key(name, k.version);
        ChangingWalkIsComplete(world, ops, cuts, pages, name, limit, less, k.version);
      }
      forall item | item in r.value
        ensures item.key.name == name && (item.status.Published? || item.status.Yanked?)
      {
        ListedIsPublic(pages, world, name, limit, less, item);
      }
    }
    if Quiet(world) && name in world(0).directory.packages && world(0).directory.packages[name].isPublic {
      assert world(|pages|) == world(0);
      QuietWalkFits(pages, world, name, limit, less);
    }
  }
}
