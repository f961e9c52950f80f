/** Public discovery: the two searches over packages and their documents, and when they give the same hits. */
module Search {
  import opened Wrappers
  import opened Order
  import opened DiscoveryFilter
  import Discovery

  datatype Document = Document(description: Text, facets: Facets, lessonCount: nat)

  const EMPTY_DOCUMENT := Document([], NO_FACETS, 0)

  datatype ReleaseId = ReleaseId(packageName: Text, version: Text)

  datatype FacetRow = FacetRow(release: ReleaseId, dimension: Dimension, value: Text)

  /** A package row with its release rows; `pointer` is `discovery_release_id`. */
  datatype Package = Package(isPublic: bool, rows: Discovery.Rows, pointer: Option<Text>)

  datatype Database = Database(
    packages: map<Text, Package>, documents: map<ReleaseId, Document>, facetRows: set<FacetRow>)

  datatype Hit = Hit(name: Text, latestVersion: Option<Text>, discoveryAvailable: bool, discovery: Document)

  // ---- text ----

  predicate OccursAt(text: Text, pattern: Text, i: nat) {
    i + |pattern| <= |text| && text[i..i + |pattern|] == pattern
  }

  predicate Includes(text: Text, pattern: Text) {
    exists i | 0 <= i <= |text| :: OccursAt(text, pattern, i)
  }

  /** SQL `strpos`: the position of the first occurrence counted from 1, or 0. */
  function Strpos(text: Text, pattern: Text): nat {
    if |text| < |pattern| then 0
    else if text[..|pattern|] == pattern then 1
    else if |text| == 0 then 0
    else
      var rest := Strpos(text[1..], pattern);
      if rest == 0 then 0 else rest + 1
  }

  lemma OccursBehind(text: Text, pattern: Text, i: nat)
    requires |text| > 0
    ensures OccursAt(text, pattern, i + 1) <==> OccursAt(text[1..], pattern, i)
  {
    if i + 1 + |pattern| <= |text| { assert text[i + 1..i + 1 + |pattern|] == text[1..][i..i + |pattern|]; }
  }

  /** A text includes what it begins with or what its rest includes. */
  lemma IncludesBehind(text: Text, pattern: Text)
    requires |text| > 0
    ensures Includes(text, pattern) <==> OccursAt(text, pattern, 0) || Includes(text[1..], pattern)
  {
    if Includes(text[1..], pattern) {
      var i :| 0 <= i <= |text[1..]| && OccursAt(text[1..], pattern, i);
      OccursBehind(text, pattern, i);
      var next := i + 1;
      assert OccursAt(text, pattern, next);
    }
    if Includes(text, pattern) {
      var i :| 0 <= i <= |text| && OccursAt(text, pattern, i);
      if i > 0 {
        var before := i - 1;
        OccursBehind(text, pattern, before);
        assert OccursAt(text[1..], pattern, before);
      }
    }
  }

  /** A positive position is that of the first occurrence, counted from 1; 0 is none. */
  lemma {:induction false} StrposIncludes(text: Text, pattern: Text)
    ensures Strpos(text, pattern) > 0 <==> Includes(text, pattern)
    ensures Strpos(text, pattern) > 0 ==>
              && OccursAt(text, pattern, Strpos(text, pattern) - 1)
              && forall i | 0 <= i < Strpos(text, pattern) - 1 :: !OccursAt(text, pattern, i)
    decreases |text|
  {
    if |text| < |pattern| {
      assert forall i | 0 <= i <= |text| :: !OccursAt(text, pattern, i);
    } else {
      assert OccursAt(text, pattern, 0) <==> text[..|pattern|] == pattern;
      if |text| > 0 && text[..|pattern|] != pattern {
        IncludesBehind(text, pattern);
        StrposIncludes(text[1..], pattern);
        var k := Strpos(text[1..], pattern);
        if k > 0 {
          OccursBehind(text, pattern, k - 1);
          forall i | 0 <= i < k ensures !OccursAt(text, pattern, i) {
            if i > 0 { OccursBehind(text, pattern, i - 1); }
          }
        }
      }
    }
  }

  // ---- the invariants the write paths keep ----

  ghost predicate PointersOk(db: Database, less: Less)
    requires StrictTotal(less)
  {
    forall name | name in db.packages ::
      db.packages[name].pointer == Discovery.LatestOf(db.packages[name].rows, less)
  }

  /** The facet rows are exactly the facets of the documents. */
  ghost predicate FacetRowsOk(db: Database) {
    forall row :: row in db.facetRows <==>
      row.release in db.documents && row.value in Of(db.documents[row.release].facets, row.dimension)
  }

  /** The document schema has accepted every stored document. */
  ghost predicate DocumentsOk(db: Database, normalize: Normalize) {
    forall id | id in db.documents :: FacetsOk(db.documents[id].facets, normalize)
  }

  ghost predicate Kept(db: Database, normalize: Normalize, less: Less)
    requires StrictTotal(less)
  {
    PointersOk(db, less) && FacetRowsOk(db) && DocumentsOk(db, normalize)
  }

  // ---- the in-memory search ----

  /** `#latestPublishedDiscovery` and the hit it is put into. */
  ghost function InMemoryHit(db: Database, name: Text, less: Less): Hit
    requires StrictTotal(less) && name in db.packages
  {
    var latest := Discovery.LatestOf(db.packages[name].rows, less);
    if latest.None? then Hit(name, None, false, EMPTY_DOCUMENT) else
    var id := ReleaseId(name, latest.value);
    if id in db.documents then Hit(name, latest, true, db.documents[id])
    else Hit(name, latest, false, EMPTY_DOCUMENT)
  }

  /** What is checked of a package before its document is. */
  predicate IsCandidate(db: Database, name: Text, query: Text) {
    name in db.packages && db.packages[name].isPublic && Includes(name, query)
  }

  ghost predicate InMemorySelects(
    db: Database, name: Text, query: Text, after: Option<Text>, f: Facets, normalize: Normalize, less: Less)
    requires StrictTotal(less)
  {
    && IsCandidate(db, name, query)
    && Matches(InMemoryHit(db, name, less).discovery.facets, f, normalize) == Some(true)
    && (after.Some? ==> TextLess(after.value, name))
  }

  function Limited<T>(s: seq<T>, limit: nat): seq<T> { if |s| <= limit then s else s[..limit] }

  ghost function InMemoryNames(
    db: Database, query: Text, after: Option<Text>, f: Facets, normalize: Normalize, less: Less): set<Text>
    requires StrictTotal(less)
  {
    set name | name in db.packages && InMemorySelects(db, name, query, after, f, normalize, less)
  }

  ghost function InMemoryHits(db: Database, names: seq<Text>, less: Less): seq<Hit>
    requires StrictTotal(less) && forall name | name in names :: name in db.packages
    decreases |names|
  {
    if |names| == 0 then []
    else InMemoryHits(db, names[..|names| - 1], less) + [InMemoryHit(db, names[|names| - 1], less)]
  }

  /** Matching the first candidate raises an error. */
  predicate MatchingFails(db: Database, query: Text, f: Facets, normalize: Normalize) {
    NormalizeFilter(f, normalize).None? && exists name | name in db.packages :: IsCandidate(db, name, query)
  }

  /** `listPublicPackages` of the in-memory adapter, which normalizes the filter, and once more for every package. */
  ghost function InMemorySearch(
    db: Database, query: Text, after: Option<Text>, filter: Facets, limit: nat, normalize: Normalize, less: Less)
    : Option<seq<Hit>>
    requires StrictTotal(less)
  {
    var f := NormalizeFilter(filter, normalize);
    if f.None? || MatchingFails(db, query, f.value, normalize) then None else
    TextStrictTotal();
    var sorted := SortedSet(InMemoryNames(db, query, after, f.value, normalize, less), TextLess);
    assert forall name | name in Limited(sorted, limit) :: name in sorted;
    Some(InMemoryHits(db, Limited(sorted, limit), less))
  }

  method LatestHit(db: Database, name: Text, less: Less) returns (hit: Hit)
    requires StrictTotal(less) && name in db.packages
    ensures hit == InMemoryHit(db, name, less)
  {
    var latest := Discovery.LatestPublishedDiscovery(db.packages[name].rows, less);
    if latest.None? { return Hit(name, None, false, EMPTY_DOCUMENT); }
    var id := ReleaseId(name, latest.value);
    if id in db.documents { return Hit(name, latest, true, db.documents[id]); }
    return Hit(name, latest, false, EMPTY_DOCUMENT);
  }

  /** The search itself, whatever order the packages are stored in. */
  method ListPublicPackages(
    db: Database, query: Text, after: Option<Text>, filter: Facets, limit: nat, normalize: Normalize, less: Less)
    returns (hits: Option<seq<Hit>>)
    requires StrictTotal(less) && DocumentsOk(db, normalize)
    ensures hits == InMemorySearch(db, query, after, filter, limit, normalize, less)
  {
    var f := NormalizeFilter(filter, normalize);
    if f.None? { return None; }
    var names := SelectInMemory(db, query, after, f.value, normalize, less);
    if names.None? { return None; }
    TextStrictTotal();
    ghost var selected := InMemoryNames(db, query, after, f.value, normalize, less);
    SortIsSortedSet(names.value, selected, TextLess);
    var sorted := Sort(names.value, TextLess);
    assert forall name | name in Limited(sorted, limit) :: name in sorted && name in selected;
    var found := ProjectHits(db, Limited(sorted, limit), less);
    return Some(found);
  }

  method ProjectHits(db: Database, names: seq<Text>, less: Less) returns (hits: seq<Hit>)
    requires StrictTotal(less) && forall name | name in names :: name in db.packages
    ensures hits == InMemoryHits(db, names, less)
  {
    hits := [];
    for i := 0 to |names|
      invariant hits == InMemoryHits(db, names[..i], less)
    {
      var hit := LatestHit(db, names[i], less);
      assert names[..i + 1][..i] == names[..i];
      hits := hits + [hit];
    }
    assert names[..|names|] == names;
  }

  method SelectInMemory(
    db: Database, query: Text, after: Option<Text>, f: Facets, normalize: Normalize, less: Less)
    returns (names: Option<seq<Text>>)
    requires StrictTotal(less)
    ensures names.None? <==> MatchingFails(db, query, f, normalize)
    ensures names.Some? ==>
              && Distinct(names.value)
              && forall name :: name in names.value <==> name in InMemoryNames(db, query, after, f, normalize, less)
  {
    var selected := [];
    var rest := db.packages.Keys;
    while rest != {}
      invariant rest <= db.packages.Keys && Distinct(selected)
      invariant NormalizeFilter(f, normalize).None? ==>
                  forall name | name in db.packages && name !in rest :: !IsCandidate(db, name, query)
      invariant forall name :: name in selected <==>
                  name in db.packages && name !in rest && InMemorySelects(db, name, query, after, f, normalize, less)
    {
      var name :| name in rest;
      var hit := LatestHit(db, name, less);
      if IsCandidate(db, name, query) {
        var matches := Matches(hit.discovery.facets, f, normalize);
        if matches.None? { return None; }
        if matches.value && (after.Some? ==> TextLess(after.value, name)) { selected := selected + [name]; }
      }
      rest := rest - {name};
    }
    return Some(selected);
  }

  // ---- the SQL search ----

  /** The row `r` that `registry_releases` joins: the pointer's, if it is published. */
  function JoinedRelease(p: Package): Option<Text> {
    if p.pointer.Some? && p.pointer.value in p.rows && p.rows[p.pointer.value].status.Published?
    then p.pointer else None
  }

  /** The columns of a row after both left joins. */
  function SqlHit(db: Database, name: Text): Hit
    requires name in db.packages
  {
    var r := JoinedRelease(db.packages[name]);
    if r.None? then Hit(name, None, false, EMPTY_DOCUMENT) else
    var id := ReleaseId(name, r.value);
    if id in db.documents then Hit(name, r, true, db.documents[id]) else Hit(name, r, false, EMPTY_DOCUMENT)
  }

  /** `r.id IN (SELECT release_id ... WHERE dimension = d AND value = ANY(wanted))` */
  predicate HasFacetRow(db: Database, id: ReleaseId, d: Dimension, wanted: seq<Text>) {
    exists v :: v in wanted && FacetRow(id, d, v) in db.facetRows
  }

  predicate SqlFacetCondition(db: Database, name: Text, f: Facets)
    requires name in db.packages
  {
    var r := JoinedRelease(db.packages[name]);
    && r.Some?
    && ReleaseId(name, r.value) in db.documents
    && forall d | d in DIMENSIONS :: |Of(f, d)| == 0 || HasFacetRow(db, ReleaseId(name, r.value), d, Of(f, d))
  }

  /** The WHERE clause: with filters the joins are inner joins, without any they are left joins. */
  predicate SqlSelects(db: Database, name: Text, query: Text, after: Option<Text>, f: Facets) {
    && name in db.packages
    && db.packages[name].isPublic
    && Strpos(name, query) > 0
    && (after.Some? ==> TextLess(after.value, name))
    && (HasFilters(f) ==> SqlFacetCondition(db, name, f))
  }

  ghost function SqlNames(db: Database, query: Text, after: Option<Text>, f: Facets): set<Text> {
    set name | name in db.packages && SqlSelects(db, name, query, after, f)
  }

  function SqlHits(db: Database, names: seq<Text>): seq<Hit>
    requires forall name | name in names :: name in db.packages
    decreases |names|
  {
    if |names| == 0 then [] else SqlHits(db, names[..|names| - 1]) + [SqlHit(db, names[|names| - 1])]
  }

  /** `listPublicPackages` of the Postgres adapter: ORDER BY name LIMIT limit. */
  ghost function SqlSearch(
    db: Database, query: Text, after: Option<Text>, filter: Facets, limit: nat, normalize: Normalize): Option<seq<Hit>>
  {
    var f := NormalizeFilter(filter, normalize);
    if f.None? then None else
    TextStrictTotal();
    var sorted := SortedSet(SqlNames(db, query, after, f.value), TextLess);
    assert forall name | name in Limited(sorted, limit) :: name in sorted;
    Some(SqlHits(db, Limited(sorted, limit)))
  }

  // ---- what both searches make of one filter ----

  lemma HitsAgree(db: Database, name: Text, less: Less)
    requires StrictTotal(less) && PointersOk(db, less) && name in db.packages
    ensures SqlHit(db, name) == InMemoryHit(db, name, less)
    ensures JoinedRelease(db.packages[name]) == Discovery.LatestOf(db.packages[name].rows, less)
  {
    var p := db.packages[name];
    if p.pointer.Some? {
      assert p.pointer.value in Discovery.PublishedIn(p.rows);
    }
  }

  lemma {:induction false} AllHitsAgree(db: Database, names: seq<Text>, less: Less)
    requires StrictTotal(less) && PointersOk(db, less) && forall name | name in names :: name in db.packages
    ensures SqlHits(db, names) == InMemoryHits(db, names, less)
    decreases |names|
  {
    if |names| > 0 {
      AllHitsAgree(db, names[..|names| - 1], less);
      HitsAgree(db, names[|names| - 1], less);
    }
  }

  lemma FacetRowsMatch(db: Database, id: ReleaseId, d: Dimension, wanted: seq<Text>)
    requires FacetRowsOk(db) && id in db.documents
    ensures |wanted| == 0 || HasFacetRow(db, id, d, wanted)
       <==> MatchesDimension(wanted, Of(db.documents[id].facets, d))
  {
    if |wanted| > 0 && HasFacetRow(db, id, d, wanted) {
      var v :| v in wanted && FacetRow(id, d, v) in db.facetRows;
      assert v in Of(db.documents[id].facets, d);
    }
    if |wanted| > 0 && MatchesDimension(wanted, Of(db.documents[id].facets, d)) {
      var v :| v in wanted && v in Of(db.documents[id].facets, d);
      assert FacetRow(id, d, v) in db.facetRows;
    }
  }

  /** The facet rows say what the document does: OR within a dimension, AND across dimensions, and a package
      without a document passes the empty filter only. */
  lemma FacetConditionsAgree(db: Database, name: Text, f: Facets, less: Less)
    requires StrictTotal(less) && PointersOk(db, less) && FacetRowsOk(db) && name in db.packages
    ensures (HasFilters(f) ==> SqlFacetCondition(db, name, f))
       <==> MatchesAll(f, InMemoryHit(db, name, less).discovery.facets)
  {
    HitsAgree(db, name, less);
    var r := JoinedRelease(db.packages[name]);
    if r.Some? && ReleaseId(name, r.value) in db.documents {
      var id := ReleaseId(name, r.value);
      forall d | d in DIMENSIONS
        ensures |Of(f, d)| == 0 || HasFacetRow(db, id, d, Of(f, d))
           <==> MatchesDimension(Of(f, d), Of(db.documents[id].facets, d))
      {
        FacetRowsMatch(db, id, d, Of(f, d));
      }
      assert !HasFilters(f) ==> forall d | d in DIMENSIONS :: |Of(f, d)| == 0;
    } else {
      NothingMatches(f);
    }
  }

  /** A package without a discovery snapshot is found by the same queries, but by no filter. */
  lemma UndiscoveredNeedsNoFilter(
    db: Database, name: Text, query: Text, after: Option<Text>, f: Facets, normalize: Normalize, less: Less)
    requires StrictTotal(less) && name in db.packages && !InMemoryHit(db, name, less).discoveryAvailable
    requires NormalizeFilter(f, normalize).Some?
    ensures InMemorySelects(db, name, query, after, f, normalize, less)
       <==> IsCandidate(db, name, query) && (after.Some? ==> TextLess(after.value, name)) && !HasFilters(f)
  {
    var again := NormalizeFilter(f, normalize).value;
    NothingMatches(again);
    NormalizedIs(f, normalize, Languages);
    NormalizedIs(f, normalize, Ecosystems);
    NormalizedIs(f, normalize, Tags);
  }

  // ---- what a search answers with ----

  /** The document has one of the wanted values in every dimension that is filtered. */
  predicate HasWanted(wanted: Facets, available: Facets) {
    && (wanted.languages == [] || exists v :: v in wanted.languages && v in available.languages)
    && (wanted.ecosystems == [] || exists v :: v in wanted.ecosystems && v in available.ecosystems)
    && (wanted.tags == [] || exists v :: v in wanted.tags && v in available.tags)
  }

  predicate IsSplit(text: Text, before: Text, pattern: Text, behind: Text) { text == before + pattern + behind }

  ghost predicate Contains(text: Text, pattern: Text) { exists before, behind :: IsSplit(text, before, pattern, behind) }

  /** A public package whose name has the query in it and comes after the cursor, and whose document, empty if it has
      none, has what is wanted. */
  ghost predicate IsWanted(db: Database, name: Text, query: Text, after: Option<Text>, wanted: Facets, less: Less)
    requires StrictTotal(less)
  {
    && name in db.packages && db.packages[name].isPublic
    && Contains(name, query)
    && (after.Some? ==> TextLess(after.value, name))
    && HasWanted(wanted, InMemoryHit(db, name, less).discovery.facets)
  }

  lemma WantedMeans(
    db: Database, name: Text, query: Text, after: Option<Text>, f: Facets, normalize: Normalize, less: Less)
    requires StrictTotal(less) && NormalizeFilter(f, normalize).Some?
    ensures InMemorySelects(db, name, query, after, f, normalize, less)
       <==> IsWanted(db, name, query, after, NormalizeFilter(f, normalize).value, less)
  {
    if name in db.packages {
      MatchesAllMeans(NormalizeFilter(f, normalize).value, InMemoryHit(db, name, less).discovery.facets);
      IncludesMeans(name, query);
    }
  }

  lemma MatchesAllMeans(wanted: Facets, available: Facets)
    ensures MatchesAll(wanted, available) <==> HasWanted(wanted, available)
  {
    AllDimensions();
    assert MatchesAll(wanted, available) <==>
             && MatchesDimension(Of(wanted, Languages), Of(available, Languages))
             && MatchesDimension(Of(wanted, Ecosystems), Of(available, Ecosystems))
             && MatchesDimension(Of(wanted, Tags), Of(available, Tags));
  }

  lemma IncludesMeans(text: Text, pattern: Text)
    ensures Includes(text, pattern) <==> Contains(text, pattern)
  {
    if Contains(text, pattern) {
      var before, behind :| IsSplit(text, before, pattern, behind);
      assert OccursAt(text, pattern, |before|);
    }
    if Includes(text, pattern) {
      var i :| 0 <= i <= |text| && OccursAt(text, pattern, i);
      assert IsSplit(text, text[..i], pattern, text[i + |pattern|..]);
    }
  }

  /** The packages that are wanted. */
  ghost function WantedNames(db: Database, query: Text, after: Option<Text>, wanted: Facets, less: Less): set<Text>
    requires StrictTotal(less)
  {
    set name | name in db.packages && IsWanted(db, name, query, after, wanted, less)
  }

  /** The first of the names, in order, as many as there are up to the limit. */
  ghost predicate FirstOf(names: seq<Text>, all: set<Text>, limit: nat) {
    && |names| <= limit
    && (forall i, j | 0 <= i < j < |names| :: TextLess(names[i], names[j]))
    && (forall n | n in names :: n in all)
    && (forall name | name in all && name !in names :: |names| == limit && forall n | n in names :: TextLess(n, name))
  }

  function NamesOf(hits: seq<Hit>): (names: seq<Text>)
    ensures |names| == |hits| && forall i | 0 <= i < |hits| :: names[i] == hits[i].name
  {
    seq(|hits|, i requires 0 <= i < |hits| => hits[i].name)
  }

  lemma {:induction false} HitsAreNamed(db: Database, names: seq<Text>, less: Less)
    requires StrictTotal(less) && forall name | name in names :: name in db.packages
    ensures NamesOf(InMemoryHits(db, names, less)) == names
    ensures forall hit | hit in InMemoryHits(db, names, less) ::
              hit.name in db.packages && hit == InMemoryHit(db, hit.name, less)
    decreases |names|
  {
    if |names| > 0 { HitsAreNamed(db, names[..|names| - 1], less); }
  }

  lemma LimitedIsFirst(all: set<Text>, limit: nat)
    requires StrictTotal(TextLess)
    ensures FirstOf(Limited(SortedSet(all, TextLess), limit), all, limit)
  {
    var sorted := SortedSet(all, TextLess);
    var names := Limited(sorted, limit);
    forall n | n in names ensures n in all { assert n in sorted; }
    assert forall j | 0 <= j < |names| :: names[j] == sorted[j] && names[j] in names;
    forall name | name in all && name !in names
      ensures |names| == limit && forall n | n in names :: TextLess(n, name)
    {
      var i :| 0 <= i < |sorted| && sorted[i] == name;
    }
  }

  /** The in-memory search answers with the first of what is wanted after both normalizations. */
  lemma SearchMeans(
    db: Database, query: Text, after: Option<Text>, filter: Facets, limit: nat, normalize: Normalize, less: Less)
    requires StrictTotal(less) && NormalizeFilter(filter, normalize).Some?
    requires NormalizeFilter(NormalizeFilter(filter, normalize).value, normalize).Some?
    ensures var twice := NormalizeFilter(NormalizeFilter(filter, normalize).value, normalize).value;
            var hits := InMemorySearch(db, query, after, filter, limit, normalize, less);
            && hits.Some?
            && FirstOf(NamesOf(hits.value), WantedNames(db, query, after, twice, less), limit)
            && forall hit | hit in hits.value :: hit.name in db.packages && hit == InMemoryHit(db, hit.name, less)
  {
    var f := NormalizeFilter(filter, normalize).value;
    var selected := InMemoryNames(db, query, after, f, normalize, less);
    NamesMean(db, query, after, f, normalize, less);
    TextStrictTotal();
    LimitedIsFirst(selected, limit);
    var names := Limited(SortedSet(selected, TextLess), limit);
    assert forall name | name in names :: name in selected;
    HitsAreNamed(db, names, less);
  }

  lemma NamesMean(db: Database, query: Text, after: Option<Text>, f: Facets, normalize: Normalize, less: Less)
    requires StrictTotal(less) && NormalizeFilter(f, normalize).Some?
    ensures InMemoryNames(db, query, after, f, normalize, less)
         == WantedNames(db, query, after, NormalizeFilter(f, normalize).value, less)
  {
    forall name ensures name in InMemoryNames(db, query, after, f, normalize, less)
                   <==> name in WantedNames(db, query, after, NormalizeFilter(f, normalize).value, less)
    {
      WantedMeans(db, name, query, after, f, normalize, less);
    }
  }

  // ---- when the two searches agree ----

  lemma HitIsOk(db: Database, name: Text, normalize: Normalize, less: Less)
    requires StrictTotal(less) && DocumentsOk(db, normalize) && name in db.packages
    ensures FacetsOk(InMemoryHit(db, name, less).discovery.facets, normalize)
  {
    assert FacetsOk(NO_FACETS, normalize);
  }

  /** Both searches select the same packages for a settled filter. */
  lemma NamesAgree(db: Database, query: Text, after: Option<Text>, f: Facets, normalize: Normalize, less: Less)
    requires StrictTotal(less) && Kept(db, normalize, less) && Settled(f, normalize)
    ensures SqlNames(db, query, after, f) == InMemoryNames(db, query, after, f, normalize, less)
  {
    forall name | name in db.packages
      ensures SqlSelects(db, name, query, after, f) <==> InMemorySelects(db, name, query, after, f, normalize, less)
    {
      StrposIncludes(name, query);
      FacetConditionsAgree(db, name, f, less);
      HitIsOk(db, name, normalize, less);
      SettledMatches(f, InMemoryHit(db, name, less).discovery.facets, normalize);
    }
  }

  /** Both adapters refuse the filter, or its normalization is settled: a check of the filter alone. */
  predicate Portable(filter: Facets, normalize: Normalize) {
    var f := NormalizeFilter(filter, normalize);
    f.Some? ==> Settled(f.value, normalize)
  }

  /** For a portable filter the two adapters return the same hits in the same order. */
  lemma PortableAgrees(
    db: Database, query: Text, after: Option<Text>, filter: Facets, limit: nat, normalize: Normalize, less: Less)
    requires StrictTotal(less) && Kept(db, normalize, less) && Portable(filter, normalize)
    ensures InMemorySearch(db, query, after, filter, limit, normalize, less)
         == SqlSearch(db, query, after, filter, limit, normalize)
  {
    var f := NormalizeFilter(filter, normalize);
    if f.Some? {
      NamesAgree(db, query, after, f.value, normalize, less);
      TextStrictTotal();
      var names := Limited(SortedSet(SqlNames(db, query, after, f.value), TextLess), limit);
      assert forall name | name in names :: name in SqlNames(db, query, after, f.value);
      AllHitsAgree(db, names, less);
    }
  }

  /** The adapters agree on this filter, whatever is stored and asked. */
  ghost predicate AlwaysAgree(filter: Facets, normalize: Normalize, less: Less)
    requires StrictTotal(less)
  {
    forall db, query, after, limit: nat | Kept(db, normalize, less) ::
      InMemorySearch(db, query, after, filter, limit, normalize, less)
      == SqlSearch(db, query, after, filter, limit, normalize)
  }

  const SHOP: Text := [97]
  const FIRST: Text := [49, 46, 48, 46, 48]
  const SHOP_ROWS: Discovery.Rows := map[FIRST := Discovery.Row(Discovery.Releases.Published, "submitter", map[])]

  /** One public package with one published release and its document. */
  function OnePackage(facets: Facets): Database {
    var id := ReleaseId(SHOP, FIRST);
    Database(
      map[SHOP := Package(true, SHOP_ROWS, Some(FIRST))],
      map[id := Document([], facets, 1)],
      (set v | v in facets.languages :: FacetRow(id, Languages, v))
      + (set v | v in facets.ecosystems :: FacetRow(id, Ecosystems, v))
      + (set v | v in facets.tags :: FacetRow(id, Tags, v)))
  }

  lemma OnePackageHit(facets: Facets, less: Less)
    requires StrictTotal(less)
    ensures PointersOk(OnePackage(facets), less)
    ensures InMemoryHit(OnePackage(facets), SHOP, less).discovery.facets == facets
  {
    assert Discovery.PublishedIn(SHOP_ROWS) == {FIRST};
  }

  lemma OnePackageRows(facets: Facets)
    ensures FacetRowsOk(OnePackage(facets))
  {
    var db := OnePackage(facets);
    forall row ensures row in db.facetRows <==>
      row.release in db.documents && row.value in Of(db.documents[row.release].facets, row.dimension)
    {
      assert row == FacetRow(row.release, row.dimension, row.value);
    }
  }

  lemma OnePackageIsKept(facets: Facets, normalize: Normalize, less: Less)
    requires StrictTotal(less) && FacetsOk(facets, normalize)
    ensures Kept(OnePackage(facets), normalize, less)
    ensures InMemoryHit(OnePackage(facets), SHOP, less).discovery.facets == facets
    ensures IsCandidate(OnePackage(facets), SHOP, [])
  {
    OnePackageHit(facets, less);
    OnePackageRows(facets);
    assert OccursAt(SHOP, [], 0);
  }

  /** What either search finds in that shop. */
  lemma OnePackageIsFound(facets: Facets, filter: Facets, normalize: Normalize, less: Less)
    requires StrictTotal(less) && FacetsOk(facets, normalize) && NormalizeFilter(filter, normalize).Some?
    ensures var f := NormalizeFilter(filter, normalize).value;
            && SqlNames(OnePackage(facets), [], None, f) == (if MatchesAll(f, facets) then {SHOP} else {})
            && InMemoryNames(OnePackage(facets), [], None, f, normalize, less)
               == (if Matches(facets, f, normalize) == Some(true) then {SHOP} else {})
  {
    var db, f := OnePackage(facets), NormalizeFilter(filter, normalize).value;
    OnePackageIsKept(facets, normalize, less);
    OnePackageInSql(db, f, less);
    OnePackageInMemory(db, f, normalize, less);
  }

  lemma OnePackageInSql(db: Database, f: Facets, less: Less)
    requires StrictTotal(less) && PointersOk(db, less) && FacetRowsOk(db)
    requires db.packages.Keys == {SHOP} && IsCandidate(db, SHOP, [])
    ensures SqlNames(db, [], None, f)
         == if MatchesAll(f, InMemoryHit(db, SHOP, less).discovery.facets) then {SHOP} else {}
  {
    SqlSelectsMatches(db, SHOP, [], f, less);
    assert forall name :: name in SqlNames(db, [], None, f) <==> name == SHOP && SqlSelects(db, name, [], None, f);
  }

  lemma SqlSelectsMatches(db: Database, name: Text, query: Text, f: Facets, less: Less)
    requires StrictTotal(less) && PointersOk(db, less) && FacetRowsOk(db) && IsCandidate(db, name, query)
    ensures SqlSelects(db, name, query, None, f) <==> MatchesAll(f, InMemoryHit(db, name, less).discovery.facets)
  {
    StrposIncludes(name, query);
    FacetConditionsAgree(db, name, f, less);
  }

  lemma OnePackageInMemory(db: Database, f: Facets, normalize: Normalize, less: Less)
    requires StrictTotal(less) && db.packages.Keys == {SHOP} && IsCandidate(db, SHOP, [])
    ensures InMemoryNames(db, [], None, f, normalize, less)
         == if Matches(InMemoryHit(db, SHOP, less).discovery.facets, f, normalize) == Some(true) then {SHOP} else {}
  {
    assert InMemorySelects(db, SHOP, [], None, f, normalize, less)
      <==> Matches(InMemoryHit(db, SHOP, less).discovery.facets, f, normalize) == Some(true);
  }

  /** For every filter that is not portable there are databases on which the adapters differ. */
  lemma UnportableDiffers(filter: Facets, normalize: Normalize, less: Less) returns (db: Database)
    requires StrictTotal(less) && !Portable(filter, normalize)
    ensures Kept(db, normalize, less)
    ensures InMemorySearch(db, [], None, filter, 1, normalize, less) != SqlSearch(db, [], None, filter, 1, normalize)
  {
    var f := NormalizeFilter(filter, normalize).value;
    TextStrictTotal();
    if NormalizeFilter(f, normalize).None? {
      db := OnePackage(NO_FACETS);
      assert FacetsOk(NO_FACETS, normalize);
      OnePackageIsKept(NO_FACETS, normalize, less);
      assert MatchingFails(db, [], f, normalize);
    } else {
      var facets := UnsettledDiffers(f, normalize);
      db := OnePackage(facets);
      OnePackageIsKept(facets, normalize, less);
      OnePackageIsFound(facets, filter, normalize, less);
      OneNameIsOneHit(db, less);
    }
  }

  lemma OneNameIsOneHit(db: Database, less: Less)
    requires StrictTotal(less) && StrictTotal(TextLess) && SHOP in db.packages
    ensures SortedSet({}, TextLess) == [] && SqlHits(db, []) == []
    ensures Limited(SortedSet({SHOP}, TextLess), 1) == [SHOP]
    ensures InMemoryHits(db, [SHOP], less) == [InMemoryHit(db, SHOP, less)]
  {
    var sorted := SortedSet({SHOP}, TextLess);
    AscendingUnique(sorted, [SHOP], TextLess);
    assert [SHOP][..0] == [];
  }

  /** The adapters agree on a filter on every database exactly if it is portable. */
  lemma AdaptersAgreeExactly(filter: Facets, normalize: Normalize, less: Less)
    requires StrictTotal(less)
    ensures AlwaysAgree(filter, normalize, less) <==> Portable(filter, normalize)
  {
    if Portable(filter, normalize) {
      forall db, query, after, limit: nat | Kept(db, normalize, less)
        ensures InMemorySearch(db, query, after, filter, limit, normalize, less)
             == SqlSearch(db, query, after, filter, limit, normalize)
      {
        PortableAgrees(db, query, after, filter, limit, normalize, less);
      }
    } else {
      var db := UnportableDiffers(filter, normalize, less);
    }
  }

  // An H with a line below, a small one, and the small one as a single character.
  const CAPITAL: Text := [0x48, 0x331]
  const SMALL: Text := [0x68, 0x331]
  const COMPOSED: Text := [0x1e96]

  /** NFKC leaves the capital as it is, and only then it becomes small: normalizing again composes it. The
      in-memory adapter finds the package that is tagged with the composed character, the SQL search does not. */
  lemma CapitalIsNotPortable(normalize: Normalize, less: Less)
    requires StrictTotal(less)
    requires normalize(CAPITAL) == Some(SMALL) && normalize(SMALL) == Some(COMPOSED)
    requires normalize(COMPOSED) == Some(COMPOSED)
    ensures var db, filter := OnePackage(Facets([], [], [COMPOSED])), Facets([], [], [CAPITAL]);
            && Kept(db, normalize, less) && !Portable(filter, normalize)
            && InMemorySearch(db, [], None, filter, 1, normalize, less) == Some([InMemoryHit(db, SHOP, less)])
            && SqlSearch(db, [], None, filter, 1, normalize) == Some([])
  {
    var tagged, filter := Facets([], [], [COMPOSED]), Facets([], [], [CAPITAL]);
    var once, twice := Facets([], [], [SMALL]), Facets([], [], [COMPOSED]);
    var db := OnePackage(tagged);
    TextStrictTotal();
    OneValueNormalizes(CAPITAL, SMALL, normalize);
    OneValueNormalizes(SMALL, COMPOSED, normalize);
    assert FacetsOk(tagged, normalize);
    OnePackageIsKept(tagged, normalize, less);
    OnePackageIsFound(tagged, filter, normalize, less);
    OneNameIsOneHit(db, less);
    OneTagMatches(SMALL, COMPOSED);
    OneTagMatches(COMPOSED, COMPOSED);
    if Portable(filter, normalize) { PortableAgrees(db, [], None, filter, 1, normalize, less); }
  }

  lemma OneValueNormalizes(v: Text, w: Text, normalize: Normalize)
    requires normalize(v) == Some(w)
    ensures NormalizeFilter(Facets([], [], [v]), normalize) == Some(Facets([], [], [w]))
  {
    assert [v][1..] == [] && NormalizeAll([v][1..], normalize) == Some([]);
    assert NormalizeAll([v], normalize) == Some([w] + []);
    assert [w] + [] == [w];
    assert Sort([w], TextLess) == [w];
  }

  lemma OneTagMatches(wanted: Text, available: Text)
    ensures MatchesAll(Facets([], [], [wanted]), Facets([], [], [available])) <==> wanted == available
  {
    AllDimensions();
    assert MatchesDimension([wanted], [available]) <==> wanted == available by {
      assert wanted in [wanted];
    }
    assert Of(Facets([], [], [wanted]), Tags) == [wanted] && Of(Facets([], [], [available]), Tags) == [available];
  }

  // ---- the services, which normalize before the adapters do ----

  /** The search of the in-memory service. */
  ghost function InMemoryService(
    db: Database, query: Text, after: Option<Text>, input: Facets, limit: nat, normalize: Normalize, less: Less)
    : Option<seq<Hit>>
    requires StrictTotal(less)
  {
    var parsed := NormalizeFilter(input, normalize);
    if parsed.None? then None else InMemorySearch(db, query, after, parsed.value, limit, normalize, less)
  }

  /** The search of the Postgres service. */
  ghost function SqlService(
    db: Database, query: Text, after: Option<Text>, input: Facets, limit: nat, normalize: Normalize): Option<seq<Hit>>
  {
    var parsed := NormalizeFilter(input, normalize);
    if parsed.None? then None else SqlSearch(db, query, after, parsed.value, limit, normalize)
  }

  ghost predicate ServicesAlwaysAgree(input: Facets, normalize: Normalize, less: Less)
    requires StrictTotal(less)
  {
    forall db, query, after, limit: nat | Kept(db, normalize, less) ::
      InMemoryService(db, query, after, input, limit, normalize, less)
      == SqlService(db, query, after, input, limit, normalize)
  }

  /** The services agree on a filter on every database exactly if its normalization is portable, that is if
      normalizing a third time changes no result; and so on every filter, if two times are enough for each value. */
  lemma ServicesAgreeExactly(input: Facets, normalize: Normalize, less: Less)
    requires StrictTotal(less)
    ensures ServicesAlwaysAgree(input, normalize, less) <==>
              (NormalizeFilter(input, normalize).Some? ==>
                 Portable(NormalizeFilter(input, normalize).value, normalize))
    ensures TwiceIsEnough(normalize) ==> ServicesAlwaysAgree(input, normalize, less)
  {
    var parsed := NormalizeFilter(input, normalize);
    if parsed.Some? {
      AdaptersAgreeExactly(parsed.value, normalize, less);
      ServicesAreAdapters(input, normalize, less);
      if TwiceIsEnough(normalize) && NormalizeFilter(parsed.value, normalize).Some? { TwiceSettles(input, normalize); }
    }
  }

  lemma ServicesAreAdapters(input: Facets, normalize: Normalize, less: Less)
    requires StrictTotal(less) && NormalizeFilter(input, normalize).Some?
    ensures ServicesAlwaysAgree(input, normalize, less)
       <==> AlwaysAgree(NormalizeFilter(input, normalize).value, normalize, less)
  {
    var parsed := NormalizeFilter(input, normalize).value;
    forall db, query, after, limit: nat
      ensures InMemoryService(db, query, after, input, limit, normalize, less)
           == InMemorySearch(db, query, after, parsed, limit, normalize, less)
      ensures SqlService(db, query, after, input, limit, normalize)
           == SqlSearch(db, query, after, parsed, limit, normalize)
    {
    }
  }

  // ---- the cursor of a search ----

  /** What the request hash of a cursor is taken of. */
  function RequestIdentity(query: Text, filter: Facets, normalize: Normalize): Option<(Text, Facets)> {
    var f := NormalizeFilter(filter, normalize);
    if f.None? then None else Some((query, f.value))
  }

  /** `decodePublicRegistryPackageCursor` normalizes before the hash does, `encodePublicRegistryPackageCursor`
      does not. */
  predicate CursorAccepted(made: (Text, Facets), query: Text, filter: Facets, normalize: Normalize) {
    var f := NormalizeFilter(filter, normalize);
    f.Some? && RequestIdentity(query, f.value, normalize) == Some(made)
  }

  /** A cursor made for one request is accepted with another exactly if the queries are the same and normalizing
      one filter three times gives what normalizing the other twice does; if two times are enough for each value,
      exactly if both ask for the same canonical filter. */
  lemma CursorBindsRequest(query: Text, input: Facets, query': Text, input': Facets, normalize: Normalize)
    requires NormalizeFilter(input, normalize).Some? && NormalizeFilter(input', normalize).Some?
    requires NormalizeFilter(NormalizeFilter(input, normalize).value, normalize).Some?
    requires NormalizeFilter(NormalizeFilter(input', normalize).value, normalize).Some?
    ensures var made := RequestIdentity(query, NormalizeFilter(input, normalize).value, normalize).value;
            var twice := NormalizeFilter(NormalizeFilter(input, normalize).value, normalize);
            var twice' := NormalizeFilter(NormalizeFilter(input', normalize).value, normalize);
            var accepted := CursorAccepted(made, query', NormalizeFilter(input', normalize).value, normalize);
            && (accepted <==> query == query' && NormalizeFilter(twice'.value, normalize) == twice)
            && (TwiceIsEnough(normalize) ==> (accepted <==> query == query' && twice' == twice))
  {
    if TwiceIsEnough(normalize) { TwiceSettles(input', normalize); }
  }

  // ---- the write path of the facet rows ----

  /** Inserting the rows of one dimension; a repeated row would violate the primary key. */
  method InsertFacetRows(rows: set<FacetRow>, id: ReleaseId, d: Dimension, values: seq<Text>)
    returns (r: Result<set<FacetRow>, ()>)
    ensures r.Ok? <==> Distinct(values) && forall v | v in values :: FacetRow(id, d, v) !in rows
    ensures r.Ok? ==> forall row :: row in r.value <==>
              row in rows || (row.release == id && row.dimension == d && row.value in values)
  {
    var all := rows;
    for i := 0 to |values|
      invariant Distinct(values[..i]) && forall v | v in values[..i] :: FacetRow(id, d, v) !in rows
      invariant forall row :: row in all <==>
                  row in rows || (row.release == id && row.dimension == d && row.value in values[..i])
    {
      var row := FacetRow(id, d, values[i]);
      if row in all {
        if row !in rows {
          assert values[i] in values[..i];
          ghost var j :| 0 <= j < i && values[j] == values[i];
        }
        return Err(());
      }
      assert values[..i + 1] == values[..i] + [values[i]];
      all := all + {row};
    }
    assert values[..|values|] == values;
    return Ok(all);
  }

  lemma AscendingIsDistinct(values: seq<Text>)
    requires Ascending(values, TextLess)
    ensures Distinct(values)
  {
    forall i, j | 0 <= i < j < |values| ensures values[i] != values[j] { TextTrichotomy(values[i], values[j]); }
  }

  /** `appendRegistryReleaseDiscoveryFacets` after the insertion of the document itself. */
  method InsertDiscovery(db: Database, id: ReleaseId, doc: Document, normalize: Normalize)
    returns (r: Result<Database, ()>)
    requires FacetRowsOk(db) && id !in db.documents && DocumentsOk(db, normalize) && FacetsOk(doc.facets, normalize)
    ensures r.Ok? && FacetRowsOk(r.value) && DocumentsOk(r.value, normalize)
    ensures r.value.documents == db.documents[id := doc] && r.value.packages == db.packages
  {
    AllDimensions();
    assert forall row | row in db.facetRows :: row.release != id;
    forall d: Dimension ensures Distinct(Of(doc.facets, d)) {
      assert FacetListOk(Of(doc.facets, d), normalize);
      AscendingIsDistinct(Of(doc.facets, d));
    }
    assert Distinct(Of(doc.facets, Languages)) && Distinct(Of(doc.facets, Ecosystems)) && Distinct(Of(doc.facets, Tags));
    var l := InsertFacetRows(db.facetRows, id, Languages, doc.facets.languages);
    var e := InsertFacetRows(l.value, id, Ecosystems, doc.facets.ecosystems);
    var t := InsertFacetRows(e.value, id, Tags, doc.facets.tags);
    r := Ok(db.(documents := db.documents[id := doc], facetRows := t.value));
    forall row ensures row in t.value <==>
      row.release in r.value.documents && row.value in Of(r.value.documents[row.release].facets, row.dimension)
    {
      assert row.release != id ==> (row in t.value <==> row in db.facetRows);
    }
  }
}
