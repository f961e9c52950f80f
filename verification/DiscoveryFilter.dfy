/** Discovery facets: canonical values, the documents that hold them and the filters that ask for them. */
module DiscoveryFilter {
  import opened Wrappers
  import opened Order

  datatype Dimension = Languages | Ecosystems | Tags

  const DIMENSIONS := [Languages, Ecosystems, Tags]
  const MAX_FILTER_VALUES := 4
  const MAX_DOCUMENT_VALUES := 64

  /** The facets of a document or of a filter. */
  datatype Facets = Facets(languages: seq<Text>, ecosystems: seq<Text>, tags: seq<Text>)

  const NO_FACETS := Facets([], [], [])

  /** Trimming, then NFKC, then lower case, or a refusal. Doing it again may change the value again: lower case can
      leave a letter and a mark that NFKC composes. */
  type Normalize = Text -> Option<Text>

  function Of(f: Facets, d: Dimension): seq<Text> {
    match d case Languages => f.languages case Ecosystems => f.ecosystems case Tags => f.tags
  }

  lemma AllDimensions()
    ensures forall d: Dimension :: d in DIMENSIONS
  {
    assert DIMENSIONS[0] == Languages && DIMENSIONS[1] == Ecosystems && DIMENSIONS[2] == Tags;
    forall d: Dimension ensures d in DIMENSIONS {
      match d case Languages => case Ecosystems => case Tags =>
    }
  }

  // ---- canonical values ----

  /** Normalizing leaves the value alone. */
  predicate IsFixed(v: Text, normalize: Normalize) { normalize(v) == Some(v) }

  /** The values among `values` that normalizing leaves alone. */
  function Fixed(values: seq<Text>, normalize: Normalize): set<Text> {
    set v | v in values && IsFixed(v, normalize)
  }

  function NormalizeAll(values: seq<Text>, normalize: Normalize): Option<seq<Text>>
    decreases |values|
  {
    if |values| == 0 then Some([]) else
    var first, rest := normalize(values[0]), NormalizeAll(values[1..], normalize);
    if first.None? || rest.None? then None
    else Some(if first.value in rest.value then rest.value else [first.value] + rest.value)
  }

  /** `[...new Set(values.map(normalize))].sort()` */
  function CanonicalSet(values: seq<Text>, normalize: Normalize): Option<seq<Text>> {
    var all := NormalizeAll(values, normalize);
    if all.None? then None else Some(Sort(all.value, TextLess))
  }

  /** The value is what normalizing one of `values` gives. */
  predicate Normalizes(values: seq<Text>, v: Text, normalize: Normalize) {
    exists w :: w in values && normalize(w) == Some(v)
  }

  lemma {:induction false} NormalizeAllValues(values: seq<Text>, normalize: Normalize)
    ensures NormalizeAll(values, normalize).Some? <==> forall w | w in values :: normalize(w).Some?
    ensures NormalizeAll(values, normalize).Some? ==>
              var all := NormalizeAll(values, normalize).value;
              && Distinct(all) && |all| <= |values|
              && forall v :: v in all <==> Normalizes(values, v, normalize)
    decreases |values|
  {
    if |values| > 0 {
      NormalizeAllValues(values[1..], normalize);
      assert values == [values[0]] + values[1..];
    }
  }

  /** A canonical set is in order and holds exactly the normalized values; nothing but a refused value fails it. */
  lemma CanonicalSetIs(values: seq<Text>, normalize: Normalize)
    ensures CanonicalSet(values, normalize).Some? <==> forall w | w in values :: normalize(w).Some?
    ensures CanonicalSet(values, normalize).Some? ==>
              var d := CanonicalSet(values, normalize).value;
              && Ascending(d, TextLess) && |d| <= |values|
              && forall v :: v in d <==> Normalizes(values, v, normalize)
  {
    NormalizeAllValues(values, normalize);
    if CanonicalSet(values, normalize).Some? {
      TextStrictTotal();
      var all := NormalizeAll(values, normalize).value;
      SortAscending(all, TextLess);
      SortPermutes(all, TextLess);
    }
  }

  lemma {:induction false} NormalizeAllKeeps(values: seq<Text>, normalize: Normalize)
    requires Distinct(values) && forall v | v in values :: IsFixed(v, normalize)
    ensures NormalizeAll(values, normalize) == Some(values)
    decreases |values|
  {
    if |values| > 0 {
      NormalizeAllKeeps(values[1..], normalize);
      assert values == [values[0]] + values[1..];
      assert IsFixed(values[0], normalize);
    }
  }

  /** A set of fixed values in order is its own canonical set. */
  lemma FixedSetStays(values: seq<Text>, normalize: Normalize)
    requires Ascending(values, TextLess) && forall v | v in values :: IsFixed(v, normalize)
    ensures CanonicalSet(values, normalize) == Some(values)
  {
    TextStrictTotal();
    forall i, j | 0 <= i < j < |values| ensures values[i] != values[j] { assert TextLess(values[i], values[j]); }
    NormalizeAllKeeps(values, normalize);
    SortAscending(values, TextLess);
    SortPermutes(values, TextLess);
    AscendingUnique(Sort(values, TextLess), values, TextLess);
  }

  // ---- documents ----

  /** What the document schema accepts in one dimension. */
  ghost predicate FacetListOk(values: seq<Text>, normalize: Normalize) {
    |values| <= MAX_DOCUMENT_VALUES && Ascending(values, TextLess) && forall v | v in values :: IsFixed(v, normalize)
  }

  ghost predicate FacetsOk(f: Facets, normalize: Normalize) { forall d | d in DIMENSIONS :: FacetListOk(Of(f, d), normalize) }

  /** `buildPublicPackDiscoveryDocument`: the canonical set of what the Lessons say, if the schema accepts it. */
  ghost function BuildFacetList(raw: seq<Text>, normalize: Normalize): Option<seq<Text>> {
    var canonical := CanonicalSet(raw, normalize);
    if canonical.Some? && FacetListOk(canonical.value, normalize) then canonical else None
  }

  /** A facet list is built exactly if every value normalizes, to one that normalizing leaves alone, and there are
      not too many. */
  lemma BuildsExactly(raw: seq<Text>, normalize: Normalize)
    ensures BuildFacetList(raw, normalize).Some?
       <==> && (forall w | w in raw :: normalize(w).Some? && IsFixed(normalize(w).value, normalize))
            && CanonicalSet(raw, normalize).Some? && |CanonicalSet(raw, normalize).value| <= 64
    ensures BuildFacetList(raw, normalize).Some? ==>
              && Ascending(BuildFacetList(raw, normalize).value, TextLess)
              && forall v :: v in BuildFacetList(raw, normalize).value <==> exists w :: w in raw && normalize(w) == Some(v)
  {
    CanonicalSetIs(raw, normalize);
    forall v ensures Normalizes(raw, v, normalize) <==> exists w :: w in raw && normalize(w) == Some(v) { }
    if CanonicalSet(raw, normalize).Some? {
      forall w | w in raw ensures normalize(w).value in CanonicalSet(raw, normalize).value {
        assert Normalizes(raw, normalize(w).value, normalize);
      }
    }
  }

  // ---- filters ----

  /** `normalizeFilterDimension`: at most four values, then their canonical set. */
  function NormalizeDimension(values: seq<Text>, normalize: Normalize): Option<seq<Text>> {
    if |values| > MAX_FILTER_VALUES then None else CanonicalSet(values, normalize)
  }

  /** `normalizePublicPackDiscoveryFilter` */
  function NormalizeFilter(f: Facets, normalize: Normalize): Option<Facets> {
    var l := NormalizeDimension(f.languages, normalize);
    var e := NormalizeDimension(f.ecosystems, normalize);
    var t := NormalizeDimension(f.tags, normalize);
    if l.None? || e.None? || t.None? then None else Some(Facets(l.value, e.value, t.value))
  }

  predicate AllFixed(f: Facets, normalize: Normalize) {
    forall d | d in DIMENSIONS :: forall v | v in Of(f, d) :: IsFixed(v, normalize)
  }

  /** What a normalized filter asks for in each dimension. */
  lemma NormalizedIs(f: Facets, normalize: Normalize, d: Dimension)
    requires NormalizeFilter(f, normalize).Some?
    ensures var once := Of(NormalizeFilter(f, normalize).value, d);
            && Ascending(once, TextLess) && |once| <= |Of(f, d)| <= MAX_FILTER_VALUES
            && (forall v :: v in once <==> Normalizes(Of(f, d), v, normalize))
            && (|once| == 0 <==> |Of(f, d)| == 0)
  {
    CanonicalSetIs(Of(f, d), normalize);
    var once := Of(NormalizeFilter(f, normalize).value, d);
    if |Of(f, d)| > 0 {
      var w := Of(f, d)[0];
      assert w in Of(f, d) && normalize(w).Some?;
      assert Normalizes(Of(f, d), normalize(w).value, normalize);
    }
  }

  /** A filter is refused exactly if a dimension has more than four values or a value that is refused. */
  lemma RefusedExactly(f: Facets, normalize: Normalize)
    ensures NormalizeFilter(f, normalize).None? <==>
              || |f.languages| > 4 || |f.ecosystems| > 4 || |f.tags| > 4
              || (exists w :: (w in f.languages || w in f.ecosystems || w in f.tags) && normalize(w).None?)
  {
    CanonicalSetIs(f.languages, normalize);
    CanonicalSetIs(f.ecosystems, normalize);
    CanonicalSetIs(f.tags, normalize);
  }

  /** Normalizing a normalized filter again changes nothing if each of its values is left alone. */
  lemma NormalizedIsCanonical(f: Facets, normalize: Normalize)
    requires NormalizeFilter(f, normalize).Some? && AllFixed(NormalizeFilter(f, normalize).value, normalize)
    ensures NormalizeFilter(NormalizeFilter(f, normalize).value, normalize) == NormalizeFilter(f, normalize)
  {
    AllDimensions();
    var once := NormalizeFilter(f, normalize).value;
    forall d: Dimension ensures NormalizeDimension(Of(once, d), normalize) == Some(Of(once, d)) {
      NormalizedIs(f, normalize, d);
      FixedSetStays(Of(once, d), normalize);
    }
    assert NormalizeDimension(Of(once, Languages), normalize) == Some(once.languages);
    assert NormalizeDimension(Of(once, Ecosystems), normalize) == Some(once.ecosystems);
    assert NormalizeDimension(Of(once, Tags), normalize) == Some(once.tags);
  }

  /** Normalizing again keeps the values that it leaves alone. */
  lemma FixedStay(f: Facets, normalize: Normalize, d: Dimension)
    requires NormalizeFilter(f, normalize).Some?
    ensures Fixed(Of(f, d), normalize) <= Fixed(Of(NormalizeFilter(f, normalize).value, d), normalize)
  {
    NormalizedIs(f, normalize, d);
    forall v | v in Fixed(Of(f, d), normalize)
      ensures v in Fixed(Of(NormalizeFilter(f, normalize).value, d), normalize)
    {
      assert Normalizes(Of(f, d), v, normalize);
    }
  }

  // ---- matching ----

  predicate MatchesDimension(wanted: seq<Text>, available: seq<Text>) {
    |wanted| == 0 || exists v :: v in wanted && v in available
  }

  predicate MatchesAll(wanted: Facets, available: Facets) {
    forall d | d in DIMENSIONS :: MatchesDimension(Of(wanted, d), Of(available, d))
  }

  /** `matchesPublicPackDiscoveryFilter` normalizes the filter; None is the error that this can raise. */
  function Matches(facets: Facets, filter: Facets, normalize: Normalize): Option<bool> {
    var f := NormalizeFilter(filter, normalize);
    if f.None? then None else Some(MatchesAll(f.value, facets))
  }

  predicate HasFilters(f: Facets) { |f.languages| > 0 || |f.ecosystems| > 0 || |f.tags| > 0 }

  lemma NothingMatches(wanted: Facets)
    ensures MatchesAll(wanted, NO_FACETS) <==> !HasFilters(wanted)
  {
    AllDimensions();
    forall d: Dimension ensures MatchesDimension(Of(wanted, d), Of(NO_FACETS, d)) <==> |Of(wanted, d)| == 0 {
    }
    if HasFilters(wanted) {
      var d := if |wanted.languages| > 0 then Languages else if |wanted.ecosystems| > 0 then Ecosystems else Tags;
      assert |Of(wanted, d)| > 0 && d in DIMENSIONS;
    }
  }

  // ---- when a filter and its normalization find the same ----

  /** In every dimension that it filters, the two have the same fixed values. */
  predicate SameFixed(f: Facets, g: Facets, normalize: Normalize) {
    forall d | d in DIMENSIONS && |Of(f, d)| > 0 :: Fixed(Of(f, d), normalize) == Fixed(Of(g, d), normalize)
  }

  /** Some dimension is filtered by values of which none is fixed; no document has any of them. */
  predicate FindsNothing(f: Facets, normalize: Normalize) {
    exists d | d in DIMENSIONS :: |Of(f, d)| > 0 && Fixed(Of(f, d), normalize) == {}
  }

  /** Normalizing once more changes no result: a check of the filter alone. */
  predicate Settled(f: Facets, normalize: Normalize) {
    var again := NormalizeFilter(f, normalize);
    again.Some? && (SameFixed(f, again.value, normalize) || FindsNothing(again.value, normalize))
  }

  lemma FixedMatch(wanted: seq<Text>, available: seq<Text>, normalize: Normalize)
    requires forall v | v in available :: IsFixed(v, normalize)
    ensures MatchesDimension(wanted, available)
       <==> |wanted| == 0 || exists v :: v in Fixed(wanted, normalize) && v in available
  {
    if v :| v in wanted && v in available { assert v in Fixed(wanted, normalize); }
  }

  /** A filter that finds nothing matches no document. */
  lemma FindsNothingMatchesNone(f: Facets, facets: Facets, normalize: Normalize)
    requires FindsNothing(f, normalize) && FacetsOk(facets, normalize)
    ensures !MatchesAll(f, facets)
  {
    var d :| d in DIMENSIONS && |Of(f, d)| > 0 && Fixed(Of(f, d), normalize) == {};
    assert FacetListOk(Of(facets, d), normalize);
    FixedMatch(Of(f, d), Of(facets, d), normalize);
  }

  lemma NothingBefore(f: Facets, normalize: Normalize)
    requires NormalizeFilter(f, normalize).Some? && FindsNothing(NormalizeFilter(f, normalize).value, normalize)
    ensures FindsNothing(f, normalize)
  {
    var again := NormalizeFilter(f, normalize).value;
    var d :| d in DIMENSIONS && |Of(again, d)| > 0 && Fixed(Of(again, d), normalize) == {};
    NormalizedIs(f, normalize, d);
    FixedStay(f, normalize, d);
  }

  /** A settled filter matches what its normalization matches, on every document. */
  lemma SettledMatches(f: Facets, facets: Facets, normalize: Normalize)
    requires Settled(f, normalize) && FacetsOk(facets, normalize)
    ensures MatchesAll(f, facets) <==> MatchesAll(NormalizeFilter(f, normalize).value, facets)
  {
    var again := NormalizeFilter(f, normalize).value;
    if FindsNothing(again, normalize) {
      NothingBefore(f, normalize);
      FindsNothingMatchesNone(f, facets, normalize);
      FindsNothingMatchesNone(again, facets, normalize);
    } else {
      forall d | d in DIMENSIONS
        ensures MatchesDimension(Of(f, d), Of(facets, d)) <==> MatchesDimension(Of(again, d), Of(facets, d))
      {
        assert FacetListOk(Of(facets, d), normalize);
        NormalizedIs(f, normalize, d);
        FixedMatch(Of(f, d), Of(facets, d), normalize);
        FixedMatch(Of(again, d), Of(facets, d), normalize);
      }
    }
  }

  /** One list with at most one value: the given one, else any that `wanted` has and normalizing leaves alone. */
  ghost function Sample(wanted: seq<Text>, normalize: Normalize): (r: seq<Text>)
    ensures FacetListOk(r, normalize)
    ensures Fixed(wanted, normalize) != {} ==> MatchesDimension(wanted, r)
  {
    if Fixed(wanted, normalize) == {} then [] else
    var v :| v in Fixed(wanted, normalize);
    assert v in [v];
    [v]
  }

  function Replace(f: Facets, d: Dimension, values: seq<Text>): Facets {
    match d
    case Languages => f.(languages := values)
    case Ecosystems => f.(ecosystems := values)
    case Tags => f.(tags := values)
  }

  /** A value that only the normalization of an unsettled filter has. */
  lemma UnsettledValue(f: Facets, normalize: Normalize) returns (d: Dimension, v: Text)
    requires NormalizeFilter(f, normalize).Some? && !SameFixed(f, NormalizeFilter(f, normalize).value, normalize)
    ensures |Of(f, d)| > 0 && v !in Of(f, d) && v in Of(NormalizeFilter(f, normalize).value, d) && IsFixed(v, normalize)
  {
    var again := NormalizeFilter(f, normalize).value;
    d :| d in DIMENSIONS && |Of(f, d)| > 0 && Fixed(Of(f, d), normalize) != Fixed(Of(again, d), normalize);
    FixedStay(f, normalize, d);
    v :| v in Fixed(Of(again, d), normalize) && v !in Fixed(Of(f, d), normalize);
  }

  /** A document with a sample of each filtered dimension, and with `v` in dimension `d`. */
  ghost function SampleDocument(wanted: Facets, d: Dimension, v: Text, normalize: Normalize): Facets {
    Replace(
      Facets(Sample(wanted.languages, normalize), Sample(wanted.ecosystems, normalize), Sample(wanted.tags, normalize)),
      d, [v])
  }

  lemma SampleMatches(wanted: Facets, d: Dimension, v: Text, normalize: Normalize)
    requires v in Of(wanted, d) && IsFixed(v, normalize) && !FindsNothing(wanted, normalize)
    ensures FacetsOk(SampleDocument(wanted, d, v, normalize), normalize)
    ensures MatchesAll(wanted, SampleDocument(wanted, d, v, normalize))
  {
    var facets := SampleDocument(wanted, d, v, normalize);
    forall e | e in DIMENSIONS
      ensures FacetListOk(Of(facets, e), normalize) && MatchesDimension(Of(wanted, e), Of(facets, e))
    {
      if e == d {
        assert Of(facets, e) == [v] && v in [v];
      } else {
        assert Of(facets, e) == Sample(Of(wanted, e), normalize);
      }
    }
  }

  /** For every filter that is not settled there is a document that only its normalization matches. */
  lemma UnsettledDiffers(f: Facets, normalize: Normalize) returns (facets: Facets)
    requires NormalizeFilter(f, normalize).Some? && !Settled(f, normalize)
    ensures FacetsOk(facets, normalize)
    ensures !MatchesAll(f, facets) && MatchesAll(NormalizeFilter(f, normalize).value, facets)
  {
    var again := NormalizeFilter(f, normalize).value;
    var d, v := UnsettledValue(f, normalize);
    facets := SampleDocument(again, d, v, normalize);
    SampleMatches(again, d, v, normalize);
    AllDimensions();
    assert Of(facets, d) == [v] && !MatchesDimension(Of(f, d), Of(facets, d));
  }

  // ---- twice is enough ----

  /** After two normalizations a third one changes nothing. */
  predicate StableTwice(v: Text, normalize: Normalize) {
    normalize(v).Some? && normalize(normalize(v).value).Some? ==>
      IsFixed(normalize(normalize(v).value).value, normalize)
  }

  ghost predicate TwiceIsEnough(normalize: Normalize) {
    forall v {:trigger StableTwice(v, normalize)} :: StableTwice(v, normalize)
  }

  /** A filter that was normalized twice is its own normalization. */
  lemma TwiceSettles(f: Facets, normalize: Normalize)
    requires TwiceIsEnough(normalize) && NormalizeFilter(f, normalize).Some?
    requires NormalizeFilter(NormalizeFilter(f, normalize).value, normalize).Some?
    ensures var twice := NormalizeFilter(NormalizeFilter(f, normalize).value, normalize).value;
            AllFixed(twice, normalize) && NormalizeFilter(twice, normalize) == Some(twice) && Settled(twice, normalize)
  {
    var once := NormalizeFilter(f, normalize).value;
    var twice := NormalizeFilter(once, normalize).value;
    forall d, u | d in DIMENSIONS && u in Of(twice, d) ensures IsFixed(u, normalize) {
      NormalizedIs(once, normalize, d);
      NormalizedIs(f, normalize, d);
      var w :| w in Of(once, d) && normalize(w) == Some(u);
      var v :| v in Of(f, d) && normalize(v) == Some(w);
      assert StableTwice(v, normalize);
    }
    NormalizedIsCanonical(once, normalize);
  }
}
