/** The query engine of the directory page: the four ANDed filters, the sort
    control with its "unranked" override, and the reveal window over the
    results. */
module QueryEngine {

  import opened Text
  import opened Universities
  import Seqs

  /** The values of the search box and the region, country and stream
      selects; the empty string means "not set". */
  datatype Query = Query(searchText: string, region: string, country: string, stream: string)

  /** The search box's value, lower-cased and then trimmed. */
  function SearchQuery(raw: string): string {
    Trim(ToLower(raw))
  }

  predicate MatchesSearch(raw: string, r: Record) {
    var q := SearchQuery(raw);
    || q == []
    || Includes(ToLower(r.name), q)
    || Includes(ToLower(r.location), q)
    || Includes(ToLower(r.country), q)
    || Includes(ToLower(r.programs), q)
  }

  /** `regionMapping[region] || []`. */
  function CountriesIn(mapping: map<string, seq<string>>, region: string): seq<string> {
    if region in mapping then mapping[region] else []
  }

  predicate MatchesRegion(mapping: map<string, seq<string>>, region: string, r: Record) {
    region == [] || r.country in CountriesIn(mapping, region)
  }

  predicate MatchesCountry(country: string, r: Record) {
    country == [] || r.country == country
  }

  predicate MatchesStream(stream: string, r: Record) {
    stream == [] || Includes(ToLower(r.programs), ToLower(stream))
  }

  predicate Matches(mapping: map<string, seq<string>>, q: Query, r: Record) {
    && MatchesSearch(q.searchText, r)
    && MatchesRegion(mapping, q.region, r)
    && MatchesCountry(q.country, r)
    && MatchesStream(q.stream, r)
  }

  /** `universitiesData.filter(...)` with the four predicates. */
  function FilterRecords(mapping: map<string, seq<string>>, q: Query, data: seq<Record>): seq<Record> {
    Seqs.Filter((r: Record) => Matches(mapping, q, r), data)
  }

  /** `!u.globalRank && u.ranking === null`. */
  predicate IsUnrankedNull(r: Record) {
    !IsRanked(r) && r.rankingIsNull
  }

  function UnrankedRecords(data: seq<Record>): seq<Record> {
    Seqs.Filter(IsUnrankedNull, data)
  }

  /** What `applyFilters` leaves in `filteredData`. */
  function Evaluate(data: seq<Record>, mapping: map<string, seq<string>>, q: Query, k: SortKey): seq<Record> {
    if k == UnrankedOnly then UnrankedRecords(data) else SortRecords(k, FilterRecords(mapping, q, data))
  }

  /** A record passes the filters exactly when all four predicates hold, and
      the passing records keep their dataset order (filtering splits over any
      cut of the dataset) and their multiplicity. */
  lemma FilterRecordsSpec(mapping: map<string, seq<string>>, q: Query, a: seq<Record>, b: seq<Record>)
    ensures forall x :: x in FilterRecords(mapping, q, a) <==> x in a && Matches(mapping, q, x)
    ensures FilterRecords(mapping, q, a + b) == FilterRecords(mapping, q, a) + FilterRecords(mapping, q, b)
    ensures forall x :: multiset(FilterRecords(mapping, q, a))[x]
                     == if Matches(mapping, q, x) then multiset(a)[x] else 0
  {
    var p := (r: Record) => Matches(mapping, q, r);
    Seqs.FilterConcat(p, a, b);
    forall x ensures multiset(FilterRecords(mapping, q, a))[x]
                  == if Matches(mapping, q, x) then multiset(a)[x] else 0 {
      Seqs.FilterMultiset(p, a, x);
    }
  }

  /** The first record is kept exactly when it matches, ahead of whatever the
      rest of the dataset keeps. */
  lemma FilterRecordsCons(mapping: map<string, seq<string>>, q: Query, x: Record, rest: seq<Record>)
    ensures FilterRecords(mapping, q, [x] + rest)
         == (if Matches(mapping, q, x) then [x] else []) + FilterRecords(mapping, q, rest)
  {
    assert ([x] + rest)[1..] == rest;
  }

  /** In sort mode the result holds exactly the records that pass the filters,
      each as often as in the dataset, ordered by the key. */
  lemma EvaluateSortMode(data: seq<Record>, mapping: map<string, seq<string>>, q: Query, k: SortKey)
    requires k != UnrankedOnly
    ensures forall x :: x in Evaluate(data, mapping, q, k) <==> x in data && Matches(mapping, q, x)
    ensures multiset(Evaluate(data, mapping, q, k)) == multiset(FilterRecords(mapping, q, data))
    ensures var r := Evaluate(data, mapping, q, k);
      forall i, j :: 0 <= i < j < |r| ==> Compare(k, r[i], r[j]) <= 0
  {
    SortRecordsSpec(k, FilterRecords(mapping, q, data));
    var r := Evaluate(data, mapping, q, k);
    forall x ensures x in r <==> x in FilterRecords(mapping, q, data) {
      assert x in r <==> x in multiset(r);
    }
  }

  /** With no sort key the filtered records come out in dataset order. */
  lemma EvaluateUnsorted(data: seq<Record>, mapping: map<string, seq<string>>, q: Query)
    ensures Evaluate(data, mapping, q, Unsorted) == FilterRecords(mapping, q, data)
  {
    UnsortedKeepsOrder(FilterRecords(mapping, q, data));
  }

  /** The "unranked" option ignores the search text, region, country and
      stream, and keeps exactly the unranked records whose `ranking` is null. */
  lemma UnrankedIgnoresFilters(data: seq<Record>, mapping: map<string, seq<string>>, q: Query)
    ensures Evaluate(data, mapping, q, UnrankedOnly) == Evaluate(data, map[], Query("", "", "", ""), UnrankedOnly)
    ensures forall x :: x in Evaluate(data, mapping, q, UnrankedOnly) <==> x in data && !IsRanked(x) && x.rankingIsNull
  {
  }

  /** The unranked records keep their dataset order: the selection splits
      over any cut of the dataset. */
  lemma UnrankedKeepsOrder(a: seq<Record>, b: seq<Record>)
    ensures UnrankedRecords(a + b) == UnrankedRecords(a) + UnrankedRecords(b)
  {
    Seqs.FilterConcat(IsUnrankedNull, a, b);
  }

  /** A region key that the mapping lacks selects no record at all. */
  lemma UnknownRegionSelectsNothing(data: seq<Record>, mapping: map<string, seq<string>>, q: Query, k: SortKey)
    requires q.region != [] && q.region !in mapping && k != UnrankedOnly
    ensures FilterRecords(mapping, q, data) == []
    ensures Evaluate(data, mapping, q, k) == []
  {
    Seqs.FilterEmpty((r: Record) => Matches(mapping, q, r), data);
  }

  lemma LowerKeepsSpace(s: string)
    ensures AllSpace(ToLower(s)) <==> AllSpace(s)
  {
    assert forall i :: 0 <= i < |s| ==> (IsJsSpace(ToLower(s)[i]) <==> IsJsSpace(s[i]));
  }

  /** A search box holding nothing but white space filters nothing. */
  lemma BlankSearchMatchesAll(raw: string, r: Record)
    ensures MatchesSearch(raw, r) || !AllSpace(raw)
    ensures AllSpace(raw) <==> SearchQuery(raw) == []
  {
    TrimEmptyIff(ToLower(raw));
    LowerKeepsSpace(raw);
  }

  /** The number of results revealed when the filters change. */
  const InitialWindow: nat := 1000

  /** The number of further results "load more" reveals. */
  const PageSize: nat := 12

  /** The engine's state: the current results `filteredData` and the reveal
      cursor `displayedUniversities`, over a fixed dataset and region mapping. */
  class Engine {
    const dataset: seq<Record>
    const regionMapping: map<string, seq<string>>
    var filteredData: seq<Record>
    var displayed: nat

    /** The results are drawn from the dataset: no record appears in them more
        often than it does in the dataset. */
    predicate Valid()
      reads this
    {
      multiset(filteredData) <= multiset(dataset)
    }

    /** The state at page load: every record, in dataset order. */
    constructor (dataset: seq<Record>, regionMapping: map<string, seq<string>>)
      ensures this.dataset == dataset && this.regionMapping == regionMapping
      ensures filteredData == dataset && displayed == InitialWindow
      ensures Valid()
    {
      this.dataset := dataset;
      this.regionMapping := regionMapping;
      filteredData := dataset;
      displayed := InitialWindow;
    }

    /** `applyFilters`: recompute the results from the whole dataset, reset
        the cursor, then run the sort control. */
    method ApplyFilters(q: Query, sortValue: string)
      modifies this
      ensures filteredData == Evaluate(dataset, regionMapping, q, SortKeyOf(sortValue))
      ensures displayed == InitialWindow
      ensures Valid()
    {
      filteredData := FilterRecords(regionMapping, q, dataset);
      FilterRecordsSpec(regionMapping, q, dataset, []);
      displayed := InitialWindow;
      HandleSort(sortValue);
    }

    /** `handleSort`: "unranked" replaces the results with every unranked
        record of the dataset; any other value sorts the current results. */
    method HandleSort(sortValue: string)
      modifies this`filteredData
      ensures SortKeyOf(sortValue) == UnrankedOnly ==> filteredData == UnrankedRecords(dataset)
      ensures SortKeyOf(sortValue) != UnrankedOnly ==>
                filteredData == SortRecords(SortKeyOf(sortValue), old(filteredData))
      ensures old(Valid()) ==> Valid()
    {
      var k := SortKeyOf(sortValue);
      if k == UnrankedOnly {
        filteredData := UnrankedRecords(dataset);
        forall x ensures multiset(filteredData)[x] <= multiset(dataset)[x] {
          Seqs.FilterMultiset(IsUnrankedNull, dataset, x);
        }
        return;
      }
      SortRecordsSpec(k, filteredData);
      filteredData := SortRecords(k, filteredData);
    }

    /** `loadMoreUniversities`. */
    method LoadMore()
      modifies this`displayed
      ensures displayed == old(displayed) + PageSize
    {
      displayed := displayed + PageSize;
    }

    /** `Math.min(displayedUniversities, filteredData.length)`. */
    function DisplayedCount(): (n: nat)
      reads this
      ensures n <= |filteredData| && n <= displayed
      ensures n == |filteredData| || n == displayed
    {
      if displayed < |filteredData| then displayed else |filteredData|
    }

    /** `filteredData.slice(0, displayedUniversities)`: the revealed cards. */
    function Shown(): (r: seq<Record>)
      reads this
      ensures |r| == DisplayedCount()
      ensures forall i :: 0 <= i < |r| ==> r[i] == filteredData[i]
    {
      filteredData[..DisplayedCount()]
    }

    /** The load-more button is hidden exactly when every result is shown. */
    predicate LoadMoreHidden()
      reads this
      ensures LoadMoreHidden() <==> Shown() == filteredData
    {
      displayed >= |filteredData|
    }

    /** `updateResultsCount`: the results line. */
    function ResultsText(): string
      reads this
    {
      var total := |filteredData|;
      if total == |dataset| then ShowingText(DisplayedCount(), total) else FoundText(total)
    }
  }

  function ShowingText(shown: nat, total: nat): string {
    "Showing " + NatToString(shown) + " of " + NatToString(total) + " universities"
  }

  function FoundText(total: nat): string {
    "Found " + NatToString(total) + " universities matching your criteria"
  }

  /** The results line says "Showing" exactly when the results hold every
      record of the dataset, and then it counts the revealed cards out of the
      dataset; otherwise it counts the results found. */
  lemma ResultsTextMeaning(e: Engine)
    requires e.Valid()
    ensures e.ResultsText() == ShowingText(e.DisplayedCount(), |e.dataset|)
            <==> multiset(e.filteredData) == multiset(e.dataset)
    ensures multiset(e.filteredData) != multiset(e.dataset) ==>
              e.ResultsText() == FoundText(|e.filteredData|)
  {
    Seqs.SubMultisetFull(e.filteredData, e.dataset);
    assert ShowingText(e.DisplayedCount(), |e.dataset|)[0] == 'S';
    assert FoundText(|e.filteredData|)[0] == 'F';
  }

  /** Choosing "unranked" and then "name" in the sort control sorts the
      unranked records by name, whatever the results were before: neither
      choice re-filters, and neither moves the reveal cursor. */
  method UnrankedThenByName(e: Engine)
    requires e.Valid()
    modifies e
    ensures e.filteredData == SortRecords(ByName, UnrankedRecords(e.dataset))
    ensures e.displayed == old(e.displayed)
    ensures e.Valid()
  {
    e.HandleSort("unranked");
    e.HandleSort("name");
  }
}
