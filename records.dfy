/** The university record, its ranking as JavaScript reads it, and the
    comparators of the sort control. */
module Universities {

  import opened Text
  import Sorting

  /** One entry of the static dataset. Optional display fields that the data
      leaves out are the empty string. `globalRank` is the `globalRank`
      property (None when absent or null); `rankingIsNull` records whether the
      record's `ranking` property is exactly `null`. */
  datatype Record = Record(
    id: int,
    name: string,
    country: string,
    location: string,
    programs: string,
    globalRank: Option<nat>,
    rankingIsNull: bool,
    about: string,
    qualification: string,
    feeStructure: string,
    academicSession: string,
    link: string)

  /** `uni.globalRank` in a boolean context: present and not zero. */
  predicate IsRanked(r: Record) {
    r.globalRank.Some? && r.globalRank.value != 0
  }

  /** The rank an unranked record sorts under. */
  const UnrankedKey: nat := 9999

  /** `uni.globalRank || 9999`. */
  function RankKey(r: Record): nat {
    if IsRanked(r) then r.globalRank.value else UnrankedKey
  }

  /** The options of the sort control; any value other than the four named
      ones compares every pair as equal. */
  datatype SortKey = ByName | ByRanking | ByCountry | UnrankedOnly | Unsorted

  function SortKeyOf(value: string): (k: SortKey)
    ensures k == UnrankedOnly <==> value == "unranked"
    ensures k == Unsorted <==> value !in {"name", "ranking", "country", "unranked"}
  {
    if value == "name" then ByName
    else if value == "ranking" then ByRanking
    else if value == "country" then ByCountry
    else if value == "unranked" then UnrankedOnly
    else Unsorted
  }

  /** The comparator handed to `filteredData.sort`, with `localeCompare`
      taken as code-point order. */
  function Compare(k: SortKey, a: Record, b: Record): int {
    match k
    case ByName => LexCompare(a.name, b.name)
    case ByRanking => RankKey(a) - RankKey(b)
    case ByCountry => LexCompare(a.country, b.country)
    case _ => 0
  }

  function Comparator(k: SortKey): (Record, Record) -> int {
    (a: Record, b: Record) => Compare(k, a, b)
  }

  /** Every sort key orders records by a total preorder, so the sort is
      well defined. */
  lemma CompareIsTotalPreorder(k: SortKey)
    ensures Sorting.IsTotalPreorder(Comparator(k))
  {
    var cmp := Comparator(k);
    forall a, b ensures cmp(a, b) < 0 <==> cmp(b, a) > 0 {
      LexCompareAntisymmetric(a.name, b.name);
      LexCompareAntisymmetric(a.country, b.country);
    }
    forall a, b, c | cmp(a, b) <= 0 && cmp(b, c) <= 0 ensures cmp(a, c) <= 0 {
      if k == ByName {
        LexCompareTransitive(a.name, b.name, c.name);
      } else if k == ByCountry {
        LexCompareTransitive(a.country, b.country, c.country);
      }
    }
  }

  /** `filteredData.sort(comparator)` for the given key. */
  function SortRecords(k: SortKey, s: seq<Record>): seq<Record> {
    Sorting.Sort(Comparator(k), s)
  }

  /** The sort returns a permutation of its input, ordered by the key, and
      records the key finds equal keep their relative order. */
  lemma SortRecordsSpec(k: SortKey, s: seq<Record>)
    ensures multiset(SortRecords(k, s)) == multiset(s)
    ensures forall i, j :: 0 <= i < j < |SortRecords(k, s)| ==>
              Compare(k, SortRecords(k, s)[i], SortRecords(k, s)[j]) <= 0
    ensures forall e :: Sorting.ClassOf(Comparator(k), e, SortRecords(k, s))
                     == Sorting.ClassOf(Comparator(k), e, s)
  {
    CompareIsTotalPreorder(k);
    Sorting.SortPermutes(Comparator(k), s);
    Sorting.SortSorted(Comparator(k), s);
    forall e ensures Sorting.ClassOf(Comparator(k), e, SortRecords(k, s))
                  == Sorting.ClassOf(Comparator(k), e, s) {
      Sorting.SortStable(Comparator(k), s, e);
    }
  }

  /** Under the "ranking" key, a record with a rank below 9999 never comes
      after an unranked one, and ranks ascend. */
  lemma RankingOrder(s: seq<Record>)
    ensures var r := SortRecords(ByRanking, s);
      forall i, j :: 0 <= i < j < |r| ==>
        && RankKey(r[i]) <= RankKey(r[j])
        && (IsRanked(r[j]) && r[j].globalRank.value < UnrankedKey ==> IsRanked(r[i]))
  {
    SortRecordsSpec(ByRanking, s);
  }

  /** Any key other than name, ranking and country leaves the order unchanged. */
  lemma UnsortedKeepsOrder(s: seq<Record>)
    ensures SortRecords(Unsorted, s) == s
  {
    CompareIsTotalPreorder(Unsorted);
    Sorting.SortAllEqual(Comparator(Unsorted), s);
  }
}
