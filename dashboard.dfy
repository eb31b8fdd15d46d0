/** The small derived views of the dataset on the home page: the featured
    slider, the top-ranked counter, the sorted country list of the filter
    selects, and the compare slots. */
module Dashboard {

  import opened Text
  import opened Universities
  import Seqs
  import Sorting

  // ---------------------------------------------------------------------------
  // Featured universities

  /** `u.globalRank && u.globalRank <= 30`. */
  predicate IsFeaturedRank(r: Record) {
    IsRanked(r) && r.globalRank.value <= 30
  }

  const FeaturedLimit: nat := 10

  /** Ranks up to 30, ascending by rank, the first ten. On ranked records the
      slider's comparator `a.globalRank - b.globalRank` is the "ranking" one. */
  function Featured(data: seq<Record>): seq<Record> {
    var s := SortRecords(ByRanking, Seqs.Filter(IsFeaturedRank, data));
    s[..if |s| < FeaturedLimit then |s| else FeaturedLimit]
  }

  /** The slider shows at most ten dataset records of rank 1 to 30 in ascending
      rank, and a qualifying record is left out only when ten records of no
      greater rank are shown. */
  lemma FeaturedSpec(data: seq<Record>)
    ensures var f := Featured(data);
      && |f| <= FeaturedLimit
      && (forall x :: x in f ==> x in data && IsFeaturedRank(x))
      && (forall i, j :: 0 <= i < j < |f| ==>
            IsRanked(f[i]) && IsRanked(f[j]) && f[i].globalRank.value <= f[j].globalRank.value)
      && (forall y :: y in data && IsFeaturedRank(y) && y !in f ==>
            |f| == FeaturedLimit && forall x :: x in f ==> x.globalRank.value <= y.globalRank.value)
      && multiset(f) <= multiset(Seqs.Filter(IsFeaturedRank, data))
      && (forall e :: Sorting.ClassOf(Comparator(ByRanking), e, f)
                   <= Sorting.ClassOf(Comparator(ByRanking), e, Seqs.Filter(IsFeaturedRank, data)))
  {
    var f := Featured(data);
    FeaturedKeepsTies(data);
    FeaturedSorted(data);
    assert RankAscending(f);
    forall y | y in data && IsFeaturedRank(y) && y !in f
      ensures |f| == FeaturedLimit && forall x :: x in f ==> x.globalRank.value <= y.globalRank.value
    {
      FeaturedLeftOut(data, y);
    }
  }

  /** The featured records are a sub-multiset of the qualifying ones, and
      among records of equal rank they are the first ones, in dataset order. */
  lemma FeaturedKeepsTies(data: seq<Record>)
    ensures multiset(Featured(data)) <= multiset(Seqs.Filter(IsFeaturedRank, data))
    ensures forall e :: Sorting.ClassOf(Comparator(ByRanking), e, Featured(data))
                     <= Sorting.ClassOf(Comparator(ByRanking), e, Seqs.Filter(IsFeaturedRank, data))
  {
    var c := Seqs.Filter(IsFeaturedRank, data);
    var s := SortRecords(ByRanking, c);
    var f := Featured(data);
    SortRecordsSpec(ByRanking, c);
    assert s == f + s[|f|..];
    assert multiset(s) == multiset(f) + multiset(s[|f|..]);
    forall e ensures Sorting.ClassOf(Comparator(ByRanking), e, f)
                  <= Sorting.ClassOf(Comparator(ByRanking), e, c) {
      Sorting.ClassOfConcat(Comparator(ByRanking), e, f, s[|f|..]);
    }
  }

  predicate RankAscending(f: seq<Record>) {
    forall i, j :: 0 <= i < j < |f| ==>
      IsRanked(f[i]) && IsRanked(f[j]) && f[i].globalRank.value <= f[j].globalRank.value
  }

  /** The featured records come from the dataset, qualify, and ascend by rank. */
  lemma FeaturedSorted(data: seq<Record>)
    ensures forall x :: x in Featured(data) ==> x in data && IsFeaturedRank(x)
    ensures RankAscending(Featured(data))
  {
    var c := Seqs.Filter(IsFeaturedRank, data);
    var s := SortRecords(ByRanking, c);
    var f := Featured(data);
    SortRecordsSpec(ByRanking, c);
    forall x | x in s ensures x in c {
      assert x in multiset(s);
    }
    forall x | x in f ensures x in data && IsFeaturedRank(x) {
      var i :| 0 <= i < |f| && f[i] == x;
      assert s[i] == x;
    }
    RankAscendingPrefix(s, |f|);
  }

  /** A prefix of qualifying records ordered by the "ranking" comparator
      ascends by rank. */
  lemma RankAscendingPrefix(s: seq<Record>, k: nat)
    requires k <= |s|
    requires forall x :: x in s ==> IsFeaturedRank(x)
    requires forall i, j :: 0 <= i < j < |s| ==> Compare(ByRanking, s[i], s[j]) <= 0
    ensures RankAscending(s[..k])
  {
    var f := s[..k];
    if !RankAscending(f) {
      var i, j :| 0 <= i < j < |f| && !(IsRanked(f[i]) && IsRanked(f[j]) && f[i].globalRank.value <= f[j].globalRank.value);
      RankPair(s, i, j);
      assert false;
    }
  }

  /** One pair of a rank-ordered sequence of qualifying records. */
  lemma RankPair(s: seq<Record>, i: nat, j: nat)
    requires i < j < |s|
    requires forall x :: x in s ==> IsFeaturedRank(x)
    requires forall i, j :: 0 <= i < j < |s| ==> Compare(ByRanking, s[i], s[j]) <= 0
    ensures IsRanked(s[i]) && IsRanked(s[j]) && s[i].globalRank.value <= s[j].globalRank.value
  {
    assert s[i] in s && s[j] in s;
    assert Compare(ByRanking, s[i], s[j]) <= 0;
  }

  /** A qualifying record is missing only behind ten records of no greater rank. */
  lemma FeaturedLeftOut(data: seq<Record>, y: Record)
    requires y in data && IsFeaturedRank(y) && y !in Featured(data)
    ensures |Featured(data)| == FeaturedLimit
    ensures forall x :: x in Featured(data) ==> IsRanked(x) && x.globalRank.value <= y.globalRank.value
  {
    FeaturedSorted(data);
    var c := Seqs.Filter(IsFeaturedRank, data);
    var s := SortRecords(ByRanking, c);
    var f := Featured(data);
    SortRecordsSpec(ByRanking, c);
    assert y in multiset(c);
    var p :| 0 <= p < |s| && s[p] == y;
    assert p >= |f|;
    forall x | x in f ensures IsRanked(x) && x.globalRank.value <= y.globalRank.value {
      var i :| 0 <= i < |f| && f[i] == x;
      assert s[i] == x;
    }
  }

  // ---------------------------------------------------------------------------
  // Top-ranked counter

  /** `u.globalRank && u.globalRank <= 50`. */
  predicate IsTopRanked(r: Record) {
    IsRanked(r) && r.globalRank.value <= 50
  }

  /** How many records rank 1 to 50; all of them exactly when every record does. */
  function TopRankedCount(data: seq<Record>): (n: nat)
    ensures n <= |data|
    ensures n == |data| <==> forall x :: x in data ==> IsTopRanked(x)
  {
    Seqs.FilterKeepsAll(IsTopRanked, data);
    |Seqs.Filter(IsTopRanked, data)|
  }

  /** The count adds up record by record: nothing for an empty dataset, one
      for each record of rank 1 to 50, and the sum over any cut. */
  lemma TopRankedCountAdds(a: seq<Record>, b: seq<Record>, x: Record)
    ensures TopRankedCount([]) == 0
    ensures TopRankedCount([x]) == if IsTopRanked(x) then 1 else 0
    ensures TopRankedCount(a + b) == TopRankedCount(a) + TopRankedCount(b)
  {
    Seqs.FilterConcat(IsTopRanked, a, b);
    assert [x][1..] == [];
  }

  // ---------------------------------------------------------------------------
  // Country list of the filter selects

  function Countries(data: seq<Record>): seq<string> {
    seq(|data|, i requires 0 <= i < |data| => data[i].country)
  }

  function StringOrder(): (string, string) -> int {
    (a: string, b: string) => LexCompare(a, b)
  }

  /** `[...new Set(universitiesData.map(u => u.country))].sort()`. */
  function CountryList(data: seq<Record>): seq<string> {
    Sorting.Sort(StringOrder(), Seqs.Dedup(Countries(data)))
  }

  lemma StringOrderIsTotalPreorder()
    ensures Sorting.IsTotalPreorder(StringOrder())
  {
    var cmp := StringOrder();
    forall a, b ensures cmp(a, b) < 0 <==> cmp(b, a) > 0 {
      LexCompareAntisymmetric(a, b);
    }
    forall a, b, c | cmp(a, b) <= 0 && cmp(b, c) <= 0 ensures cmp(a, c) <= 0 {
      LexCompareTransitive(a, b, c);
    }
  }

  /** The list names every country of the dataset and nothing else. */
  lemma CountryListMembers(data: seq<Record>)
    ensures forall c :: c in CountryList(data) <==> exists i :: 0 <= i < |data| && data[i].country == c
  {
    var d := Seqs.Dedup(Countries(data));
    var l := CountryList(data);
    Sorting.SortPermutes(StringOrder(), d);
    forall c ensures c in l <==> c in d {
      assert c in l <==> c in multiset(l);
    }
    forall c ensures c in Countries(data) <==> exists i :: 0 <= i < |data| && data[i].country == c {
      if c in Countries(data) {
        var i :| 0 <= i < |data| && Countries(data)[i] == c;
      } else {
        forall i | 0 <= i < |data| ensures data[i].country != c {
          assert Countries(data)[i] == data[i].country;
        }
      }
    }
  }

  /** The list names each country once, in strictly ascending code-point order. */
  lemma CountryListAscending(data: seq<Record>)
    ensures var l := CountryList(data);
      forall i, j :: 0 <= i < j < |l| ==> LexCompare(l[i], l[j]) < 0
  {
    var d := Seqs.Dedup(Countries(data));
    var l := CountryList(data);
    StringOrderIsTotalPreorder();
    Sorting.SortSorted(StringOrder(), d);
    Sorting.SortPermutes(StringOrder(), d);
    Seqs.NoDuplicatesMultiset(d);
    Seqs.NoDuplicatesMultiset(l);
    forall i, j | 0 <= i < j < |l| ensures LexCompare(l[i], l[j]) < 0 {
      LexCompareAntisymmetric(l[i], l[j]);
    }
  }

  // ---------------------------------------------------------------------------
  // Compare slots

  /** The first slot whose select holds no value. */
  function FirstEmptySlot(slots: seq<string>): (r: Option<nat>)
    ensures r.None? <==> forall i :: 0 <= i < |slots| ==> slots[i] != ""
    ensures r.Some? ==> r.value < |slots| && slots[r.value] == ""
                        && forall j :: 0 <= j < r.value ==> slots[j] != ""
  {
    if slots == [] then None
    else if slots[0] == "" then Some(0)
    else match FirstEmptySlot(slots[1..])
      case None => None
      case Some(i) => Some(i + 1)
  }

  /** `addToCompare`: put the university's id into the first empty slot, or
      report that every slot is taken. */
  method AddToCompare(slots: array<string>, id: string) returns (placed: bool)
    modifies slots
    ensures placed == FirstEmptySlot(old(slots[..])).Some?
    ensures placed ==> slots[..] == old(slots[..])[FirstEmptySlot(old(slots[..])).value := id]
    ensures !placed ==> slots[..] == old(slots[..])
  {
    var i := 0;
    while i < slots.Length
      invariant 0 <= i <= slots.Length
      invariant forall j :: 0 <= j < i ==> slots[j] != ""
      invariant slots[..] == old(slots[..])
    {
      if slots[i] == "" {
        slots[i] := id;
        return true;
      }
      i := i + 1;
    }
    return false;
  }
}
