/** Worked examples of the query engine and the download button on three
    records. */
module Scenarios {

  import opened Text
  import opened Universities
  import opened QueryEngine
  import opened Export

  /** Filtering `US, US, UK` by country "UK" keeps exactly the UK record. */
  lemma CountryFilterScenario(mapping: map<string, seq<string>>, a: Record, b: Record, c: Record)
    requires a.country == "US" && b.country == "US" && c.country == "UK"
    ensures FilterRecords(mapping, Query("", "", "UK", ""), [a, b, c]) == [c]
  {
    CountryFilterMatches(mapping, a, b, c);
    KeepLast(mapping, Query("", "", "UK", ""), a, b, c);
  }

  lemma KeepLast(mapping: map<string, seq<string>>, q: Query, a: Record, b: Record, c: Record)
    requires !Matches(mapping, q, a) && !Matches(mapping, q, b) && Matches(mapping, q, c)
    ensures FilterRecords(mapping, q, [a, b, c]) == [c]
  {
    FilterRecordsCons(mapping, q, c, []);
    FilterRecordsCons(mapping, q, b, [c]);
    FilterRecordsCons(mapping, q, a, [b, c]);
    assert [c] + [] == [c] && [b] + [c] == [b, c] && [a] + [b, c] == [a, b, c];
  }

  lemma CountryFilterMatches(mapping: map<string, seq<string>>, a: Record, b: Record, c: Record)
    requires a.country == "US" && b.country == "US" && c.country == "UK"
    ensures var q := Query("", "", "UK", "");
      !Matches(mapping, q, a) && !Matches(mapping, q, b) && Matches(mapping, q, c)
  {
    assert "US" != "UK" by { assert "US"[1] != "UK"[1]; }
    assert !MatchesCountry("UK", a) && !MatchesCountry("UK", b);
    BlankSearchMatchesAll("", c);
    assert MatchesSearch("", c) && MatchesCountry("UK", c);
  }

  /** Ranks `5, null, 2` sorted by ranking come out as `2, 5, null`. */
  lemma RankingScenario(a: Record, b: Record, c: Record)
    requires a.globalRank == Some(5) && b.globalRank == None && c.globalRank == Some(2)
    ensures SortRecords(ByRanking, [a, b, c]) == [c, a, b]
  {
    var cmp := Comparator(ByRanking);
    assert [a, b, c][1..] == [b, c] && [b, c][1..] == [c];
    assert Sorting.Sort(cmp, [c]) == [c] by {
      assert [c][1..] == [];
    }
    assert Sorting.Insert(cmp, b, [c]) == [c, b] by {
      assert [c][1..] == [];
    }
    assert Sorting.Insert(cmp, a, [c, b]) == [c, a, b] by {
      assert [c, b][1..] == [b];
    }
    assert Sorting.Sort(cmp, [b, c]) == [c, b];
    assert Sorting.Sort(cmp, [a, b, c]) == Sorting.Insert(cmp, a, Sorting.Sort(cmp, [b, c]));
  }

  /** Exporting all three records uses the full-database name; exporting the
      one UK record uses the filtered name. */
  method ExportScenario(a: Record, b: Record, c: Record) returns (everything: DownloadOutcome, ukOnly: DownloadOutcome)
    requires a.country == "US" && b.country == "US" && c.country == "UK"
    ensures everything == Exported(FullDatabaseFileName, Workbook([a, b, c]))
    ensures ukOnly == Exported(FilteredFileName, Workbook([c]))
  {
    var panel := new DownloadPanel([a, b, c], map[]);
    everything := panel.Download();
    panel.UpdateDownloadPreview("", "UK", "");
    DownloadSelectionSpec([a, b, c], map[], "", "UK", "");
    CountryFilterScenario(map[], a, b, c);
    ukOnly := panel.Download();
  }
}
