# Global universities directory: query engine and spreadsheet export

This project models the data logic of the directory page's script `js/app.js`
and proves properties of it. The page lists a static dataset of universities.
The model covers three parts.

- **The query engine.** `applyFilters` recomputes the result list
  `filteredData` from the whole dataset. It keeps a record when four
  predicates all hold:
  - the search text appears in the name, location, country or programs;
  - the country belongs to the chosen region;
  - the country equals the chosen country;
  - the stream appears in the programs.

  It then resets the reveal cursor `displayedUniversities` to 1000 and runs
  the sort control. `handleSort` either sorts the current results in place
  (by name, by ranking with 9999 for a missing rank, by country, or not at
  all) or, for "unranked", replaces them with every unranked record of the
  dataset. The reveal window shows the first `min(cursor, results)` cards.
  "Load more" adds 12 to the cursor. The button hides once every result is
  shown.
- **The download panel.** `updateDownloadPreview` applies the region, country
  and stream predicates (no search) to fill `downloadFilteredData`. The
  download button refuses an empty selection. It names the file
  `Global_Universities_Database.xls` when the selection is the whole dataset,
  and `Filtered_Universities.xls` otherwise.
- **The SpreadsheetML serialiser.** `escapeXml` applies the five predefined
  entities of section 4.6 of the XML 1.0 specification, ampersand first.
  `downloadExcel` writes:
  - the fixed prologue and the column widths;
  - one header row of eleven cells;
  - one eleven-cell row per record: a 1-based serial number, the rank as a
    `Number` cell or the text "Not Ranked", and the website link in the
    `Link` style;
  - the closing tags.

The model also covers four small views of the dataset:
- the featured slider: ranks up to 30, ascending, the first ten;
- the count of top-50 records;
- the sorted list of distinct countries;
- `addToCompare`, which fills the first empty compare slot.

Modules, one per file:

| file | module | contents |
|---|---|---|
| `text.dfy` | `Text` | JavaScript string operations: ASCII `toLowerCase`, `trim`, `includes`, first-occurrence `replace`, code-point comparison, decimal rendering |
| `seqs.dfy` | `Seqs` | `Array.prototype.filter`, first-occurrence de-duplication |
| `sorting.dfy` | `Sorting` | a stable sort by a comparator, proved sorted, a permutation and stable |
| `records.dfy` | `Universities` | the record, JavaScript truthiness of `globalRank`, the sort comparators |
| `query.dfy` | `QueryEngine` | the filter predicates and the `Engine` class holding `filteredData` and the cursor |
| `dashboard.dfy` | `Dashboard` | featured, top-ranked, country list, compare slots |
| `escape.dfy` | `XmlEscape` | `escapeXml`, its single-pass reading, and an unescaper for the round trip |
| `export.dfy` | `Export` | the typed-cell table, the XML text, `downloadExcel` as a loop, the `DownloadPanel` class |
| `scenarios.dfy` | `Scenarios` | worked examples over three records |

Modelling choices:
- The global state the code mutates becomes fields of the classes
  `QueryEngine.Engine` and `Export.DownloadPanel`. The dataset and the
  region mapping are constructor parameters, because their contents are not
  part of the script's logic.
- `globalRank` is `Option<nat>`. A record is ranked when the rank is present
  and non-zero, as JavaScript truthiness reads it. `rankingIsNull` records
  whether the record's `ranking` property is exactly `null`.
- `localeCompare` and the default `sort()` order are modelled as
  lexicographic order on characters, that is on Unicode code points
  (`Text.LexCompare`).
- `Array.prototype.sort` is stable, so the model sorts with a stable
  insertion sort (`Sorting.Sort`). Its stability is stated as "the
  subsequence of records the comparator calls equal is unchanged".
- `downloadExcel` builds its text with `+=` inside loops. `Export.DownloadExcel`
  does the same with `while` loops, and is proved equal to the declarative
  `Export.Workbook`.

Two behaviours of the code are easy to miss, and the model keeps both:
- The "unranked" option keeps only records whose `globalRank` is falsy AND
  whose `ranking` is exactly `null`, not every record without a rank.
- The sort control is wired directly to `handleSort`. Changing the sort
  re-sorts the current results without re-filtering. After "unranked", the
  results stay the unranked set whatever the filters say, and a later sort
  choice re-sorts that set (`QueryEngine.UnrankedThenByName`).

## Model

| member | source | states |
|---|---|---|
| Universities.SortKeyOf | js/app.js:316-338 | the sort control's value selects the "unranked" branch exactly for "unranked", and compares everything as equal exactly for values other than the four named ones |
| Universities.CompareIsTotalPreorder | js/app.js:325-338 | each comparator (name, ranking with missing ranks as 9999, country, default 0) is antisymmetric and transitive, so the sort is well defined |
| Universities.SortRecordsSpec | js/app.js:325-338 | the sort returns a permutation of `filteredData`, ordered by the comparator, and records the comparator calls equal keep their relative order |
| Universities.RankingOrder | js/app.js:329-332 | under "ranking", ranks ascend by `globalRank \|\| 9999`, and a record of rank below 9999 never comes after an unranked one |
| Universities.UnsortedKeepsOrder | js/app.js:335-336 | a sort value other than the named ones leaves the order unchanged |
| Sorting.SortSorted | js/app.js:325 | the sort's output is ordered by any total-preorder comparator |
| Sorting.SortPermutes | js/app.js:325 | the sort's output is a permutation of its input |
| Sorting.SortStable | js/app.js:325 | for every element, the subsequence of elements the comparator calls equal to it is the same before and after the sort |
| Sorting.SortAllEqual | js/app.js:335-336 | a comparator that returns 0 everywhere leaves the sequence unchanged |
| Seqs.Filter | js/app.js:278 | the filter keeps exactly the elements that satisfy the predicate and is no longer than its input |
| Seqs.FilterConcat | js/app.js:278 | filtering splits over any cut of the input, so the kept elements stay in input order |
| Seqs.FilterMultiset | js/app.js:278 | filtering keeps every copy of a satisfying element and no copy of any other |
| Seqs.FilterKeepsAll | js/app.js:278 | the filter keeps everything exactly when every element satisfies the predicate, and then returns the input unchanged |
| Seqs.FilterEmpty | js/app.js:278 | the filter returns nothing exactly when no element satisfies the predicate |
| Seqs.FilterCongruent | js/app.js:278 | two predicates that agree on the input filter it alike |
| Seqs.Dedup | js/app.js:222 | `[...new Set(s)]` contains exactly the elements of `s`, each once |
| Seqs.NoDuplicatesMultiset | js/app.js:222 | a sequence is free of duplicates exactly when it holds each element at most once |
| Text.ToLower | js/app.js:273 | `toLowerCase` keeps the length and maps each character through the ASCII case mapping |
| Text.ToLowerIdempotent | js/app.js:273 | lower-casing leaves no upper-case letter, and lower-casing twice changes nothing |
| Text.TrimSpec | js/app.js:273 | `trim` returns the slice left after cutting white space from both ends; what it cut is white space and what it left neither starts nor ends with it |
| Text.TrimEmptyIff | js/app.js:273 | a trimmed string is empty exactly when the input is all white space |
| Text.IncludesIff | js/app.js:281-284 | `includes` holds exactly when the needle occurs at some position |
| Text.IncludesNeedsChars | js/app.js:951 | a string that lacks a character of the needle cannot include the needle |
| Text.ReplaceFirstAbsent | js/app.js:951 | `replace` with a string pattern that does not occur returns the string unchanged |
| Text.LexCompareAntisymmetric | js/app.js:328 | swapping the arguments of the string comparison negates it, and it is 0 exactly for equal strings |
| Text.LexCompareTransitive | js/app.js:328 | the string comparison is transitive |
| Text.NatToString | js/app.js:932 | a number is printed as a non-empty string of decimal digits without a leading zero |
| Text.ParseNatToString | js/app.js:932 | reading the printed digits back gives the number |
| QueryEngine.FilterRecordsSpec | js/app.js:278-300 | a record is in the results exactly when the search, region, country and stream predicates all hold; the results keep dataset order and multiplicity |
| QueryEngine.EvaluateSortMode | js/app.js:278-338 | for any sort value other than "unranked", the results are exactly the matching records, each as often as in the dataset, ordered by the key |
| QueryEngine.EvaluateUnsorted | js/app.js:278-300 | with no sort key the results are the matching records in dataset order |
| QueryEngine.UnrankedIgnoresFilters | js/app.js:318-322 | "unranked" ignores search, region, country and stream, and keeps exactly the records with falsy `globalRank` and `ranking === null` |
| QueryEngine.UnrankedKeepsOrder | js/app.js:318-322 | the unranked records keep their dataset order |
| QueryEngine.UnknownRegionSelectsNothing | js/app.js:288-291 | a non-empty region key missing from the mapping leaves no results, whatever the other filters |
| QueryEngine.BlankSearchMatchesAll | js/app.js:273-280 | a search box holding only white space becomes the empty query and filters nothing |
| QueryEngine.Engine.constructor | js/app.js:8-9 | at page load the results are the whole dataset in order and the cursor is 1000; the results are drawn from the dataset |
| QueryEngine.Engine.ApplyFilters | js/app.js:272-311 | the results become the filtered dataset passed through the sort control, the cursor returns to 1000, and the results are drawn from the dataset |
| QueryEngine.Engine.HandleSort | js/app.js:314-341 | "unranked" replaces the results with the dataset's unranked records; any other value sorts the current results by its key; results drawn from the dataset stay so |
| QueryEngine.Engine.LoadMore | js/app.js:502-505 | "load more" adds exactly 12 to the cursor |
| QueryEngine.Engine.DisplayedCount | js/app.js:397 | the displayed count is `min(cursor, results)` |
| QueryEngine.Engine.Shown | js/app.js:409 | the revealed cards are the first `min(cursor, results)` results |
| QueryEngine.Engine.LoadMoreHidden | js/app.js:444-448 | the button state every render that shows at least one card sets: hidden exactly when every result is shown |
| QueryEngine.ResultsTextMeaning | js/app.js:394-404 | the results line reads "Showing n of N universities" exactly when the results hold every record of the dataset (as a permutation), and otherwise "Found N universities matching your criteria" |
| QueryEngine.UnrankedThenByName | js/app.js:314-338 | choosing "unranked" and then "name" in the sort control (two direct `handleSort` calls) sorts the unranked records by name, whatever the results were before, and leaves the reveal cursor where it was |
| Dashboard.FeaturedSpec | js/app.js:815-818 | the slider shows at most ten records of rank 1 to 30 in ascending rank, each no more often than the dataset holds it; a qualifying record is left out only when ten records of no greater rank are shown; records of equal rank appear in dataset order, the first ones of that rank |
| Dashboard.TopRankedCount | js/app.js:666 | the top-ranked count is at most the dataset size, and equals it exactly when every record ranks 1 to 50 |
| Dashboard.TopRankedCountAdds | js/app.js:666 | the count is 0 for no records, 1 for one record of rank 1 to 50 and 0 for any other, and adds up over any cut of the dataset |
| Dashboard.CountryListMembers | js/app.js:222 | the country list names every country of the dataset and nothing else |
| Dashboard.CountryListAscending | js/app.js:222 | the country list names each country once, in strictly ascending order |
| Dashboard.FirstEmptySlot | js/app.js:588-589 | the first slot with no value, or none exactly when every slot holds a value |
| Dashboard.AddToCompare | js/app.js:586-598 | the id goes into the first empty slot and nothing else changes; when every slot is taken, no slot changes and the failure is reported |
| XmlEscape.ReplaceAllConcat | js/app.js:971 | a global one-character replace splits over any cut of the string |
| XmlEscape.ReplaceChainConcat | js/app.js:970-975 | the five-replace chain splits over any cut of the string |
| XmlEscape.ReplaceChainChar | js/app.js:970-975 | on one character the chain gives that character's entity, or the character itself |
| XmlEscape.EscapeXmlIsSinglePass | js/app.js:968-976 | because `&` is replaced first, the chain equals replacing each character by its entity in a single pass; no entity is escaped twice |
| XmlEscape.EscapeXmlIsEscaped | js/app.js:968-976 | the output holds no raw `<`, `>`, `"` or `'`, and every `&` starts one of the five entities |
| XmlEscape.UnescapeEscape | js/app.js:968-976 | decoding the five entities recovers the input exactly |
| XmlEscape.EscapePlainText | js/app.js:968-976 | a string without reserved characters is returned unchanged |
| XmlEscape.EscapeEachConcat | js/app.js:968-976 | escaping splits over any cut of the string |
| XmlEscape.EscapeExample | js/app.js:968-976 | `A & B "C"` becomes `A &amp; B &quot;C&quot;` |
| Export.ExportLayout | js/app.js:923-944 | the table is one header row followed by exactly one row per record, in input order; empty input gives the header row alone |
| Export.HeaderRowCells | js/app.js:878-890 | the header row has height 30 and eleven `Header`-styled `String` cells whose escaped text reads back as the eleven titles |
| Export.DataRowShape | js/app.js:931-943 | a record's row has eleven cells: the serial cell, the rank cell sixth, the link cell in the `Link` style and the rest in the `Data` style |
| Export.SerialCellValue | js/app.js:932 | the first cell is a `Number` whose text reads back as index + 1 |
| Export.RankCellValue | js/app.js:937 | the rank cell is a `Number` exactly when `globalRank` is truthy, and then reads back as the rank; otherwise it is the `String` "Not Ranked" |
| Export.DataRowReadBack | js/app.js:933-942 | each text cell of a record's row unescapes to the record's field |
| Export.TableEscaped | js/app.js:923-944 | every cell text of the table holds no raw reserved character |
| Export.AppendEach | js/app.js:918-920 | the loop appends the rendering of every element, in order, to the content |
| Export.AppendRow | js/app.js:923-927 | one row's open tag, cells and close tag are appended |
| Export.WorkbookParts | js/app.js:876-951 | the document is the prologue, the column widths, the header row, one row per record and the closing tags, in this order, as the statements of `downloadExcel` append them |
| Export.DownloadExcel | js/app.js:876-951 | the loops build exactly the declarative document (prologue, column widths, header row, one row per record, closing tags), and the file name is the `.csv` to `.xls` replacement |
| Export.DownloadSelectionSpec | js/app.js:1025-1040 | the download selection is the query engine's filter with an empty search; a record is selected exactly when region, country and stream match; an unknown region selects nothing |
| Export.ClearedFiltersSelectAll | js/app.js:1025-1040 | with no download filter set, the selection is the whole dataset |
| Export.DownloadFileName | js/app.js:1087-1089 | the full-database name is chosen exactly when the count equals the dataset size, the filtered name otherwise |
| Export.CsvReplaceKeepsName | js/app.js:951 | the `.csv` to `.xls` replace leaves both file names unchanged |
| Export.FullNameMeansWholeDataset | js/app.js:1025-1040 | the selection is as long as the dataset exactly when it is the dataset, so the full-database name means every record is exported |
| Export.DownloadPanel.constructor | js/app.js:874 | the download selection starts as the whole dataset |
| Export.DownloadPanel.UpdateDownloadPreview | js/app.js:1020-1046 | the selection becomes the region, country and stream filter of the dataset |
| Export.DownloadPanel.Download | js/app.js:1081-1091 | an empty selection exports nothing; otherwise the document of the selection is exported under the name the count chooses |
| Scenarios.CountryFilterScenario | js/app.js:294 | filtering `US, US, UK` by country "UK" keeps exactly the UK record |
| Scenarios.RankingScenario | js/app.js:329-332 | ranks 5, missing, 2 sort by ranking to 2, 5, missing |
| Scenarios.ExportScenario | js/app.js:1081-1091 | exporting all three records uses the full-database name; exporting the one UK record uses the filtered name |

## Left out

- DOM reads and writes, event wiring, card, modal and compare-table HTML, the mobile menu and scroll highlighting: page glue with no data logic. The select values the code reads are method parameters.
- `debounce`, the delayed `init`, the delayed `initDownloadFilters` and the button flash: they only schedule work.
- `animateCounter` (floating-point steps on a timer) and the Chart.js charts (a foreign library).
- The Blob, object URL and anchor click that deliver the file, and every `alert`: browser I/O. `Export.DownloadPanel.Download` returns the file name and text instead.
- The preview text `"<n> universities"` of `updateDownloadPreview` and the active-filter chips: display strings only.
- `updateRegionCounts` and `populateDownloadCountryFilterByRegion`: DOM lookups and select population. The country list is modelled for the whole dataset only.
- The contents of `universitiesData` and `regionMapping`: taken as parameters.
- Text.ToLower: only ASCII letters are lower-cased; the full Unicode case mapping of `toLowerCase` is not modelled.
- Text.LexCompare: `localeCompare` is taken as code-point order, not a locale collation.
- Dashboard.CountryListAscending: the order is code-point order, while the default `sort()` of the country lists compares UTF-16 code units; the two differ for characters outside the Basic Multilingual Plane (U+10000 sorts after U+FFFF here, before it in JavaScript), so the stated order is the page's only for country names written in the Basic Multilingual Plane.
- QueryEngine.Engine.LoadMoreHidden: `renderUniversities` returns before updating the button and the results line when no card is shown, so after a change that empties the results the page leaves the button and, on a direct sort change, the results line as they were; the model states the button state and the results line of the current results instead.
- Region keys that are properties of `Object.prototype` (such as `"toString"`) are not modelled; the mapping is a plain map.
- XmlEscape.EscapeXml: the argument is a string; `String(str)` of a non-string value (a number in a field) is not modelled. The optional text fields of a record that the data leaves out are the empty string, which escapes to the empty string as the code's falsy check does.
- Export.Prologue: the fixed prologue and styles are one constant string; their XML structure is not analysed.
