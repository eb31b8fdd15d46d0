/** The spreadsheet export: the download filter, the SpreadsheetML document
    `downloadExcel` writes, and the download button's empty-set check and
    file-name choice. */
module Export {

  import opened Text
  import opened XmlEscape
  import opened Universities
  import QueryEngine
  import Seqs

  // ---------------------------------------------------------------------------
  // The table behind the document

  datatype Style = HeaderStyle | DataStyle | LinkStyle

  /** The `ss:Type` of a cell's `Data` element. */
  datatype DataType = NumberType | StringType

  /** One `Cell`: its style, its data type and the text between the `Data`
      tags, exactly as written into the document. */
  datatype Cell = Cell(style: Style, dataType: DataType, text: string)

  /** One `Row`: the optional `ss:Height` and its cells. */
  datatype Row = Row(height: Option<nat>, cells: seq<Cell>)

  const Headers: seq<string> := [
    "S.No", "University Name", "Country", "Location", "Programs/Best Known For",
    "Global Rank", "About", "Qualification", "Fee Structure", "Academic Session",
    "Website Link"]

  const ColumnWidths: seq<nat> := [40, 200, 100, 120, 200, 60, 300, 200, 150, 150, 200]

  /** The number of columns: every row has one cell per header. */
  const ColumnCount: nat := 11

  const HeaderHeight: nat := 30

  const NotRanked: string := "Not Ranked"

  function HeaderCell(header: string): Cell {
    Cell(HeaderStyle, StringType, EscapeXml(header))
  }

  function HeaderRow(): Row {
    Row(Some(HeaderHeight), seq(|Headers|, j requires 0 <= j < |Headers| => HeaderCell(Headers[j])))
  }

  function TextCell(field: string): Cell {
    Cell(DataStyle, StringType, EscapeXml(field))
  }

  /** The rank cell: the rank as a number when `globalRank` is truthy,
      otherwise the unescaped string "Not Ranked". */
  function RankCell(r: Record): Cell {
    if IsRanked(r) then Cell(DataStyle, NumberType, NatToString(r.globalRank.value))
    else Cell(DataStyle, StringType, NotRanked)
  }

  /** `index + 1` as a Number. */
  function SerialCell(index: nat): Cell {
    Cell(DataStyle, NumberType, NatToString(index + 1))
  }

  /** The row of the record at (0-based) position `index`. */
  function DataRow(index: nat, r: Record): Row {
    Row(None, [
      SerialCell(index),
      TextCell(r.name),
      TextCell(r.country),
      TextCell(r.location),
      TextCell(r.programs),
      RankCell(r),
      TextCell(r.about),
      TextCell(r.qualification),
      TextCell(r.feeStructure),
      TextCell(r.academicSession),
      Cell(LinkStyle, StringType, EscapeXml(r.link))])
  }

  /** One row per record, in input order. */
  function DataRows(data: seq<Record>): seq<Row> {
    seq(|data|, i requires 0 <= i < |data| => DataRow(i, data[i]))
  }

  /** The header row followed by the data rows. */
  function ExportTable(data: seq<Record>): seq<Row> {
    [HeaderRow()] + DataRows(data)
  }

  /** The header row first, then exactly one row per record, in input
      order; no records gives a header-only table. */
  lemma ExportLayout(data: seq<Record>)
    ensures |ExportTable(data)| == |data| + 1
    ensures ExportTable(data)[0] == HeaderRow()
    ensures forall i :: 0 <= i < |data| ==> ExportTable(data)[i + 1] == DataRow(i, data[i])
    ensures data == [] ==> ExportTable(data) == [HeaderRow()]
  {
    var t := ExportTable(data);
    assert t[0] == HeaderRow();
    assert forall i :: 0 <= i < |data| ==> t[i + 1] == DataRow(i, data[i]);
    if data == [] {
      assert DataRows(data) == [];
    }
  }

  /** The header row is 30 points high and holds one Header-styled String
      cell per column title, each decoding to its title. */
  lemma HeaderRowCells()
    ensures HeaderRow().height == Some(HeaderHeight)
    ensures |HeaderRow().cells| == ColumnCount
    ensures forall j :: 0 <= j < ColumnCount ==>
              && HeaderRow().cells[j].style == HeaderStyle
              && HeaderRow().cells[j].dataType == StringType
              && UnescapeXml(HeaderRow().cells[j].text) == Headers[j]
  {
    forall j | 0 <= j < ColumnCount ensures UnescapeXml(HeaderRow().cells[j].text) == Headers[j] {
      UnescapeEscape(Headers[j]);
    }
  }

  /** The row of the record at position `index` has no height and eleven
      cells: the serial number first, the rank cell sixth, all Data-styled
      except the Link-styled last one. */
  lemma DataRowShape(index: nat, r: Record)
    ensures DataRow(index, r).height == None
    ensures |DataRow(index, r).cells| == ColumnCount
    ensures DataRow(index, r).cells[0] == SerialCell(index)
    ensures DataRow(index, r).cells[5] == RankCell(r)
    ensures DataRow(index, r).cells[10].style == LinkStyle
    ensures forall j :: 0 <= j < ColumnCount && j != 10 ==> DataRow(index, r).cells[j].style == DataStyle
  {
    DataRowStyles(index, r);
  }

  /** Every cell of a data row but the last is Data-styled. */
  lemma DataRowStyles(index: nat, r: Record)
    ensures forall j :: 0 <= j < ColumnCount && j != 10 ==> DataRow(index, r).cells[j].style == DataStyle
  {
    var c := DataRow(index, r).cells;
    forall j | 0 <= j < ColumnCount && j != 10 ensures c[j].style == DataStyle {
      assert j == 0 || j == 1 || j == 2 || j == 3 || j == 4 || j == 5 || j == 6 || j == 7 || j == 8 || j == 9;
    }
  }

  /** The first cell of a row is the 1-based serial number. */
  lemma SerialCellValue(index: nat)
    ensures SerialCell(index).dataType == NumberType
    ensures ParseNat(SerialCell(index).text) == Some(index + 1)
  {
    ParseNatToString(index + 1);
  }

  /** The rank cell is a Number holding the rank when the record is ranked,
      and the String "Not Ranked" otherwise. */
  lemma RankCellValue(r: Record)
    ensures IsRanked(r) <==> RankCell(r).dataType == NumberType
    ensures IsRanked(r) ==> ParseNat(RankCell(r).text) == Some(r.globalRank.value)
    ensures !IsRanked(r) ==> RankCell(r).dataType == StringType && RankCell(r).text == NotRanked
  {
    if IsRanked(r) {
      ParseNatToString(r.globalRank.value);
    }
  }

  /** Decoding the entities of a text cell gives back the record's field, so
      the export neither truncates nor alters any field. */
  lemma DataRowReadBack(index: nat, r: Record)
    ensures var c := DataRow(index, r).cells;
      && UnescapeXml(c[1].text) == r.name
      && UnescapeXml(c[2].text) == r.country
      && UnescapeXml(c[3].text) == r.location
      && UnescapeXml(c[4].text) == r.programs
      && UnescapeXml(c[6].text) == r.about
      && UnescapeXml(c[7].text) == r.qualification
      && UnescapeXml(c[8].text) == r.feeStructure
      && UnescapeXml(c[9].text) == r.academicSession
      && UnescapeXml(c[10].text) == r.link
  {
    UnescapeEscape(r.name);
    UnescapeEscape(r.country);
    UnescapeEscape(r.location);
    UnescapeEscape(r.programs);
    UnescapeEscape(r.about);
    UnescapeEscape(r.qualification);
    UnescapeEscape(r.feeStructure);
    UnescapeEscape(r.academicSession);
    UnescapeEscape(r.link);
  }

  lemma DigitsEscaped(s: string)
    requires forall i :: 0 <= i < |s| ==> IsDigit(s[i])
    ensures IsEscaped(s)
  {
  }

  lemma NotRankedEscaped()
    ensures IsEscaped(NotRanked)
  {
    var s := NotRanked;
    assert s == ['N'] + ['o'] + ['t'] + [' '] + ['R'] + ['a'] + ['n'] + ['k'] + ['e'] + ['d'];
    assert forall i :: 0 <= i < |s| ==> !IsReserved(s[i]);
  }

  /** Every cell of a row is safe to place between XML tags. */
  ghost predicate RowEscaped(row: Row) {
    forall c :: c in row.cells ==> IsEscaped(c.text)
  }

  lemma RankCellEscaped(r: Record)
    ensures IsEscaped(RankCell(r).text)
  {
    if IsRanked(r) {
      DigitsEscaped(RankCell(r).text);
    } else {
      NotRankedEscaped();
    }
  }

  lemma DataRowEscaped(index: nat, r: Record)
    ensures RowEscaped(DataRow(index, r))
  {
    DigitsEscaped(SerialCell(index).text);
    RankCellEscaped(r);
    EscapeXmlIsEscaped(r.name);
    EscapeXmlIsEscaped(r.country);
    EscapeXmlIsEscaped(r.location);
    EscapeXmlIsEscaped(r.programs);
    EscapeXmlIsEscaped(r.about);
    EscapeXmlIsEscaped(r.qualification);
    EscapeXmlIsEscaped(r.feeStructure);
    EscapeXmlIsEscaped(r.academicSession);
    EscapeXmlIsEscaped(r.link);
  }

  /** No cell of the table can break the markup around it. */
  lemma HeaderRowEscaped()
    ensures RowEscaped(HeaderRow())
  {
    forall c | c in HeaderRow().cells ensures IsEscaped(c.text) {
      var j :| 0 <= j < |HeaderRow().cells| && HeaderRow().cells[j] == c;
      EscapeXmlIsEscaped(Headers[j]);
    }
  }

  lemma TableEscaped(data: seq<Record>)
    ensures forall k :: 0 <= k < |ExportTable(data)| ==> RowEscaped(ExportTable(data)[k])
  {
    var t := ExportTable(data);
    ExportLayout(data);
    HeaderRowEscaped();
    forall k | 0 <= k < |t| ensures RowEscaped(t[k]) {
      if k > 0 {
        assert t[k] == DataRow(k - 1, data[k - 1]);
        DataRowEscaped(k - 1, data[k - 1]);
      }
    }
  }


  // ---------------------------------------------------------------------------
  // The document text

  /** The strings of `s` mapped by `f` and joined, built by appending as the
      `forEach` loops of `downloadExcel` do. */
  function ConcatMap<T>(f: T -> string, s: seq<T>): string {
    if s == [] then "" else ConcatMap(f, s[..|s| - 1]) + f(s[|s| - 1])
  }

  lemma {:induction false} ConcatMapConcat<T>(f: T -> string, a: seq<T>, b: seq<T>)
    ensures ConcatMap(f, a + b) == ConcatMap(f, a) + ConcatMap(f, b)
    decreases |b|
  {
    if b == [] {
      assert a + b == a;
    } else {
      var init := b[..|b| - 1];
      var last := b[|b| - 1];
      ConcatMapConcat(f, a, init);
      assert (a + b)[..|a + b| - 1] == a + init;
      assert (a + b)[|a + b| - 1] == last;
      assert ConcatMap(f, a + b) == ConcatMap(f, a + init) + f(last);
      assert ConcatMap(f, b) == ConcatMap(f, init) + f(last);
    }
  }

  lemma ConcatMapSingle<T>(f: T -> string, x: T)
    ensures ConcatMap(f, [x]) == f(x)
  {
    assert [x][..0] == [];
  }

  lemma ConcatMapSnoc<T>(f: T -> string, s: seq<T>, x: T)
    ensures ConcatMap(f, s + [x]) == ConcatMap(f, s) + f(x)
  {
    assert (s + [x])[..|s|] == s;
  }

  function StyleName(s: Style): string {
    match s
    case HeaderStyle => "Header"
    case DataStyle => "Data"
    case LinkStyle => "Link"
  }

  function TypeName(t: DataType): string {
    match t
    case NumberType => "Number"
    case StringType => "String"
  }

  function ColumnXml(width: nat): string {
    "            <Column ss:Width=\"" + NatToString(width) + "\"/>\n"
  }

  function CellXml(c: Cell): string {
    "                <Cell ss:StyleID=\"" + StyleName(c.style) + "\"><Data ss:Type=\""
      + TypeName(c.dataType) + "\">" + c.text + "</Data></Cell>\n"
  }

  function RowOpenXml(height: Option<nat>): string {
    match height
    case Some(h) => "            <Row ss:Height=\"" + NatToString(h) + "\">\n"
    case None => "            <Row>\n"
  }

  const RowCloseXml: string := "            </Row>\n"

  function RowXml(r: Row): string {
    RowOpenXml(r.height) + ConcatMap(CellXml, r.cells) + RowCloseXml
  }

  /** The fixed start of the document: the XML declaration, the workbook
      element with its namespaces, the Header, Data and Link styles, and the
      opening of the worksheet's table. */
  const Prologue: string := @"<?xml version=""1.0"" encoding=""UTF-8""?>
<?mso-application progid=""Excel.Sheet""?>
<Workbook xmlns=""urn:schemas-microsoft-com:office:spreadsheet""
    xmlns:o=""urn:schemas-microsoft-com:office:office""
    xmlns:x=""urn:schemas-microsoft-com:office:excel""
    xmlns:ss=""urn:schemas-microsoft-com:office:spreadsheet"">
    <Styles>
        <Style ss:ID=""Header"">
            <Font ss:Bold=""1"" ss:Color=""#FFFFFF""/>
            <Interior ss:Color=""#4472C4"" ss:Pattern=""Solid""/>
            <Alignment ss:Horizontal=""Center"" ss:Vertical=""Center"" ss:WrapText=""1""/>
        </Style>
        <Style ss:ID=""Data"">
            <Alignment ss:Vertical=""Top"" ss:WrapText=""1""/>
        </Style>
        <Style ss:ID=""Link"">
            <Font ss:Color=""#0563C1"" ss:Underline=""Single""/>
        </Style>
    </Styles>
    <Worksheet ss:Name=""Universities Database"">
        <Table>
"

  const Epilogue: string := "        </Table>\n    </Worksheet>\n</Workbook>"

  /** The document `downloadExcel` writes for `data`. */
  function Workbook(data: seq<Record>): string {
    Prologue + ConcatMap(ColumnXml, ColumnWidths) + ConcatMap(RowXml, ExportTable(data)) + Epilogue
  }

  /** The document is the prologue, the column widths, the header row, one
      row per record and the closing tags, in this order. */
  lemma WorkbookParts(data: seq<Record>)
    ensures Workbook(data)
         == Prologue + ConcatMap(ColumnXml, ColumnWidths) + RowXml(HeaderRow())
            + ConcatMap(RowXml, DataRows(data)) + Epilogue
  {
    ConcatMapCons(RowXml, Prologue + ConcatMap(ColumnXml, ColumnWidths), Epilogue, HeaderRow(), DataRows(data));
  }

  /** Mapping over `[x] + s` gives `f(x)` and then the rest, whatever text
      surrounds it. */
  lemma ConcatMapCons<T>(f: T -> string, before: string, after: string, x: T, s: seq<T>)
    ensures before + ConcatMap(f, [x] + s) + after == before + f(x) + ConcatMap(f, s) + after
  {
    ConcatMapSingle(f, x);
    ConcatMapConcat(f, [x], s);
  }

  /** `s.forEach(x => content += f(x))`. */
  method AppendEach<T>(content: string, f: T -> string, s: seq<T>) returns (out: string)
    ensures out == content + ConcatMap(f, s)
  {
    out := content;
    var j := 0;
    while j < |s|
      invariant 0 <= j <= |s|
      invariant out == content + ConcatMap(f, s[..j])
    {
      ConcatMapSnoc(f, s[..j], s[j]);
      assert s[..j + 1] == s[..j] + [s[j]];
      out := out + f(s[j]);
      j := j + 1;
    }
    assert s[..j] == s;
  }

  /** Appends one row: its opening tag, its cells and its closing tag. */
  method AppendRow(content: string, row: Row) returns (out: string)
    ensures out == content + RowXml(row)
  {
    out := content + RowOpenXml(row.height);
    out := AppendEach(out, CellXml, row.cells);
    out := out + RowCloseXml;
  }

  /** `downloadExcel` without the browser download: the document text and the
      file name with its first ".csv" replaced by ".xls". */
  method DownloadExcel(data: seq<Record>, filename: string) returns (content: string, excelFilename: string)
    ensures content == Workbook(data)
    ensures excelFilename == ReplaceFirst(filename, ".csv", ".xls")
  {
    content := AppendEach(Prologue, ColumnXml, ColumnWidths);
    content := AppendRow(content, HeaderRow());
    content := AppendEach(content, RowXml, DataRows(data));
    WorkbookParts(data);
    content := content + Epilogue;
    excelFilename := ReplaceFirst(filename, ".csv", ".xls");
  }
  // ---------------------------------------------------------------------------
  // The download filter and the download button

  /** The region, country and stream predicates of `applyFilters`, without
      the search text. */
  predicate MatchesDownloadFilters(mapping: map<string, seq<string>>, region: string, country: string, stream: string, r: Record) {
    && QueryEngine.MatchesRegion(mapping, region, r)
    && QueryEngine.MatchesCountry(country, r)
    && QueryEngine.MatchesStream(stream, r)
  }

  /** What `updateDownloadPreview` leaves in `downloadFilteredData`. */
  function DownloadSelection(dataset: seq<Record>, mapping: map<string, seq<string>>, region: string, country: string, stream: string): seq<Record> {
    Seqs.Filter((r: Record) => MatchesDownloadFilters(mapping, region, country, stream, r), dataset)
  }

  /** The download filter is the directory filter with an empty search box,
      so it selects in dataset order exactly the records passing the three
      predicates; an unknown region selects nothing. */
  lemma DownloadSelectionSpec(dataset: seq<Record>, mapping: map<string, seq<string>>, region: string, country: string, stream: string)
    ensures DownloadSelection(dataset, mapping, region, country, stream)
         == QueryEngine.FilterRecords(mapping, QueryEngine.Query("", region, country, stream), dataset)
    ensures forall x :: x in DownloadSelection(dataset, mapping, region, country, stream)
                    <==> x in dataset && MatchesDownloadFilters(mapping, region, country, stream, x)
    ensures region != [] && region !in mapping ==> DownloadSelection(dataset, mapping, region, country, stream) == []
  {
    var q := QueryEngine.Query("", region, country, stream);
    forall x | x in dataset
      ensures MatchesDownloadFilters(mapping, region, country, stream, x) == QueryEngine.Matches(mapping, q, x)
    {
      QueryEngine.BlankSearchMatchesAll("", x);
    }
    Seqs.FilterCongruent((r: Record) => MatchesDownloadFilters(mapping, region, country, stream, r),
                         (r: Record) => QueryEngine.Matches(mapping, q, r), dataset);
    Seqs.FilterEmpty((r: Record) => MatchesDownloadFilters(mapping, region, country, stream, r), dataset);
  }

  /** With every filter cleared the whole dataset is selected. */
  lemma ClearedFiltersSelectAll(dataset: seq<Record>, mapping: map<string, seq<string>>)
    ensures DownloadSelection(dataset, mapping, "", "", "") == dataset
  {
    Seqs.FilterKeepsAll((r: Record) => MatchesDownloadFilters(mapping, "", "", "", r), dataset);
  }

  const FullDatabaseFileName: string := "Global_Universities_Database.xls"

  const FilteredFileName: string := "Filtered_Universities.xls"

  /** The file name chosen from the number of selected records. */
  function DownloadFileName(count: nat, total: nat): (name: string)
    ensures name == FullDatabaseFileName <==> count == total
    ensures name == FilteredFileName <==> count != total
  {
    if count == total then FullDatabaseFileName else FilteredFileName
  }

  /** Neither name holds ".csv", so the extension replace keeps it. */
  lemma CsvReplaceKeepsName(count: nat, total: nat)
    ensures ReplaceFirst(DownloadFileName(count, total), ".csv", ".xls") == DownloadFileName(count, total)
  {
    var name := DownloadFileName(count, total);
    assert 'c' in ".csv";
    assert 'c' !in name;
    IncludesNeedsChars(name, ".csv", 'c');
    ReplaceFirstAbsent(name, ".csv", ".xls");
  }

  /** The full-database name is chosen exactly when the selection is the
      whole dataset. */
  lemma FullNameMeansWholeDataset(dataset: seq<Record>, mapping: map<string, seq<string>>, region: string, country: string, stream: string)
    ensures var selection := DownloadSelection(dataset, mapping, region, country, stream);
      DownloadFileName(|selection|, |dataset|) == FullDatabaseFileName <==> selection == dataset
  {
    Seqs.FilterKeepsAll((r: Record) => MatchesDownloadFilters(mapping, region, country, stream, r), dataset);
  }

  datatype DownloadOutcome = NothingToExport | Exported(fileName: string, document: string)

  /** The export side of the page: the dataset, the region mapping and the
      current download selection `downloadFilteredData`. */
  class DownloadPanel {
    const dataset: seq<Record>
    const regionMapping: map<string, seq<string>>
    var downloadFilteredData: seq<Record>

    /** At page load the selection is a copy of the whole dataset. */
    constructor (dataset: seq<Record>, regionMapping: map<string, seq<string>>)
      ensures this.dataset == dataset && this.regionMapping == regionMapping
      ensures downloadFilteredData == dataset
    {
      this.dataset := dataset;
      this.regionMapping := regionMapping;
      downloadFilteredData := dataset;
    }

    /** `updateDownloadPreview`: recompute the selection from the dataset. */
    method UpdateDownloadPreview(region: string, country: string, stream: string)
      modifies this`downloadFilteredData
      ensures downloadFilteredData == DownloadSelection(dataset, regionMapping, region, country, stream)
    {
      downloadFilteredData := DownloadSelection(dataset, regionMapping, region, country, stream);
    }

    /** The download button: nothing is exported for an empty selection;
        otherwise the selection is written under the name its size calls for. */
    method Download() returns (outcome: DownloadOutcome)
      ensures outcome == NothingToExport <==> |downloadFilteredData| == 0
      ensures outcome.Exported? ==>
                && outcome.fileName == DownloadFileName(|downloadFilteredData|, |dataset|)
                && outcome.document == Workbook(downloadFilteredData)
    {
      if |downloadFilteredData| == 0 {
        return NothingToExport;
      }
      var filename := DownloadFileName(|downloadFilteredData|, |dataset|);
      var content, excelFilename := DownloadExcel(downloadFilteredData, filename);
      CsvReplaceKeepsName(|downloadFilteredData|, |dataset|);
      outcome := Exported(excelFilename, content);
    }
  }
}
