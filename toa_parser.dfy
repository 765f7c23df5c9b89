/**
 * The Treasury (TOA) operations parser of frbny_parser.py: the release-date
 * cascade and its stamping, the CSV row builder, the PDF table walker and
 * its text fallback, and the output clean-up.
 *
 * A PDF table is a list of rows of cells, each cell a string or `None`, as
 * pdfplumber hands them over; a CSV row is a list of cells aligned with the
 * column names, `None` standing for a missing value. Today's date and the
 * dates the online strategies found (if any) are parameters.
 */
module TreasuryParser {
  import opened Maybe
  import opened Text
  import opened Patterns
  import opened Dates
  import opened Records
  import opened AmountParser

  // ---------------------------------------------------------------------------
  // Release date (calculate_dataset_release_date, apply_release_date_to_operations)

  /** An online candidate is used when there is one and its release string
      passes `_is_reasonable_release_date`. Every online strategy produces
      `str(int(strftime('%Y%m%d')))` of a date it parsed. */
  predicate Accepted(c: Option<Date>, today: Date) {
    c.Some? && ValidDate(c.value) && ReasonableReleaseDate(ReleaseString(c.value), today)
  }

  /** The two fields the offline fallback reads, in the order it reads them. */
  const DateFields: seq<string> := [OperationDate, SettlementDate]

  /** The date a non-empty `%m/%d/%Y` field parses to; a field that does not
      parse is skipped. */
  function ParsedField(op: Record, key: string): (r: seq<Date>)
    ensures |r| <= 1
    ensures forall d :: d in r ==> ValidDate(d)
  {
    var s := GetStr(op, key);
    if s != "" && ParseSlashDate(s).Some? then [ParseSlashDate(s).value] else []
  }

  /** The dates of the fields `keys` of one operation, in order. */
  function DatesIn(op: Record, keys: seq<string>): (r: seq<Date>)
    ensures forall d :: d in r ==> ValidDate(d)
  {
    if |keys| == 0 then [] else DatesIn(op, keys[..|keys| - 1]) + ParsedField(op, keys[|keys| - 1])
  }

  /** Every date the offline fallback sees, operation by operation. */
  function FieldDates(ops: seq<Record>): (r: seq<Date>)
    ensures forall d :: d in r ==> ValidDate(d)
  {
    if |ops| == 0 then [] else FieldDates(ops[..|ops| - 1]) + DatesIn(ops[|ops| - 1], DateFields)
  }

  /** One step of the maximum: `if max_date is None or date_obj > max_date`. */
  function Later(m: Option<Date>, d: Date): Option<Date> {
    if m.None? || Before(m.value, d) then Some(d) else m
  }

  /** The maximum the loop ends with. */
  function Latest(ds: seq<Date>): (r: Option<Date>)
    ensures r.None? <==> |ds| == 0
    ensures r.Some? ==> r.value in ds
  {
    if |ds| == 0 then None
    else
      var r := Later(Latest(ds[..|ds| - 1]), ds[|ds| - 1]);
      assert r.Some? && r.value != ds[|ds| - 1] ==> r.value in ds[..|ds| - 1];
      r
  }

  /** The release date `calculate_dataset_release_date` returns: the first
      accepted online candidate, else the latest operation or settlement
      date, else today. */
  function ReleaseCascade(web: Option<Date>, soup: Option<Date>, browser: Option<Date>,
                          ops: seq<Record>, today: Date): (r: string)
    requires ValidDate(today)
    ensures |r| >= 1 && AllDigits(r)
  {
    if Accepted(web, today) then ReleaseString(web.value)
    else if Accepted(soup, today) then ReleaseString(soup.value)
    else if Accepted(browser, today) then ReleaseString(browser.value)
    else match Latest(FieldDates(ops))
      case Some(d) => ReleaseString(d)
      case None => ReleaseString(today)
  }

  /** The body of the inner loop: one field's date, if it parses, replaces
      a maximum it is later than. */
  method LatestWithField(op: Record, key: string, m0: Option<Date>, ghost ds: seq<Date>) returns (m: Option<Date>)
    requires m0 == Latest(ds)
    ensures m == Latest(ds + ParsedField(op, key))
  {
    m := m0;
    LatestAppend(ds, ParsedField(op, key));
    var s := GetStr(op, key);
    if s != "" {
      var parsed := ParseSlashDate(s);
      if parsed.Some? {
        var d := parsed.value;
        if m.None? || Before(m.value, d) {
          m := Some(d);
        }
      }
    }
  }

  /** The inner loop of lines 421-430: both date fields of one operation. */
  method LatestWithFields(op: Record, m0: Option<Date>, ghost ds: seq<Date>) returns (m: Option<Date>)
    requires m0 == Latest(ds)
    ensures m == Latest(ds + DatesIn(op, DateFields))
  {
    m := m0;
    assert ds + DatesIn(op, DateFields[..0]) == ds;
    for j := 0 to |DateFields|
      invariant m == Latest(ds + DatesIn(op, DateFields[..j]))
    {
      ghost var before := ds + DatesIn(op, DateFields[..j]);
      DatesAfter(ds, op, DateFields, j);
      m := LatestWithField(op, DateFields[j], m, before);
    }
    assert DateFields[..|DateFields|] == DateFields;
  }

  /** The loop of lines 420-431 over every operation and both date fields. */
  method LatestOperationDate(ops: seq<Record>) returns (m: Option<Date>)
    ensures m == Latest(FieldDates(ops))
  {
    m := None;
    for i := 0 to |ops|
      invariant m == Latest(FieldDates(ops[..i]))
    {
      assert ops[..i + 1][..i] == ops[..i];
      m := LatestWithFields(ops[i], m, FieldDates(ops[..i]));
    }
    assert ops[..|ops|] == ops;
  }

  /** `calculate_dataset_release_date` */
  method CalculateReleaseDate(web: Option<Date>, soup: Option<Date>, browser: Option<Date>,
                              ops: seq<Record>, today: Date) returns (r: string)
    requires ValidDate(today)
    ensures r == ReleaseCascade(web, soup, browser, ops, today)
  {
    if Accepted(web, today) {
      return ReleaseString(web.value);
    }
    if Accepted(soup, today) {
      return ReleaseString(soup.value);
    }
    if Accepted(browser, today) {
      return ReleaseString(browser.value);
    }
    var m := LatestOperationDate(ops);
    if m.Some? {
      r := ReleaseString(m.value);
    } else {
      r := ReleaseString(today);
    }
  }

  /** `apply_release_date_to_operations`: an empty list comes back as it
      is; otherwise every operation gets the same `release_date`, the
      integer value of the calculated release string, and nothing else
      changes. */
  method ApplyReleaseDate(ops: seq<Record>, web: Option<Date>, soup: Option<Date>,
                          browser: Option<Date>, today: Date) returns (r: seq<Record>)
    requires ValidDate(today)
    ensures |ops| == 0 ==> r == ops
    ensures |r| == |ops|
    ensures |ops| > 0 ==> forall i :: 0 <= i < |r| ==>
      r[i] == ops[i][ReleaseDate := Int(DigitsValue(ReleaseCascade(web, soup, browser, ops, today)))]
  {
    if |ops| == 0 {
      return ops;
    }
    var release := CalculateReleaseDate(web, soup, browser, ops, today);
    var value := Int(DigitsValue(release));
    r := ops;
    for i := 0 to |r|
      invariant |r| == |ops|
      invariant forall k :: 0 <= k < i ==> r[k] == ops[k][ReleaseDate := value]
      invariant forall k :: i <= k < |r| ==> r[k] == ops[k]
    {
      r := r[i := r[i][ReleaseDate := value]];
    }
  }

  // ---------------------------------------------------------------------------
  // CSV rows (process_csv_data)

  /** A cell of a data frame: its text, or `None` for a missing value. */
  type Cell = Option<string>

  type Row = seq<Cell>

  const SizeColumn := "Maximum Operation Size"

  /** The columns the CSV is expected to hold, in the order they are tried. */
  const ExpectedColumns: seq<string> := [
    "Operation Date", "Operation Time (ET)", "Settlement Date",
    "Operation Type", "Security Type and Maturity", "Maturity Range", SizeColumn
  ]

  /** `.lower().replace(' ', '')` */
  function Squeezed(s: string): string {
    RemoveChar(LowerStr(s), ' ')
  }

  /** `.replace('(', '').replace(')', '')` */
  function NoParens(s: string): string {
    RemoveChar(RemoveChar(s, '('), ')')
  }

  /** A column matches an expected name exactly (ignoring case and spaces)
      or contains it (ignoring parentheses as well). */
  predicate ColumnMatches(col: string, expected: string) {
    var c := Strip(col);
    Squeezed(c) == Squeezed(expected) || Contains(NoParens(Squeezed(c)), NoParens(Squeezed(expected)))
  }

  /** The first of the `expected` names from index `k` on that `col`
      matches under `matches`. */
  function MapColumnFrom(col: string, expected: seq<string>, k: nat, matches: (string, string) -> bool): Option<string>
    decreases |expected| - k
  {
    if k >= |expected| then None
    else if matches(col, expected[k]) then Some(expected[k])
    else MapColumnFrom(col, expected, k + 1, matches)
  }

  /** The mapping takes the first name, in the listed order, that the
      column matches, and none when it matches none of them. */
  lemma {:induction false} MapColumnFirstMatch(col: string, expected: seq<string>, k: nat, matches: (string, string) -> bool)
    ensures MapColumnFrom(col, expected, k, matches).Some? ==>
      exists j :: (k <= j < |expected| && MapColumnFrom(col, expected, k, matches).value == expected[j]
                   && matches(col, expected[j])
                   && forall i :: k <= i < j ==> !matches(col, expected[i]))
    ensures MapColumnFrom(col, expected, k, matches).None? ==>
      forall i :: k <= i < |expected| ==> !matches(col, expected[i])
    decreases |expected| - k
  {
    if k < |expected| && !matches(col, expected[k]) {
      MapColumnFirstMatch(col, expected, k + 1, matches);
    }
  }

  /** `column_mapping[col]`, absent when no expected column matches. */
  function MapColumn(col: string): Option<string> {
    MapColumnFrom(col, ExpectedColumns, 0, ColumnMatches)
  }

  /** `column_mapping`, one entry per CSV column. */
  function ColumnMap(columns: seq<string>): seq<Option<string>> {
    seq(|columns|, j requires 0 <= j < |columns| => MapColumn(columns[j]))
  }

  /** `str(row[csv_col]).strip() if pd.notna(row[csv_col]) else ''` */
  function CellValue(c: Cell): string {
    if c.Some? then Strip(c.value) else ""
  }

  /** One mapped column written into the operation: the size column through
      `parse_maximum_operation_size`, any other under its upper-cased name. */
  function ApplyColumn(op: Record, mapped: Option<string>, value: string): (r: Record)
    ensures forall k :: k in op ==> k in r
  {
    match mapped
    case None => op
    case Some(e) =>
      if e == SizeColumn then
        var p := ParseMaximumOperationSize(value);
        op[MaximumOperationCurrency := Str(p.currency)][MaximumOperationSize := p.size]
          [MaximumOperationMultiplier := Str(p.multiplier)]
      else
        var key := UpperStr(e);
        if key in op then op[key := Str(value)] else op
  }

  /** The operation built from the first `j` cells of a row, each written
      under the column it maps to. */
  function CsvOperationUpTo(mapping: seq<Option<string>>, row: Row, j: nat): (r: Record)
    requires j <= |mapping| && |row| == |mapping|
    ensures forall k :: k in BlankOperation() ==> k in r
  {
    if j == 0 then BlankOperation()
    else ApplyColumn(CsvOperationUpTo(mapping, row, j - 1), mapping[j - 1], CellValue(row[j - 1]))
  }

  function CsvOperation(mapping: seq<Option<string>>, row: Row): Record
    requires |row| == |mapping|
  {
    CsvOperationUpTo(mapping, row, |mapping|)
  }

  /** `operation['OPERATION DATE'] and operation['OPERATION TYPE']` */
  predicate HasEssentials(op: Record) {
    Truthy(Get(op, OperationDate)) && Truthy(Get(op, OperationType))
  }

  /** The operations `process_csv_data` keeps, in row order. */
  function KeptCsvOperations(mapping: seq<Option<string>>, rows: seq<Row>): (r: seq<Record>)
    requires forall i :: 0 <= i < |rows| ==> |rows[i]| == |mapping|
    ensures |r| <= |rows|
    ensures forall op :: op in r ==> HasEssentials(op)
  {
    if |rows| == 0 then []
    else
      var last := CsvOperation(mapping, rows[|rows| - 1]);
      KeptCsvOperations(mapping, rows[..|rows| - 1]) + (if HasEssentials(last) then [last] else [])
  }

  /** The inner loop of the column mapping: the expected names in order,
      stopping at the first that matches. */
  method MatchColumn(col: string, expected: seq<string>, matches: (string, string) -> bool) returns (found: Option<string>)
    ensures found == MapColumnFrom(col, expected, 0, matches)
  {
    found := None;
    var k := 0;
    while k < |expected|
      invariant 0 <= k <= |expected|
      invariant MapColumnFrom(col, expected, k, matches) == MapColumnFrom(col, expected, 0, matches)
    {
      if matches(col, expected[k]) {
        found := Some(expected[k]);
        return;
      }
      k := k + 1;
    }
  }

  /** The column mapping loop: one entry per column. */
  method ColumnMapping(columns: seq<string>, expected: seq<string>, matches: (string, string) -> bool)
    returns (mapping: seq<Option<string>>)
    ensures |mapping| == |columns|
    ensures forall j :: 0 <= j < |columns| ==> mapping[j] == MapColumnFrom(columns[j], expected, 0, matches)
  {
    mapping := [];
    for j := 0 to |columns|
      invariant |mapping| == j
      invariant forall i :: 0 <= i < j ==> mapping[i] == MapColumnFrom(columns[i], expected, 0, matches)
    {
      var found := MatchColumn(columns[j], expected, matches);
      mapping := mapping + [found];
    }
  }

  /** `process_csv_data`: the column mapping, then one operation per row,
      kept when it has a date and a type. */
  method ProcessCsvData(columns: seq<string>, rows: seq<Row>) returns (ops: seq<Record>)
    requires forall i :: 0 <= i < |rows| ==> |rows[i]| == |columns|
    ensures ops == KeptCsvOperations(ColumnMap(columns), rows)
  {
    var mapping := ColumnMapping(columns, ExpectedColumns, ColumnMatches);
    assert mapping == ColumnMap(columns);
    ops := KeepCsvOperations(mapping, rows);
  }

  /** The row loop of `process_csv_data`. */
  method KeepCsvOperations(mapping: seq<Option<string>>, rows: seq<Row>) returns (ops: seq<Record>)
    requires forall i :: 0 <= i < |rows| ==> |rows[i]| == |mapping|
    ensures ops == KeptCsvOperations(mapping, rows)
  {
    ops := [];
    for i := 0 to |rows|
      invariant ops == KeptCsvOperations(mapping, rows[..i])
    {
      assert rows[..i + 1][..i] == rows[..i];
      var op := RowOperation(mapping, rows[i]);
      if Truthy(Get(op, OperationDate)) && Truthy(Get(op, OperationType)) {
        ops := ops + [op];
      }
    }
    assert rows[..|rows|] == rows;
  }

  /** The inner loop of `process_csv_data`: the operation one row fills. */
  method RowOperation(mapping: seq<Option<string>>, row: Row) returns (op: Record)
    requires |row| == |mapping|
    ensures op == CsvOperation(mapping, row)
  {
    op := BlankOperation();
    for j := 0 to |mapping|
      invariant op == CsvOperationUpTo(mapping, row, j)
    {
      CsvOperationStep(mapping, row, j);
      op := ApplyColumn(op, mapping[j], CellValue(row[j]));
    }
  }

  lemma CsvOperationStep(mapping: seq<Option<string>>, row: Row, j: nat)
    requires j < |mapping| && |row| == |mapping|
    ensures CsvOperationUpTo(mapping, row, j + 1) == ApplyColumn(CsvOperationUpTo(mapping, row, j), mapping[j], CellValue(row[j]))
  {
  }

  // ---------------------------------------------------------------------------
  // PDF tables (parse_pdf_table and its helpers)

  type Table = seq<Row>

  /** `if cell`: present and not empty. */
  predicate Filled(c: Cell) {
    c.Some? && c.value != ""
  }

  /** `str(cell).strip() if cell else ''` */
  function CellText(c: Cell): string {
    if Filled(c) then Strip(c.value) else ""
  }

  /** `is_empty_row`: every cell is missing or blank. */
  predicate IsEmptyRow(row: Row) {
    forall i :: 0 <= i < |row| ==> !Filled(row[i]) || Strip(row[i].value) == ""
  }

  /** The texts of a row's filled cells, unstripped. */
  function FilledTexts(row: Row): (r: seq<string>)
    ensures |r| <= |row|
  {
    if |row| == 0 then []
    else FilledTexts(row[..|row| - 1]) + (if Filled(row[|row| - 1]) then [row[|row| - 1].value] else [])
  }

  /** `' '.join(str(cell) for cell in row if cell).upper()` */
  function RowText(row: Row): string {
    UpperStr(Join(FilledTexts(row), " "))
  }

  const HeaderWords: seq<string> := [
    "OPERATION DATE", "OPERATION TIME", "SETTLEMENT DATE",
    "OPERATION TYPE", "SECURITY TYPE", "MATURITY RANGE", "MAXIMUM"
  ]

  predicate IsHeaderRow(row: Row) {
    exists h :: h in HeaderWords && Contains(RowText(row), h)
  }

  /** A row where data starts: not empty, no header word, and a date in it. */
  predicate IsDataRow(row: Row) {
    |row| > 0 && !IsHeaderRow(row) && SearchDate(RowText(row)).Some?
  }

  /** The first data row at or after `i`. */
  function FirstDataRow(table: Table, i: nat): (r: Option<nat>)
    ensures r.Some? ==> i <= r.value < |table| && IsDataRow(table[r.value])
    ensures r.Some? ==> forall k :: i <= k < r.value ==> !IsDataRow(table[k])
    ensures r.None? ==> forall k :: i <= k < |table| ==> !IsDataRow(table[k])
    decreases |table| - i
  {
    if i >= |table| then None
    else if IsDataRow(table[i]) then Some(i)
    else FirstDataRow(table, i + 1)
  }

  /** `find_pdf_data_start`: the first non-header row holding a date, or 0. */
  function FindPdfDataStart(table: Table): (r: nat)
    ensures r == 0 || r < |table|
    ensures (exists k :: 0 <= k < |table| && IsDataRow(table[k])) ==>
      IsDataRow(table[r]) && forall k :: 0 <= k < r ==> !IsDataRow(table[k])
    ensures (forall k :: 0 <= k < |table| ==> !IsDataRow(table[k])) ==> r == 0
  {
    match FirstDataRow(table, 0)
    case Some(k) => k
    case None => 0
  }

  /** The keys `parse_pdf_columns` writes. */
  const ColumnKeys: set<string> := {
    OperationDate, OperationTime, SettlementDate, OperationType, SecurityTypeAndMaturity, MaturityRange
  }

  /** A cell holding a `\d{1,2}/\d{1,2}/\d{4}` date. */
  predicate HasDate(c: Cell) {
    Filled(c) && SearchDate(c.value).Some?
  }

  /** The time column of both rows: `' '.join(time_parts)`. */
  function TimeParts(row1: Row, row2: Row): seq<string>
    requires |row1| >= 2
  {
    (if Filled(row1[1]) then [Strip(row1[1].value)] else [])
    + (if |row2| > 1 && Filled(row2[1]) then [Strip(row2[1].value)] else [])
  }

  /** The stripped text of cell `j` of a row, when it is filled. */
  function TextCell(row: Row, j: nat): Option<string> {
    if j < |row| && Filled(row[j]) then Some(CellText(row[j])) else None
  }

  /** The stripped text of cell `j`, when it holds a date. */
  function DateCell(row: Row, j: nat): Option<string> {
    if j < |row| && HasDate(row[j]) then Some(CellText(row[j])) else None
  }

  /** The time column of both rows: `' '.join(time_parts)` when there are parts. */
  function TimeCell(row1: Row, row2: Row): Option<string>
    requires |row1| >= 2
  {
    var parts := TimeParts(row1, row2);
    if |parts| > 0 then Some(Join(parts, " ")) else None
  }

  /** `operation[key] = text` for a found text. */
  function PutSome(op: Record, key: string, text: Option<string>): (r: Record)
    ensures r.Keys == (if text.Some? then op.Keys + {key} else op.Keys)
    ensures forall k :: k != key ==> Get(r, k) == Get(op, k)
    ensures Get(r, key) == if text.Some? then Str(text.value) else Get(op, key)
  {
    if text.Some? then op[key := Str(text.value)] else op
  }

  /** `parse_pdf_columns`: fills the operation from fixed column positions;
      rows with fewer than three cells leave it as it is. Cell 0 and cell 2
      give the operation and settlement dates when they hold a date, the
      second cells of both rows the time, and cells 3 to 5 the type, the
      security and the maturity range, each stripped (`ColumnFields`); an
      empty cell leaves its field as it was, and no other field changes. */
  function ParsePdfColumns(row1: Row, row2: Row, op: Record): (r: Record)
    ensures |row1| < 3 ==> r == op
    ensures op.Keys <= r.Keys <= op.Keys + ColumnKeys
    ensures forall k :: k !in ColumnKeys ==> Get(r, k) == Get(op, k)
  {
    if |row1| < 3 then op
    else
      var op1 := PutSome(op, OperationDate, DateCell(row1, 0));
      var op2 := PutSome(op1, OperationTime, TimeCell(row1, row2));
      var op3 := PutSome(op2, SettlementDate, DateCell(row1, 2));
      var op4 := PutSome(op3, OperationType, TextCell(row1, 3));
      var op5 := PutSome(op4, SecurityTypeAndMaturity, TextCell(row1, 4));
      ColumnChainFrame(op, DateCell(row1, 0), TimeCell(row1, row2), DateCell(row1, 2),
                       TextCell(row1, 3), TextCell(row1, 4), TextCell(row1, 5));
      PutSome(op5, MaturityRange, TextCell(row1, 5))
  }

  /** What each column field becomes: its stripped cell when the cell is
      filled (and, for the two dates, holds a date), the two time cells
      joined by a space, and otherwise what the operation held. */
  lemma ColumnFields(row1: Row, row2: Row, op: Record, r: Record)
    requires r == ParsePdfColumns(row1, row2, op)
    ensures |row1| >= 3 ==>
      Get(r, OperationDate) == (if HasDate(row1[0]) then Str(Strip(row1[0].value)) else Get(op, OperationDate))
    ensures |row1| >= 3 ==>
      Get(r, SettlementDate) == (if HasDate(row1[2]) then Str(Strip(row1[2].value)) else Get(op, SettlementDate))
    ensures |row1| >= 3 ==>
      Get(r, OperationTime) ==
        (if Filled(row1[1]) && |row2| > 1 && Filled(row2[1]) then Str(Strip(row1[1].value) + " " + Strip(row2[1].value))
         else if Filled(row1[1]) then Str(Strip(row1[1].value))
         else if |row2| > 1 && Filled(row2[1]) then Str(Strip(row2[1].value))
         else Get(op, OperationTime))
    ensures Get(r, OperationType) ==
      (if |row1| > 3 && Filled(row1[3]) then Str(Strip(row1[3].value)) else Get(op, OperationType))
    ensures Get(r, SecurityTypeAndMaturity) ==
      (if |row1| > 4 && Filled(row1[4]) then Str(Strip(row1[4].value)) else Get(op, SecurityTypeAndMaturity))
    ensures Get(r, MaturityRange) ==
      (if |row1| > 5 && Filled(row1[5]) then Str(Strip(row1[5].value)) else Get(op, MaturityRange))
  {
    ColumnDates(row1, row2, op, r);
    ColumnTime(row1, row2, op, r);
    ColumnTexts(row1, row2, op, r);
  }

  lemma ColumnDates(row1: Row, row2: Row, op: Record, r: Record)
    requires r == ParsePdfColumns(row1, row2, op)
    ensures |row1| >= 3 ==>
      Get(r, OperationDate) == (if HasDate(row1[0]) then Str(Strip(row1[0].value)) else Get(op, OperationDate))
    ensures |row1| >= 3 ==>
      Get(r, SettlementDate) == (if HasDate(row1[2]) then Str(Strip(row1[2].value)) else Get(op, SettlementDate))
  {
    if |row1| >= 3 {
      ColumnChain(op, DateCell(row1, 0), TimeCell(row1, row2), DateCell(row1, 2),
                  TextCell(row1, 3), TextCell(row1, 4), TextCell(row1, 5), r);
    }
  }

  lemma ColumnTime(row1: Row, row2: Row, op: Record, r: Record)
    requires r == ParsePdfColumns(row1, row2, op)
    ensures |row1| >= 3 ==>
      Get(r, OperationTime) ==
        (if Filled(row1[1]) && |row2| > 1 && Filled(row2[1]) then Str(Strip(row1[1].value) + " " + Strip(row2[1].value))
         else if Filled(row1[1]) then Str(Strip(row1[1].value))
         else if |row2| > 1 && Filled(row2[1]) then Str(Strip(row2[1].value))
         else Get(op, OperationTime))
  {
    if |row1| >= 3 {
      ColumnChain(op, DateCell(row1, 0), TimeCell(row1, row2), DateCell(row1, 2),
                  TextCell(row1, 3), TextCell(row1, 4), TextCell(row1, 5), r);
      TimeCellJoin(row1, row2);
    }
  }

  lemma ColumnTexts(row1: Row, row2: Row, op: Record, r: Record)
    requires r == ParsePdfColumns(row1, row2, op)
    ensures Get(r, OperationType) ==
      (if |row1| > 3 && Filled(row1[3]) then Str(Strip(row1[3].value)) else Get(op, OperationType))
    ensures Get(r, SecurityTypeAndMaturity) ==
      (if |row1| > 4 && Filled(row1[4]) then Str(Strip(row1[4].value)) else Get(op, SecurityTypeAndMaturity))
    ensures Get(r, MaturityRange) ==
      (if |row1| > 5 && Filled(row1[5]) then Str(Strip(row1[5].value)) else Get(op, MaturityRange))
  {
    ColumnType(row1, row2, op, r);
    ColumnSecurity(row1, row2, op, r);
    ColumnMaturity(row1, row2, op, r);
  }

  lemma ColumnType(row1: Row, row2: Row, op: Record, r: Record)
    requires r == ParsePdfColumns(row1, row2, op)
    ensures Get(r, OperationType) ==
      (if |row1| > 3 && Filled(row1[3]) then Str(Strip(row1[3].value)) else Get(op, OperationType))
  {
    if |row1| >= 3 {
      ColumnChain(op, DateCell(row1, 0), TimeCell(row1, row2), DateCell(row1, 2),
                  TextCell(row1, 3), TextCell(row1, 4), TextCell(row1, 5), r);
    }
  }

  lemma ColumnSecurity(row1: Row, row2: Row, op: Record, r: Record)
    requires r == ParsePdfColumns(row1, row2, op)
    ensures Get(r, SecurityTypeAndMaturity) ==
      (if |row1| > 4 && Filled(row1[4]) then Str(Strip(row1[4].value)) else Get(op, SecurityTypeAndMaturity))
  {
    if |row1| >= 3 {
      ColumnChain(op, DateCell(row1, 0), TimeCell(row1, row2), DateCell(row1, 2),
                  TextCell(row1, 3), TextCell(row1, 4), TextCell(row1, 5), r);
    }
  }

  lemma ColumnMaturity(row1: Row, row2: Row, op: Record, r: Record)
    requires r == ParsePdfColumns(row1, row2, op)
    ensures Get(r, MaturityRange) ==
      (if |row1| > 5 && Filled(row1[5]) then Str(Strip(row1[5].value)) else Get(op, MaturityRange))
  {
    if |row1| >= 3 {
      ColumnChain(op, DateCell(row1, 0), TimeCell(row1, row2), DateCell(row1, 2),
                  TextCell(row1, 3), TextCell(row1, 4), TextCell(row1, 5), r);
    }
  }

  /** The time cell is the filled time cells of the two rows, joined by a space. */
  lemma TimeCellJoin(row1: Row, row2: Row)
    requires |row1| >= 2
    ensures TimeCell(row1, row2) ==
      (if Filled(row1[1]) && |row2| > 1 && Filled(row2[1]) then Some(Strip(row1[1].value) + " " + Strip(row2[1].value))
       else if Filled(row1[1]) then Some(Strip(row1[1].value))
       else if |row2| > 1 && Filled(row2[1]) then Some(Strip(row2[1].value))
       else None)
  {
    var parts := TimeParts(row1, row2);
    if |parts| == 2 {
      assert parts[1..] == [parts[1]];
      assert Join(parts[1..], " ") == parts[1];
      assert parts == [Strip(row1[1].value), Strip(row2[1].value)];
    }
  }

  /** The six column keys are distinct. */
  /** What the six writes of `parse_pdf_columns` leave in each column field. */
  lemma ColumnChain(op: Record, c0: Option<string>, c1: Option<string>, c2: Option<string>,
                    c3: Option<string>, c4: Option<string>, c5: Option<string>, r: Record)
    requires r == PutSome(PutSome(PutSome(PutSome(PutSome(PutSome(op, OperationDate, c0), OperationTime, c1),
                  SettlementDate, c2), OperationType, c3), SecurityTypeAndMaturity, c4), MaturityRange, c5)
    ensures Get(r, OperationDate) == if c0.Some? then Str(c0.value) else Get(op, OperationDate)
    ensures Get(r, OperationTime) == if c1.Some? then Str(c1.value) else Get(op, OperationTime)
    ensures Get(r, SettlementDate) == if c2.Some? then Str(c2.value) else Get(op, SettlementDate)
    ensures Get(r, OperationType) == if c3.Some? then Str(c3.value) else Get(op, OperationType)
    ensures Get(r, SecurityTypeAndMaturity) == if c4.Some? then Str(c4.value) else Get(op, SecurityTypeAndMaturity)
    ensures Get(r, MaturityRange) == if c5.Some? then Str(c5.value) else Get(op, MaturityRange)
  {
    ColumnKeysDistinct();
  }

  /** The six writes of `parse_pdf_columns` add only column keys and change
      no other field. */
  lemma ColumnChainFrame(op: Record, c0: Option<string>, c1: Option<string>, c2: Option<string>,
                         c3: Option<string>, c4: Option<string>, c5: Option<string>)
    ensures var r := PutSome(PutSome(PutSome(PutSome(PutSome(PutSome(op, OperationDate, c0), OperationTime, c1),
                  SettlementDate, c2), OperationType, c3), SecurityTypeAndMaturity, c4), MaturityRange, c5);
      op.Keys <= r.Keys <= op.Keys + ColumnKeys && forall k :: k !in ColumnKeys ==> Get(r, k) == Get(op, k)
  {
    var r1 := PutSome(op, OperationDate, c0);
    PutSomeWithin(op, OperationDate, c0, op, ColumnKeys);
    var r2 := PutSome(r1, OperationTime, c1);
    PutSomeWithin(r1, OperationTime, c1, op, ColumnKeys);
    var r3 := PutSome(r2, SettlementDate, c2);
    PutSomeWithin(r2, SettlementDate, c2, op, ColumnKeys);
    var r4 := PutSome(r3, OperationType, c3);
    PutSomeWithin(r3, OperationType, c3, op, ColumnKeys);
    var r5 := PutSome(r4, SecurityTypeAndMaturity, c4);
    PutSomeWithin(r4, SecurityTypeAndMaturity, c4, op, ColumnKeys);
    PutSomeWithin(r5, MaturityRange, c5, op, ColumnKeys);
  }

  /** A write to a key of `keys` keeps a record within `keys` of `base`. */
  lemma PutSomeWithin(op: Record, key: string, text: Option<string>, base: Record, keys: set<string>)
    requires base.Keys <= op.Keys <= base.Keys + keys && key in keys
    requires forall k :: k !in keys ==> Get(op, k) == Get(base, k)
    ensures var r := PutSome(op, key, text);
      base.Keys <= r.Keys <= base.Keys + keys && forall k :: k !in keys ==> Get(r, k) == Get(base, k)
  {
  }

  /** The six column keys are pairwise different. */
  lemma ColumnKeysDistinct()
    ensures OperationDate != OperationTime && OperationDate != SettlementDate && OperationDate != OperationType
    ensures OperationDate != SecurityTypeAndMaturity && OperationDate != MaturityRange
    ensures OperationTime != SettlementDate && OperationTime != OperationType
    ensures OperationTime != SecurityTypeAndMaturity && OperationTime != MaturityRange
    ensures SettlementDate != OperationType && SettlementDate != SecurityTypeAndMaturity && SettlementDate != MaturityRange
    ensures OperationType != SecurityTypeAndMaturity && OperationType != MaturityRange
    ensures SecurityTypeAndMaturity != MaturityRange
  {
    assert OperationDate[10] == 'D' && OperationType[10] == 'T';
    assert |OperationTime| == 19 && |OperationType| == 14 && |OperationDate| == 14;
    assert |SettlementDate| == 15 && |SecurityTypeAndMaturity| == 26 && |MaturityRange| == 14;
    assert MaturityRange[0] == 'M' && OperationDate[0] == 'O' && OperationType[0] == 'O';
  }

  /** `combine_row_text`: the stripped texts of every cell of both rows,
      blanks for empty cells, joined with spaces. */
  function CombineRowText(row1: Row, row2: Row): string {
    var cells := row1 + row2;
    Join(seq(|cells|, i requires 0 <= i < |cells| => CellText(cells[i])), " ")
  }

  /** A number as `\d+(?:\.\d+)?` reads it: digits with at most a point
      between them. */
  predicate NumberText(t: string) {
    |t| >= 1 && IsDigit(t[0]) && IsDigit(t[|t| - 1])
    && forall i :: 0 <= i < |t| ==> IsDigit(t[i]) || t[i] == '.'
  }

  /** A number at `p`, then a scale word ending at `e`. */
  predicate ScaledMatch(s: string, p: nat, e: nat) {
    Number(s, p).Some? && Number(s, p).value <= e - 7 && ScaleWord(s, e - 7) == Some(e)
    && forall i :: Number(s, p).value <= i < e - 7 ==> IsSpace(s[i])
  }

  /** `g` holds the two groups of a scaled-amount match over `sp`: the number
      that starts `skip` characters into it, then only whitespace, then the
      scale word that closes the match, lower-cased. */
  predicate GroupsOf(text: string, sp: Span, skip: nat, g: (string, string)) {
    var p := sp.start + skip;
    p + |g.0| + 7 <= sp.end <= |text|
    && text[p..p + |g.0|] == g.0 && Number(text, p) == Some(p + |g.0|)
    && (forall i :: p + |g.0| <= i < sp.end - 7 ==> IsSpace(text[i]))
    && g.1 == LowerStr(text[sp.end - 7..sp.end])
  }

  /** The groups of a scaled-amount match over `sp`: the number `skip`
      characters into it and the lower-cased word that closes it. */
  function ScaledGroups(text: string, sp: Span, skip: nat): (g: (string, string))
    requires ScaledMatch(text, sp.start + skip, sp.end)
    ensures NumberText(g.0) && g.1 in {"million", "billion"}
    ensures GroupsOf(text, sp, skip, g)
  {
    var p := sp.start + skip;
    var q := Number(text, p).value;
    NumberSlice(text, p);
    ScaleWordLower(text, sp.end - 7);
    ScaledGroupsOf(text, sp, skip);
    (text[p..q], LowerStr(text[sp.end - 7..sp.end]))
  }

  lemma ScaledGroupsOf(text: string, sp: Span, skip: nat)
    requires ScaledMatch(text, sp.start + skip, sp.end)
    ensures var p := sp.start + skip;
      GroupsOf(text, sp, skip, (text[p..Number(text, p).value], LowerStr(text[sp.end - 7..sp.end])))
  {
    var p := sp.start + skip;
    var q := Number(text, p).value;
    assert |text[p..q]| == q - p;
  }

  /** The text a number spans is a number. */
  lemma NumberSlice(text: string, p: nat)
    requires Number(text, p).Some?
    ensures NumberText(text[p..Number(text, p).value])
  {
    var size := text[p..Number(text, p).value];
    assert forall i :: 0 <= i < |size| ==> size[i] == text[p + i];
  }

  /** The groups of the leftmost match of `m`, a scaled-amount pattern
      whose number starts `skip` characters into the match. */
  function AmountGroups(text: string, m: Anchored, skip: nat): (g: Option<(string, string)>)
    requires forall s: string, p: nat :: MatchAt(m, s, p).Some? ==> ScaledMatch(s, p + skip, MatchAt(m, s, p).value)
    ensures g.Some? ==> NumberText(g.value.0) && g.value.1 in {"million", "billion"}
    ensures g.None? <==> Search(m, text).None?
    ensures g.Some? ==> GroupsOf(text, Search(m, text).value, skip, g.value)
  {
    match Search(m, text)
    case Some(sp) =>
      assert ScaledMatch(text, sp.start + skip, sp.end);
      Some(ScaledGroups(text, sp, skip))
    case None => None
  }

  /** The groups of the leftmost `\$(\d+(?:\.\d+)?)\s*(million|billion)` match. */
  function DollarAmount(text: string): (g: Option<(string, string)>)
    ensures g.Some? ==> NumberText(g.value.0) && g.value.1 in {"million", "billion"}
    ensures g.None? <==> Search(DollarScaled, text).None?
    ensures g.Some? ==> var sp := Search(DollarScaled, text).value;
      sp.start < |text| && text[sp.start] == '$' && GroupsOf(text, sp, 1, g.value)
  {
    DollarMatchGroups();
    AmountGroups(text, DollarScaled, 1)
  }

  /** The groups of the leftmost `\b(\d+(?:\.\d+)?)\s*(million|billion)\b` match. */
  function BareAmount(text: string): (g: Option<(string, string)>)
    ensures g.Some? ==> NumberText(g.value.0) && g.value.1 in {"million", "billion"}
    ensures g.None? <==> Search(BareScaled, text).None?
    ensures g.Some? ==> var sp := Search(BareScaled, text).value;
      GroupsOf(text, sp, 0, g.value)
      && (sp.start == 0 || !IsWordChar(text[sp.start - 1]))
      && (sp.end == |text| || !IsWordChar(text[sp.end]))
  {
    BareMatchGroups();
    BareMatchBoundaries(text);
    AmountGroups(text, BareScaled, 0)
  }

  /** The leftmost bare match starts and ends at a word boundary. */
  lemma BareMatchBoundaries(text: string)
    ensures Search(BareScaled, text).Some? ==> var sp := Search(BareScaled, text).value;
      sp.end <= |text|
      && (sp.start == 0 || !IsWordChar(text[sp.start - 1]))
      && (sp.end == |text| || !IsWordChar(text[sp.end]))
  {
    match Search(BareScaled, text)
    case None =>
    case Some(sp) =>
      assert BareScaled(text, sp.start) == Some(sp.end);
  }

  lemma DollarMatchGroups()
    ensures forall s: string, p: nat :: MatchAt(DollarScaled, s, p).Some? ==> ScaledMatch(s, p + 1, MatchAt(DollarScaled, s, p).value)
  {
    forall s: string, p: nat | MatchAt(DollarScaled, s, p).Some?
      ensures ScaledMatch(s, p + 1, MatchAt(DollarScaled, s, p).value)
    {
      assert DollarScaled(s, p) == MatchAt(DollarScaled, s, p);
    }
  }

  lemma BareMatchGroups()
    ensures forall s: string, p: nat :: MatchAt(BareScaled, s, p).Some? ==> ScaledMatch(s, p, MatchAt(BareScaled, s, p).value)
  {
    forall s: string, p: nat | MatchAt(BareScaled, s, p).Some?
      ensures ScaledMatch(s, p, MatchAt(BareScaled, s, p).value)
    {
      assert BareScaled(s, p) == MatchAt(BareScaled, s, p);
    }
  }

  /** The size and multiplier written into the operation. */
  function PutAmount(op: Record, g: (string, string)): (r: Record)
    ensures r.Keys == op.Keys + {MaximumOperationSize, MaximumOperationMultiplier}
    ensures r[MaximumOperationSize] == Str(g.0) && r[MaximumOperationMultiplier] == Str(g.1)
    ensures forall k :: k in op && k != MaximumOperationSize && k != MaximumOperationMultiplier ==> r[k] == op[k]
  {
    op[MaximumOperationSize := Str(g.0)][MaximumOperationMultiplier := Str(g.1)]
  }

  /** `extract_pdf_amount`: the first of the two patterns that occurs sets
      the size and the lower-cased multiplier; with neither the operation
      is unchanged. */
  function ExtractPdfAmount(text: string, op: Record): (r: Record)
    ensures r == op || (r.Keys == op.Keys + {MaximumOperationSize, MaximumOperationMultiplier}
      && r[MaximumOperationMultiplier] in {Str("million"), Str("billion")}
      && r[MaximumOperationSize].Str? && NumberText(r[MaximumOperationSize].s))
    ensures forall k :: k in op && k != MaximumOperationSize && k != MaximumOperationMultiplier ==> r[k] == op[k]
    ensures DollarAmount(text).None? && BareAmount(text).None? ==> r == op
    ensures DollarAmount(text).Some? ==> var g := DollarAmount(text).value;
      r == op[MaximumOperationSize := Str(g.0)][MaximumOperationMultiplier := Str(g.1)]
    ensures DollarAmount(text).None? && BareAmount(text).Some? ==> var g := BareAmount(text).value;
      r == op[MaximumOperationSize := Str(g.0)][MaximumOperationMultiplier := Str(g.1)]
  {
    match DollarAmount(text)
    case Some(g) => PutAmount(op, g)
    case None =>
      match BareAmount(text)
      case Some(g) => PutAmount(op, g)
      case None => op
  }

  /** `is_valid_pdf_operation`: a date, and a type or a security. */
  predicate IsValidPdfOperation(op: Record) {
    Truthy(Get(op, OperationDate))
    && (Truthy(Get(op, OperationType)) || Truthy(Get(op, SecurityTypeAndMaturity)))
  }

  /** `parse_pdf_operation`: a blank operation filled from a row pair, kept
      when valid. */
  function ParsePdfOperation(row1: Row, row2: Row): (r: Option<Record>)
    ensures r.Some? ==> IsValidPdfOperation(r.value)
    ensures r.Some? ==> forall k :: k in r.value <==> k in TreasuryKeys
  {
    var op := ExtractPdfAmount(CombineRowText(row1, row2), ParsePdfColumns(row1, row2, BlankOperation()));
    if IsValidPdfOperation(op) then Some(op) else None
  }

  /** The operations the table walk finds from row `i` on, reading each row
      pair with `parse`: a pair of empty rows or a pair that is not an
      operation moves on by one row, an operation by two. */
  function PdfOperationsFrom(table: Table, i: nat, parse: (Row, Row) -> Option<Record>): (r: seq<Record>)
    requires i <= |table| + 1
    ensures 2 * |r| <= |table| + 1 - i
    decreases |table| - i
  {
    if i >= |table| then []
    else
      var row2 := if i + 1 < |table| then table[i + 1] else [];
      if IsEmptyRow(table[i]) && IsEmptyRow(row2) then PdfOperationsFrom(table, i + 1, parse)
      else match parse(table[i], row2)
        case Some(op) => [op] + PdfOperationsFrom(table, i + 2, parse)
        case None => PdfOperationsFrom(table, i + 1, parse)
  }

  /** Every operation the table walk keeps passed `is_valid_pdf_operation`. */
  lemma PdfOperationsValid(table: Table, i: nat)
    requires i <= |table| + 1
    ensures forall op :: op in PdfOperationsFrom(table, i, ParsePdfOperation) ==> IsValidPdfOperation(op)
  {
    forall row1: Row, row2: Row | ParsePdfOperation(row1, row2).Some?
      ensures IsValidPdfOperation(ParsePdfOperation(row1, row2).value)
    {
    }
    KeptByParse(table, i, ParsePdfOperation);
  }

  /** The walk keeps only what `parse` gives, so a property of everything
      `parse` gives holds of everything it keeps. */
  lemma {:induction false} KeptByParse(table: Table, i: nat, parse: (Row, Row) -> Option<Record>)
    requires i <= |table| + 1
    requires forall row1, row2 :: parse(row1, row2).Some? ==> IsValidPdfOperation(parse(row1, row2).value)
    ensures forall op :: op in PdfOperationsFrom(table, i, parse) ==> IsValidPdfOperation(op)
    decreases |table| - i
  {
    if i < |table| {
      KeptByParse(table, i + 1, parse);
      KeptByParse(table, i + 2, parse);
    }
  }

  /** `parse_pdf_table`: the while loop from the data start. */
  method ParsePdfTable(table: Table, parse: (Row, Row) -> Option<Record>) returns (ops: seq<Record>)
    ensures ops == PdfOperationsFrom(table, FindPdfDataStart(table), parse)
  {
    ops := WalkPdfTable(table, FindPdfDataStart(table), parse);
  }

  /** The loop of `parse_pdf_table` from row `start`. */
  method WalkPdfTable(table: Table, start: nat, parse: (Row, Row) -> Option<Record>) returns (ops: seq<Record>)
    requires start <= |table| + 1
    ensures ops == PdfOperationsFrom(table, start, parse)
  {
    ops := [];
    var i := start;
    while i < |table|
      invariant start <= i <= |table| + 1
      invariant ops + PdfOperationsFrom(table, i, parse) == PdfOperationsFrom(table, start, parse)
      decreases |table| - i
    {
      ops, i := WalkRowPair(table, i, parse, ops);
    }
  }

  /** The body of the `parse_pdf_table` loop: skip a pair of empty rows or
      a pair that is not an operation by one row, take an operation and
      skip both its rows. */
  method WalkRowPair(table: Table, i: nat, parse: (Row, Row) -> Option<Record>, ops: seq<Record>)
    returns (ops': seq<Record>, i': nat)
    requires i < |table|
    ensures i < i' <= i + 2
    ensures ops' + PdfOperationsFrom(table, i', parse) == ops + PdfOperationsFrom(table, i, parse)
  {
    PdfWalkStep(table, i, parse);
    var row1 := table[i];
    var row2 := if i + 1 < |table| then table[i + 1] else [];
    if IsEmptyRow(row1) && IsEmptyRow(row2) {
      ops', i' := ops, i + 1;
    } else {
      var op := parse(row1, row2);
      if op.Some? {
        AppendAssoc(ops, [op.value], PdfOperationsFrom(table, i + 2, parse));
        ops', i' := ops + [op.value], i + 2;
      } else {
        ops', i' := ops, i + 1;
      }
    }
  }

  /** One step of the table walk. */
  lemma PdfWalkStep(table: Table, i: nat, parse: (Row, Row) -> Option<Record>)
    requires i < |table|
    ensures var row2 := if i + 1 < |table| then table[i + 1] else [];
      PdfOperationsFrom(table, i, parse) ==
        if IsEmptyRow(table[i]) && IsEmptyRow(row2) then PdfOperationsFrom(table, i + 1, parse)
        else if parse(table[i], row2).Some? then [parse(table[i], row2).value] + PdfOperationsFrom(table, i + 2, parse)
        else PdfOperationsFrom(table, i + 1, parse)
  {
  }

  // ---------------------------------------------------------------------------
  // PDF text (parse_pdf_text_fallback)

  /** `complete_pdf_operation`: the ten fields, read with `.get(key, '')`,
      and an empty release date. */
  function CompletePdfOperation(op: Record): (r: Record)
    ensures forall k :: k in r <==> k in TreasuryKeys
    ensures forall k :: k in TreasuryKeys && k != ReleaseDate ==> r[k] == Get(op, k)
    ensures r[ReleaseDate] == Str("")
  {
    map k | k in TreasuryKeys :: if k == ReleaseDate then Str("") else Get(op, k)
  }

  /** The operation a dated line starts. */
  function DatedOperation(date: string): (r: Record)
    ensures Get(r, OperationDate) == Str(date)
  {
    CompletePdfOperation(map[OperationDate := Str(date)])
  }

  /** The date a line starts with, once stripped. */
  function LineDate(line: string): (r: Option<string>)
    ensures r.Some? ==> r.value != ""
  {
    DateAtStart(Strip(line))
  }

  /** The operation a line starts: one when, stripped, it begins with a date. */
  function LineOperation(line: string): (r: seq<Record>)
    ensures |r| <= 1
    ensures forall op :: op in r ==> Truthy(Get(op, OperationDate))
  {
    match LineDate(line)
    case Some(date) =>
      var op := DatedOperation(date);
      assert Truthy(Get(op, OperationDate));
      [op]
    case None => []
  }

  /** One operation per line that, stripped, starts with a date. */
  function TextOperations(lines: seq<string>): (r: seq<Record>)
    ensures |r| <= |lines|
    ensures forall op :: op in r ==> Truthy(Get(op, OperationDate))
  {
    if |lines| == 0 then [] else TextOperations(lines[..|lines| - 1]) + LineOperation(lines[|lines| - 1])
  }

  /** The operation still being built, as the list of what it will add. */
  function Pending(current: Record): seq<Record> {
    if |current| > 0 && Truthy(Get(current, OperationDate)) then [CompletePdfOperation(current)] else []
  }

  /** The body of the line loop: a dated line closes the operation being
      built and starts a new one. */
  method ScanLine(line: string, ops: seq<Record>, current: Record) returns (ops': seq<Record>, current': Record)
    requires |current| > 0 ==> Truthy(Get(current, OperationDate))
    ensures |current'| > 0 ==> Truthy(Get(current', OperationDate))
    ensures ops' + Pending(current') == ops + Pending(current) + LineOperation(line)
  {
    ops', current' := ops, current;
    var stripped := Strip(line);
    if stripped != "" {
      match DateAtStart(stripped) {
        case Some(date) =>
          if |current| > 0 && Truthy(Get(current, OperationDate)) {
            ops' := ops + [CompletePdfOperation(current)];
          }
          current' := map[OperationDate := Str(date)];
          DatedLine(line, date);
          ClosePending(ops, current, [DatedOperation(date)]);
        case None =>
          UndatedLine(line);
      }
    } else {
      UndatedLine(line);
    }
  }

  /** A dated line adds its own operation, and the operation it starts is
      pending with its date. */
  lemma DatedLine(line: string, date: string)
    requires LineDate(line) == Some(date)
    ensures LineOperation(line) == [DatedOperation(date)]
    ensures Pending(map[OperationDate := Str(date)]) == [DatedOperation(date)]
  {
  }

  /** A blank line, or one without a leading date, adds nothing. */
  lemma UndatedLine(line: string)
    requires Strip(line) == "" || DateAtStart(Strip(line)).None?
    ensures LineOperation(line) == []
  {
    if Strip(line) == "" {
      assert MatchAt(SlashDate, "", 0).None?;
    }
  }

  /** Closing the pending operation moves it from the pending list to the
      result. */
  lemma ClosePending(ops: seq<Record>, current: Record, next: seq<Record>)
    ensures (if |current| > 0 && Truthy(Get(current, OperationDate)) then ops + [CompletePdfOperation(current)] else ops)
      + next == ops + Pending(current) + next
  {
  }

  /** `parse_pdf_text_fallback` */
  method ParsePdfTextFallback(text: Option<string>) returns (ops: seq<Record>)
    ensures text.None? || text.value == "" ==> ops == []
    ensures text.Some? && text.value != "" ==> ops == TextOperations(Split(text.value, '\n'))
  {
    ops := [];
    if text.None? || text.value == "" {
      return;
    }
    ops := ScanLines(Split(text.value, '\n'));
  }

  /** The line loop of `parse_pdf_text_fallback` and the closing of the
      last operation. */
  method ScanLines(lines: seq<string>) returns (ops: seq<Record>)
    ensures ops == TextOperations(lines)
  {
    ops := [];
    var current: Record := map[];
    for i := 0 to |lines|
      invariant ops + Pending(current) == TextOperations(lines[..i])
      invariant |current| > 0 ==> Truthy(Get(current, OperationDate))
    {
      TextOperationsStep(lines, i);
      ops, current := ScanLine(lines[i], ops, current);
    }
    assert lines[..|lines|] == lines;
    if |current| > 0 && Truthy(Get(current, OperationDate)) {
      ops := ops + [CompletePdfOperation(current)];
    }
  }

  lemma TextOperationsStep(lines: seq<string>, i: nat)
    requires i < |lines|
    ensures TextOperations(lines[..i + 1]) == TextOperations(lines[..i]) + LineOperation(lines[i])
  {
    assert lines[..i + 1][..i] == lines[..i];
  }

  // ---------------------------------------------------------------------------
  // Output (standardize_output_format, save_to_csv)

  /** The field each output column is read from. */
  function SourceKeyOf(column: string): string {
    if column == "operation_date" then OperationDate
    else if column == "operation_time" then OperationTime
    else if column == "settlement_date" then SettlementDate
    else if column == "operation_type" then OperationType
    else if column == "security_type_and_maturity" then SecurityTypeAndMaturity
    else if column == "maturity_range" then MaturityRange
    else if column == "maximum_operation_currency" then MaximumOperationCurrency
    else if column == "maximum_operation_size" then MaximumOperationSize
    else if column == "maximum_operation_multiplier" then MaximumOperationMultiplier
    else ReleaseDate
  }

  /** Output column `j` is read from field `j`. */
  lemma SourceKeys()
    ensures forall j :: 0 <= j < |OutputKeys| ==> SourceKeyOf(OutputKeys[j]) == TreasuryKeys[j]
  {
  }

  /** One operation under the output column names. */
  function StandardizeRecord(op: Record): (r: Record)
    ensures forall k :: k in r <==> k in OutputKeys
    ensures forall j :: 0 <= j < |OutputKeys| ==> r[OutputKeys[j]] == Get(op, TreasuryKeys[j])
  {
    SourceKeys();
    map column | column in OutputKeys :: Get(op, SourceKeyOf(column))
  }

  /** `standardize_output_format` */
  function StandardizeOutputFormat(ops: seq<Record>): (r: seq<Record>)
    ensures |r| == |ops|
    ensures forall i :: 0 <= i < |r| ==> forall k :: k in r[i] <==> k in OutputKeys
  {
    seq(|ops|, i requires 0 <= i < |ops| => StandardizeRecord(ops[i]))
  }

  /** `value.replace(',', '').strip()` */
  function CleanText(s: string): (r: string)
    ensures ',' !in r && IsStripped(r)
  {
    var t := RemoveChar(s, ',');
    StripIdempotent(t);
    StripKeepsAbsent(t, ',');
    Strip(t)
  }

  /** The clean-up `save_to_csv` applies to each value: strings lose their
      commas and surrounding whitespace; numbers are written as they are. */
  function CleanValue(v: Value): (r: Value)
    ensures r.Str? <==> v.Str?
    ensures r.Str? ==> ',' !in r.s && IsStripped(r.s)
    ensures !v.Str? ==> r == v
  {
    match v
    case Str(s) => Str(CleanText(s))
    case _ => v
  }

  /** The row written for one standardized operation. */
  function CleanRow(op: Record): (r: Record)
    ensures forall k :: k in r <==> k in OutputKeys
    ensures forall k :: k in r ==> r[k] == CleanValue(Get(op, k))
  {
    map k | k in OutputKeys :: CleanValue(Get(op, k))
  }

  // ---------------------------------------------------------------------------
  // The scraper object

  /** What `extract_table_from_pdf` and `extract_text` give for one page. */
  datatype Page = Page(table: Option<Table>, text: Option<string>)

  /** The operations one page contributes: from its table when it has a
      non-empty one, else from its text. */
  function PageOperations(page: Page): seq<Record> {
    if page.table.Some? && |page.table.value| > 0 then
      PdfOperationsFrom(page.table.value, FindPdfDataStart(page.table.value), ParsePdfOperation)
    else if page.text.None? || page.text.value == "" then []
    else TextOperations(Split(page.text.value, '\n'))
  }

  /** The page step of `parse_pdf_fallback`: the table when there is one,
      else the text. */
  method ParsePage(page: Page) returns (ops: seq<Record>)
    ensures ops == PageOperations(page)
  {
    if page.table.Some? && |page.table.value| > 0 {
      ops := ParsePdfTable(page.table.value, ParsePdfOperation);
    } else {
      ops := ParsePdfTextFallback(page.text);
    }
  }

  function PagesOperations(pages: seq<Page>): seq<Record> {
    if |pages| == 0 then [] else PagesOperations(pages[..|pages| - 1]) + PageOperations(pages[|pages| - 1])
  }

  /** The page loop of `parse_pdf_fallback`: every page's operations, in page order. */
  method CollectPages(pages: seq<Page>) returns (ops: seq<Record>)
    ensures ops == PagesOperations(pages)
  {
    ops := [];
    for p := 0 to |pages|
      invariant ops == PagesOperations(pages[..p])
    {
      PagesOperationsStep(pages, p);
      var pageOps := ParsePage(pages[p]);
      ops := ops + pageOps;
    }
    assert pages[..|pages|] == pages;
  }

  lemma PagesOperationsStep(pages: seq<Page>, p: nat)
    requires p < |pages|
    ensures PagesOperations(pages[..p + 1]) == PagesOperations(pages[..p]) + PageOperations(pages[p])
  {
    assert pages[..p + 1][..p] == pages[..p];
  }

  class TreasuryScraper {
    var data: seq<Record>
    var sourceType: Option<string>

    constructor()
      ensures data == [] && sourceType == None
    {
      data := [];
      sourceType := None;
    }

    /** `parse_pdf_fallback` on the pages of an opened PDF: each page's
        operations are added to `data`; when there are any, the source
        becomes "pdf" and the release date is stamped without a browser. */
    method ParsePdfFallback(pages: seq<Page>, web: Option<Date>, soup: Option<Date>, today: Date)
      returns (result: seq<Record>)
      requires ValidDate(today)
      modifies this
      ensures var all := old(data) + PagesOperations(pages);
        |data| == |all|
        && (|all| == 0 ==> sourceType == old(sourceType))
        && (|all| > 0 ==>
              sourceType == Some("pdf")
              && forall i :: 0 <= i < |data| ==>
                data[i] == all[i][ReleaseDate := Int(DigitsValue(ReleaseCascade(web, soup, None, all, today)))])
      ensures result == data
    {
      var pageOps := CollectPages(pages);
      data := data + pageOps;
      var all := data;
      if |all| > 0 {
        sourceType := Some("pdf");
        data := ApplyReleaseDate(all, web, soup, None, today);
      }
      result := data;
    }

    /** `parse_pdf`: the operations `parse_pdf_fallback` leaves in `data`,
        standardized, or none when it leaves none. */
    method ParsePdf(pages: seq<Page>, web: Option<Date>, soup: Option<Date>, today: Date)
      returns (result: seq<Record>)
      requires ValidDate(today)
      modifies this
      ensures var all := old(data) + PagesOperations(pages);
        |data| == |all|
        && (|all| > 0 ==>
              sourceType == Some("pdf")
              && forall i :: 0 <= i < |data| ==>
                data[i] == all[i][ReleaseDate := Int(DigitsValue(ReleaseCascade(web, soup, None, all, today)))])
      ensures |data| == 0 ==> result == []
      ensures |data| > 0 ==> result == StandardizeOutputFormat(data)
    {
      var pdfData := ParsePdfFallback(pages, web, soup, today);
      if |pdfData| > 0 {
        result := StandardizeOutputFormat(pdfData);
      } else {
        result := [];
      }
    }

    /** `save_to_csv` without the file: nothing to save gives false;
        otherwise the rows it writes, one per operation, each with the ten
        output columns cleaned. */
    method SaveRows() returns (ok: bool, rows: seq<Record>)
      ensures ok <==> |data| > 0
      ensures !ok ==> rows == []
      ensures ok ==> |rows| == |data|
      ensures ok ==> forall i :: 0 <= i < |rows| ==> rows[i] == CleanRow(StandardizeRecord(data[i]))
    {
      if |data| == 0 {
        return false, [];
      }
      var standardized := StandardizeOutputFormat(data);
      rows := [];
      for i := 0 to |standardized|
        invariant |rows| == i
        invariant forall k :: 0 <= k < i ==> rows[k] == CleanRow(standardized[k])
      {
        rows := rows + [CleanRow(standardized[i])];
      }
      ok := true;
    }
  }

  // ---------------------------------------------------------------------------
  // Lemmas

  /** Appending one list of at most one date to the maximum's input. */
  lemma LatestAppend(ds: seq<Date>, extra: seq<Date>)
    requires |extra| <= 1
    ensures Latest(ds + extra) == (if |extra| == 0 then Latest(ds) else Later(Latest(ds), extra[0]))
  {
    if |extra| == 0 {
      assert ds + extra == ds;
    } else {
      assert (ds + extra)[..|ds|] == ds;
    }
  }

  lemma DatesInStep(op: Record, keys: seq<string>, j: nat)
    requires j < |keys|
    ensures DatesIn(op, keys[..j + 1]) == DatesIn(op, keys[..j]) + ParsedField(op, keys[j])
  {
    assert keys[..j + 1][..j] == keys[..j];
  }

  lemma DatesAfter(ds: seq<Date>, op: Record, keys: seq<string>, j: nat)
    requires j < |keys|
    ensures ds + DatesIn(op, keys[..j + 1]) == (ds + DatesIn(op, keys[..j])) + ParsedField(op, keys[j])
  {
    DatesInStep(op, keys, j);
  }

  /** The maximum is not before any date it was taken over. */
  lemma {:induction false} LatestIsMaximum(ds: seq<Date>)
    ensures forall d :: d in ds ==> NotAfter(d, Latest(ds).value)
  {
    if |ds| > 0 {
      var init := ds[..|ds| - 1];
      LatestIsMaximum(init);
      assert ds == init + [ds[|ds| - 1]];
    }
  }

  /** A lower-cased scale word is "million" or "billion". */
  lemma ScaleWordLower(s: string, p: nat)
    requires ScaleWord(s, p).Some?
    ensures LowerStr(s[p..p + 7]) in {"million", "billion"}
  {
    var w := s[p..p + 7];
    if LiteralAtIgnoreCase(s, p, "million") {
      assert forall i :: 0 <= i < 7 ==> LowerStr(w)[i] == "million"[i];
      assert LowerStr(w) == "million";
    } else {
      assert forall i :: 0 <= i < 7 ==> LowerStr(w)[i] == "billion"[i];
      assert LowerStr(w) == "billion";
    }
  }

  /** With a driver, `extract_operation_period_end_date` answers today's
      date when it finds no period, and today's date is always reasonable:
      the cascade then stops at the browser step. */
  lemma BrowserFallbackIsToday(web: Option<Date>, soup: Option<Date>, ops: seq<Record>, today: Date)
    requires ValidDate(today) && 1000 <= today.year <= 9997
    requires !Accepted(web, today) && !Accepted(soup, today)
    ensures ReleaseCascade(web, soup, Some(today), ops, today) == ReleaseString(today)
  {
    ReleaseStringParses(today);
  }

  /** When no online candidate is accepted, the stamped release date is
      the number yyyymmdd of the latest operation or settlement date that
      parses, or of today when none does. */
  lemma OfflineReleaseDate(web: Option<Date>, soup: Option<Date>, browser: Option<Date>,
                           ops: seq<Record>, today: Date)
    requires ValidDate(today)
    requires !Accepted(web, today) && !Accepted(soup, today) && !Accepted(browser, today)
    ensures var ds := FieldDates(ops);
      var v := DigitsValue(ReleaseCascade(web, soup, browser, ops, today));
      (|ds| == 0 ==> v == today.year * 10000 + today.month * 100 + today.day)
      && (|ds| > 0 ==> exists d :: d in ds && (forall x :: x in ds ==> NotAfter(x, d))
                                  && v == d.year * 10000 + d.month * 100 + d.day)
  {
    var ds := FieldDates(ops);
    if |ds| == 0 {
      ReleaseStringValue(today);
    } else {
      var d := Latest(ds).value;
      LatestIsMaximum(ds);
      ReleaseStringValue(d);
    }
  }

  /** A release date taken from an online candidate lies in the window
      `_is_reasonable_release_date` allows. */
  lemma AcceptedCandidateInWindow(web: Option<Date>, soup: Option<Date>, browser: Option<Date>,
                                  ops: seq<Record>, today: Date)
    requires ValidDate(today)
    requires Accepted(web, today) || Accepted(soup, today) || Accepted(browser, today)
    ensures ReasonableReleaseDate(ReleaseCascade(web, soup, browser, ops, today), today)
  {
  }

  /** Every row with a date and a type gives a kept operation: together with
      the postcondition of `KeptCsvOperations`, a row is kept exactly when
      its operation has both. */
  lemma {:induction false} CsvKeepsEveryEssentialRow(mapping: seq<Option<string>>, rows: seq<Row>, i: nat)
    requires forall k :: 0 <= k < |rows| ==> |rows[k]| == |mapping|
    requires i < |rows| && HasEssentials(CsvOperation(mapping, rows[i]))
    ensures CsvOperation(mapping, rows[i]) in KeptCsvOperations(mapping, rows)
    decreases |rows|
  {
    if i < |rows| - 1 {
      CsvKeepsEveryEssentialRow(mapping, rows[..|rows| - 1], i);
    }
  }

  /** The exact test of the column mapping is subsumed by the containment test. */
  lemma ExactMatchContains(col: string, expected: string)
    requires Squeezed(Strip(col)) == Squeezed(expected)
    ensures Contains(NoParens(Squeezed(Strip(col))), NoParens(Squeezed(expected)))
  {
    var t := NoParens(Squeezed(expected));
    assert OccursAt(t, t, 0);
  }

  /** Standardizing keeps every field of a complete operation: two complete
      operations with the same output row are the same operation. */
  lemma StandardizeKeepsEverything(a: Record, b: Record)
    requires forall k :: k in a <==> k in TreasuryKeys
    requires forall k :: k in b <==> k in TreasuryKeys
    requires StandardizeRecord(a) == StandardizeRecord(b)
    ensures a == b
  {
    forall k | k in a
      ensures a[k] == b[k]
    {
      var j :| 0 <= j < |TreasuryKeys| && TreasuryKeys[j] == k;
      assert StandardizeRecord(a)[OutputKeys[j]] == Get(a, k);
    }
    assert a.Keys == b.Keys;
  }

  /** Cleaning a cleaned value changes nothing. */
  lemma CleanValueIdempotent(v: Value)
    ensures CleanValue(CleanValue(v)) == CleanValue(v)
  {
    if v.Str? {
      var t := Strip(RemoveChar(v.s, ','));
      StripKeepsAbsent(RemoveChar(v.s, ','), ',');
      RemoveAbsentChar(t, ',');
      StripIdempotent(RemoveChar(v.s, ','));
    }
  }
}
