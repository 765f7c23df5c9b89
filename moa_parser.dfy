/**
 * The mortgage (MOA) schedule parser of fedao_parser.py: the source date
 * taken from the title, the start of the operations table, the two ways of
 * grouping lines into operations (line blocks that start with a date, and
 * the fallback scanner over the table rows), and the records each
 * operation fans out into, one per security.
 */
module MortgageParser {
  import opened Maybe
  import opened Text
  import opened Patterns
  import opened Dates
  import opened Records
  import opened MortgageExtract

  // ---------------------------------------------------------------------------
  // Source date (extract_source_date_from_title)

  /** `extract_source_date_from_title`: the end date of the first
      `MM/DD/YYYY to MM/DD/YYYY` range as YYYYMMDD, or today's date when
      there is no such range or its end is not a real date. */
  function SourceDate(text: string, today: Date): (r: string)
    requires ValidDate(today)
    ensures |r| == 8 && AllDigits(r)
    ensures ParseCompactDate(r).Some?
    ensures SearchTitleEndDate(text).None? ==> r == Compact(today)
    ensures SearchTitleEndDate(text).Some? && ParseSlashDate(SearchTitleEndDate(text).value).Some? ==>
      r == Compact(ParseSlashDate(SearchTitleEndDate(text).value).value)
    ensures SearchTitleEndDate(text).Some? && ParseSlashDate(SearchTitleEndDate(text).value).None? ==>
      r == Compact(today)
  {
    match SearchTitleEndDate(text)
    case Some(e) =>
      (match ParseSlashDate(e)
       case Some(d) => CompactRoundTrip(d); Compact(d)
       case None => CompactRoundTrip(today); Compact(today))
    case None => CompactRoundTrip(today); Compact(today)
  }

  lemma SlashPaddedShape(d: Date)
    requires ValidDate(d)
    ensures var s := SlashPadded(d);
      |s| == 10 && s[2] == '/' && s[5] == '/'
      && (forall i :: 0 <= i < 10 && i != 2 && i != 5 ==> IsDigit(s[i]))
  {
    var m := Padded(d.month, 2);
    var dd := Padded(d.day, 2);
    var y := Padded(d.year, 4);
    var s := SlashPadded(d);
    assert s == m + "/" + dd + "/" + y;
    forall i | 0 <= i < 10 && i != 2 && i != 5 ensures IsDigit(s[i]) {
      if i < 2 { assert s[i] == m[i]; }
      else if i < 5 { assert s[i] == dd[i - 3]; }
      else { assert s[i] == y[i - 6]; }
    }
  }

  lemma PaddedSlashDateAt(s: string, p: nat, d: Date)
    requires ValidDate(d) && p + 10 <= |s| && s[p..p + 10] == SlashPadded(d)
    ensures PaddedSlashDate(s, p) == Some(p + 10)
  {
    SlashPaddedShape(d);
    forall i | 0 <= i < 10 ensures s[p + i] == SlashPadded(d)[i] {
      assert s[p + i] == s[p..p + 10][i];
    }
  }

  /** A padded date range anywhere in the text, with any whitespace around
      its `to`, gives the range's end when no range starts before it: the
      heading lines before the title do not matter. The range starts at
      `p`, its `to` at `r` and its end date at `u`. */
  lemma SourceDateOfTitle(s: string, p: nat, r: nat, u: nat, a: Date, b: Date, today: Date)
    requires ValidDate(a) && ValidDate(b) && ValidDate(today)
    requires p + 10 < r && r + 2 < u && u + 10 <= |s|
    requires s[p..p + 10] == SlashPadded(a) && s[r..r + 2] == "to" && s[u..u + 10] == SlashPadded(b)
    requires forall i :: p + 10 <= i < r ==> IsSpace(s[i])
    requires forall i :: r + 2 <= i < u ==> IsSpace(s[i])
    requires forall k: nat :: k < p ==> MatchAt(TitleRange, s, k).None?
    ensures SourceDate(s, today) == Compact(b)
  {
    TitleRangeOver(s, p, r, u, a, b);
    SearchAt(TitleRange, s, p);
    SourceDateOfSearch(s, Span(p, u + 10), b, today);
  }

  /** The leftmost title match ending in a real date gives that date. */
  lemma SourceDateOfSearch(s: string, sp: Span, b: Date, today: Date)
    requires ValidDate(b) && ValidDate(today)
    requires Search(TitleRange, s) == Some(sp)
    requires sp.start + 10 <= sp.end <= |s| && s[sp.end - 10..sp.end] == SlashPadded(b)
    ensures SourceDate(s, today) == Compact(b)
  {
    assert SearchTitleEndDate(s) == Some(SlashPadded(b));
    SlashRoundTrip(b);
  }

  /** The title pattern over its parts: a padded date at `p`, whitespace up
      to `r`, `to`, whitespace up to `u` and a padded date there. */
  lemma TitleRangeOver(s: string, p: nat, r: nat, u: nat, a: Date, b: Date)
    requires ValidDate(a) && ValidDate(b)
    requires p + 10 < r && r + 2 < u && u + 10 <= |s|
    requires s[p..p + 10] == SlashPadded(a) && s[r..r + 2] == "to" && s[u..u + 10] == SlashPadded(b)
    requires forall i :: p + 10 <= i < r ==> IsSpace(s[i])
    requires forall i :: r + 2 <= i < u ==> IsSpace(s[i])
    ensures TitleRange(s, p) == Some(u + 10)
  {
    PaddedSlashDateAt(s, p, a);
    PaddedSlashDateAt(s, u, b);
    PaddedStartsWithDigit(s, u, b);
    assert s[r] == s[r..r + 2][0];
    SpacesRun(s, p + 10, r);
    SpacesRun(s, r + 2, u);
    TitleRangeSteps(s, p, p + 10, r, u);
  }

  lemma TitleRangeSteps(s: string, p: nat, q: nat, r: nat, u: nat)
    requires PaddedSlashDate(s, p) == Some(q) && SpacesPlus(s, q) == Some(r)
    requires r + 2 <= |s| && s[r..r + 2] == "to"
    requires SpacesPlus(s, r + 2) == Some(u) && PaddedSlashDate(s, u) == Some(u + 10)
    ensures TitleRange(s, p) == Some(u + 10)
  {
  }

  lemma PaddedStartsWithDigit(s: string, u: nat, b: Date)
    requires ValidDate(b) && u + 10 <= |s| && s[u..u + 10] == SlashPadded(b)
    ensures IsDigit(s[u])
  {
    SlashPaddedShape(b);
    assert s[u] == s[u..u + 10][0];
  }

  /** `\s+` over a non-empty run of whitespace ends where the run ends
      when a non-space follows. */
  lemma SpacesRun(s: string, q: nat, r: nat)
    requires q < r < |s| && !IsSpace(s[r])
    requires forall i :: q <= i < r ==> IsSpace(s[i])
    ensures SpacesPlus(s, q) == Some(r)
  {
  }

  // ---------------------------------------------------------------------------
  // Table start (find_table_start)

  /** A line naming all three of the date, time and type columns. */
  predicate IsHeaderLine(line: string) {
    var u := UpperStr(line);
    Contains(u, "OPERATION DATE") && Contains(u, "OPERATION TIME") && Contains(u, "OPERATION TYPE")
  }

  predicate IsTableLine(line: string) {
    IsHeaderLine(line) || StartsWithDate(line)
  }

  /** The first header or date line at or after `i`. */
  function FirstTableLine(lines: seq<string>, i: nat): (r: Option<nat>)
    requires i <= |lines|
    ensures r.Some? ==> i <= r.value < |lines| && IsTableLine(lines[r.value])
    ensures forall k :: i <= k < |lines| && (r.None? || k < r.value) ==> !IsTableLine(lines[k])
    decreases |lines| - i
  {
    if i == |lines| then None
    else if IsTableLine(lines[i]) then Some(i)
    else FirstTableLine(lines, i + 1)
  }

  /** `find_table_start`: the line after the first header line, or the
      first line that starts with a date, whichever comes first; -1 when
      there is neither. */
  function TableStart(lines: seq<string>): (r: int)
    ensures -1 <= r <= |lines|
    ensures r == -1 <==> forall k :: 0 <= k < |lines| ==> !IsTableLine(lines[k])
    ensures r >= 0 ==>
      exists k :: 0 <= k < |lines| && IsTableLine(lines[k])
        && (forall j :: 0 <= j < k ==> !IsTableLine(lines[j]))
        && r == (if IsHeaderLine(lines[k]) then k + 1 else k)
  {
    match FirstTableLine(lines, 0)
    case None => -1
    case Some(k) => if IsHeaderLine(lines[k]) then k + 1 else k
  }

  method FindTableStart(lines: seq<string>) returns (r: int)
    ensures r == TableStart(lines)
  {
    for i := 0 to |lines|
      invariant FirstTableLine(lines, 0) == FirstTableLine(lines, i)
    {
      var line := lines[i];
      if IsHeaderLine(line) {
        return i + 1;
      }
      if StartsWithDate(line) {
        return i;
      }
    }
    return -1;
  }

  // ---------------------------------------------------------------------------
  // One operation block (parse_single_operation)

  /** A line that ends the block: it starts with a date, or it contains one
      of the phrases of the notes under the table. */
  predicate EndsBlock(line: string) {
    var l := LowerStr(line);
    StartsWithDate(line)
    || Contains(l, "settlement dates") || Contains(l, "for small value")
    || Contains(l, "the fncl") || Contains(l, "tentative schedule")
  }

  /** Where the block that started before `i` ends: at the first line from
      `i` on that ends it, or at the end of the lines. */
  function BlockEnd(lines: seq<string>, i: nat): (n: nat)
    requires i <= |lines|
    ensures i <= n <= |lines|
    decreases |lines| - i
  {
    if i == |lines| || EndsBlock(lines[i]) then i else BlockEnd(lines, i + 1)
  }

  /** `BlockEnd` stops at the first line from `i` on that ends the block. */
  lemma {:induction false} BlockEndStops(lines: seq<string>, i: nat)
    requires i <= |lines|
    ensures forall k :: i <= k < BlockEnd(lines, i) ==> !EndsBlock(lines[k])
    ensures BlockEnd(lines, i) < |lines| ==> EndsBlock(lines[BlockEnd(lines, i)])
    decreases |lines| - i
  {
    if i < |lines| && !EndsBlock(lines[i]) {
      BlockEndStops(lines, i + 1);
    }
  }

  /** The line loop of `parse_single_operation`: the first line and every
      following line up to the one that ends the block. */
  method CollectBlock(lines: seq<string>) returns (operationLines: seq<string>, consumed: nat)
    requires |lines| >= 1
    ensures consumed == BlockEnd(lines, 1)
    ensures operationLines == lines[..consumed]
  {
    operationLines := [lines[0]];
    consumed := 1;
    for i := 1 to |lines|
      invariant consumed == i && operationLines == lines[..i]
      invariant BlockEnd(lines, 1) == BlockEnd(lines, i)
    {
      if EndsBlock(lines[i]) {
        break;
      }
      operationLines := operationLines + [lines[i]];
      consumed := consumed + 1;
    }
  }

  /** The records of one operation as the three branches of
      `parse_single_operation` build them: securities paired with amounts
      when the counts agree, a single security with the first amount or
      else the maximum, several securities with their amount where there is
      one and the maximum after that, and nothing without securities. */
  function OperationRecords(date: string, time: string, opType: string, securities: seq<string>,
                            amounts: seq<string>, maximum: string, sourceDate: string): seq<MoaRecord>
  {
    if |securities| == |amounts| then
      seq(|securities|, i requires 0 <= i < |securities| =>
        MoaRow(date, time, opType, securities[i], amounts[i], maximum, sourceDate))
    else if |securities| == 1 then
      [MoaRow(date, time, opType, securities[0], if |amounts| > 0 then amounts[0] else maximum, maximum, sourceDate)]
    else if |securities| > 1 then
      seq(|securities|, i requires 0 <= i < |securities| =>
        MoaRow(date, time, opType, securities[i], if i < |amounts| then amounts[i] else maximum, maximum, sourceDate))
    else []
  }

  /** The three branches are one rule: one record per security, carrying
      the amount at the same position when there is one and the operation
      maximum otherwise. */
  lemma OperationRecordsFanOut(date: string, time: string, opType: string, securities: seq<string>,
                               amounts: seq<string>, maximum: string, sourceDate: string)
    ensures |OperationRecords(date, time, opType, securities, amounts, maximum, sourceDate)| == |securities|
    ensures forall i :: 0 <= i < |securities| ==>
      OperationRecords(date, time, opType, securities, amounts, maximum, sourceDate)[i]
      == MoaRow(date, time, opType, securities[i], if i < |amounts| then amounts[i] else maximum, maximum, sourceDate)
  {
    var r := OperationRecords(date, time, opType, securities, amounts, maximum, sourceDate);
    assert |r| == |securities|;
    forall i | 0 <= i < |securities|
      ensures r[i] == MoaRow(date, time, opType, securities[i], if i < |amounts| then amounts[i] else maximum, maximum, sourceDate)
    {
      if |securities| == |amounts| {
        assert i < |amounts|;
      } else if |securities| == 1 {
        assert i == 0 && (0 < |amounts| <==> i < |amounts|);
      } else {
        assert |securities| > 1;
      }
    }
  }

  /** The records of the block whose joined text is `combined`. */
  function BlockRecords(date: string, combined: string, sourceDate: string): seq<MoaRecord> {
    OperationRecords(date, ExtractTime(combined), ExtractOperationType(combined), SecuritiesOf(combined),
                     ExtractIndividualAmounts(combined), ExtractOperationMaximum(combined), sourceDate)
  }

  /** A block has one record per distinct security found in its text, and
      each record carries the block's date and the source date. */
  lemma BlockRecordsShape(date: string, combined: string, sourceDate: string)
    ensures |BlockRecords(date, combined, sourceDate)| == |SecuritiesOf(combined)|
    ensures forall k :: 0 <= k < |BlockRecords(date, combined, sourceDate)| ==>
      MoaGet(BlockRecords(date, combined, sourceDate)[k], MoaOperationDate) == date
      && MoaGet(BlockRecords(date, combined, sourceDate)[k], MoaSourceDate) == sourceDate
      && MoaGet(BlockRecords(date, combined, sourceDate)[k], MoaSecurity) == SecuritiesOf(combined)[k]
      && MoaGet(BlockRecords(date, combined, sourceDate)[k], MoaOperationMaximum) == ExtractOperationMaximum(combined)
  {
    OperationRecordsFanOut(date, ExtractTime(combined), ExtractOperationType(combined), SecuritiesOf(combined),
                           ExtractIndividualAmounts(combined), ExtractOperationMaximum(combined), sourceDate);
  }

  /** What becomes of a block, given its date and its joined text. The
      grouping of lines into blocks below is stated for any such function
      and used with `Build`; this keeps the grouping proofs apart from the
      extraction of each block. */
  type Builder = (string, string) -> seq<MoaRecord>

  function Build(sourceDate: string): Builder {
    (date: string, combined: string) => BlockRecords(date, combined, sourceDate)
  }

  /** Every record a builder makes carries the block's date and `sourceDate`. */
  ghost predicate Stamps(build: Builder, sourceDate: string) {
    forall date: string, combined: string, k: int :: 0 <= k < |build(date, combined)| ==>
      MoaGet(build(date, combined)[k], MoaOperationDate) == date
      && MoaGet(build(date, combined)[k], MoaSourceDate) == sourceDate
  }

  lemma BuildStamps(sourceDate: string)
    ensures Stamps(Build(sourceDate), sourceDate)
  {
    forall date: string, combined: string, k: int | 0 <= k < |Build(sourceDate)(date, combined)|
      ensures MoaGet(Build(sourceDate)(date, combined)[k], MoaOperationDate) == date
      ensures MoaGet(Build(sourceDate)(date, combined)[k], MoaSourceDate) == sourceDate
    {
      BlockRecordsShape(date, combined, sourceDate);
    }
  }

  /** `parse_single_operation`: nothing from no lines, nothing and one line
      consumed when the first line has no date, else the block's records
      and its length. */
  function SingleOperation(lines: seq<string>, build: Builder): (r: (seq<MoaRecord>, nat))
    ensures |lines| > 0 ==> 1 <= r.1 <= |lines|
  {
    if |lines| == 0 then ([], 0)
    else match SearchDate(lines[0])
      case None => ([], 1)
      case Some(date) =>
        var n := BlockEnd(lines, 1);
        (build(date, Join(lines[..n], " ")), n)
  }

  /** The block of `parse_single_operation` is the first line and the
      lines after it up to the first that ends it; a first line without a
      date is consumed alone and gives nothing. */
  lemma SingleOperationShape(lines: seq<string>, build: Builder)
    ensures var r := SingleOperation(lines, build);
      (|lines| == 0 ==> r == ([], 0))
      && (|lines| > 0 && SearchDate(lines[0]).None? ==> r == ([], 1))
      && (forall k :: 1 <= k < r.1 ==> !EndsBlock(lines[k]))
      && (0 < r.1 < |lines| && SearchDate(lines[0]).Some? ==> EndsBlock(lines[r.1]))
  {
    if |lines| > 0 {
      BlockEndStops(lines, 1);
    }
  }

  /** Every record of `parse_single_operation` carries the date found on
      the block's first line and the source date. */
  lemma SingleOperationStamps(lines: seq<string>, build: Builder, sourceDate: string)
    requires Stamps(build, sourceDate)
    ensures forall k :: 0 <= k < |SingleOperation(lines, build).0| ==>
      SearchDate(lines[0]) == Some(MoaGet(SingleOperation(lines, build).0[k], MoaOperationDate))
      && MoaGet(SingleOperation(lines, build).0[k], MoaSourceDate) == sourceDate
  {
  }

  /** `parse_single_operation` emits one record per distinct security of
      its block. */
  lemma SingleOperationCount(lines: seq<string>, sourceDate: string)
    requires |lines| > 0 && SearchDate(lines[0]).Some?
    ensures var n := BlockEnd(lines, 1);
      |SingleOperation(lines, Build(sourceDate)).0| == |SecuritiesOf(Join(lines[..n], " "))|
  {
    BlockRecordsShape(SearchDate(lines[0]).value, Join(lines[..BlockEnd(lines, 1)], " "), sourceDate);
  }

  method ParseSingleOperation(lines: seq<string>, build: Builder) returns (ops: seq<MoaRecord>, consumed: nat)
    ensures (ops, consumed) == SingleOperation(lines, build)
  {
    if |lines| == 0 {
      return [], 0;
    }
    var date := SearchDate(lines[0]);
    if date.None? {
      return [], 1;
    }
    var operationLines;
    operationLines, consumed := CollectBlock(lines);
    ops := build(date.value, Join(operationLines, " "));
  }

  // ---------------------------------------------------------------------------
  // Exact format (parse_exact_format)

  /** The operations of `parse_exact_format` from line `i` on: a line that
      starts with a date opens a block, which is consumed whole; any other
      line is skipped. */
  function ExactFrom(lines: seq<string>, i: nat, build: Builder): seq<MoaRecord>
    requires i <= |lines|
    decreases |lines| - i
  {
    if i == |lines| then []
    else
      var step := ExactHead(lines, i, build);
      step.0 + ExactFrom(lines, i + step.1, build)
  }

  /** What one turn of the loop of `parse_exact_format` emits at line `i`,
      and how many lines it consumes. */
  function ExactHead(lines: seq<string>, i: nat, build: Builder): (r: (seq<MoaRecord>, nat))
    requires i < |lines|
    ensures 1 <= r.1 <= |lines| - i
  {
    if DateAtStart(lines[i]).Some? then SingleOperation(lines[i..], build) else ([], 1)
  }

  /** One block or one skipped line: what `ExactHead` emits comes first. */
  lemma ExactFromStep(lines: seq<string>, i: nat, build: Builder, ops: seq<MoaRecord>, n: nat)
    requires i < |lines|
    requires (ops, n) == ExactHead(lines, i, build)
    ensures i + n <= |lines|
    ensures ExactFrom(lines, i, build) == ops + ExactFrom(lines, i + n, build)
  {
    ExactFromUnfold(lines, i, build);
  }

  lemma ExactFromUnfold(lines: seq<string>, i: nat, build: Builder)
    requires i < |lines|
    ensures ExactFrom(lines, i, build) == ExactHead(lines, i, build).0 + ExactFrom(lines, i + ExactHead(lines, i, build).1, build)
  {
  }

  lemma ExactHeadBlock(lines: seq<string>, i: nat, build: Builder)
    requires i < |lines| && DateAtStart(lines[i]).Some?
    ensures ExactHead(lines, i, build) == SingleOperation(lines[i..], build)
  {
  }

  lemma ExactHeadSkip(lines: seq<string>, i: nat, build: Builder)
    requires i < |lines| && DateAtStart(lines[i]).None?
    ensures ExactHead(lines, i, build) == ([], 1)
  {
  }

  /** Every record of `r` carries the source date and a date that
      `SearchDate` finds on one of the lines from `i` on. */
  ghost predicate FromLines(r: seq<MoaRecord>, lines: seq<string>, i: nat, sourceDate: string) {
    forall k :: 0 <= k < |r| ==>
      MoaGet(r[k], MoaSourceDate) == sourceDate
      && exists j :: i <= j < |lines| && SearchDate(lines[j]) == Some(MoaGet(r[k], MoaOperationDate))
  }

  lemma FromLinesConcat(a: seq<MoaRecord>, b: seq<MoaRecord>, lines: seq<string>, i: nat, i2: nat, sourceDate: string)
    requires i <= i2
    requires FromLines(a, lines, i, sourceDate) && FromLines(b, lines, i2, sourceDate)
    ensures FromLines(a + b, lines, i, sourceDate)
  {
    forall k | 0 <= k < |a + b|
      ensures MoaGet((a + b)[k], MoaSourceDate) == sourceDate
      ensures exists j :: i <= j < |lines| && SearchDate(lines[j]) == Some(MoaGet((a + b)[k], MoaOperationDate))
    {
      if k < |a| {
        assert (a + b)[k] == a[k];
      } else {
        assert (a + b)[k] == b[k - |a|];
        var j :| i2 <= j < |lines| && SearchDate(lines[j]) == Some(MoaGet(b[k - |a|], MoaOperationDate));
      }
    }
  }

  lemma SingleOperationFromLines(lines: seq<string>, i: nat, build: Builder, sourceDate: string, r: seq<MoaRecord>)
    requires i < |lines| && Stamps(build, sourceDate)
    requires r == SingleOperation(lines[i..], build).0
    ensures FromLines(r, lines, i, sourceDate)
  {
    SingleOperationStamps(lines[i..], build, sourceDate);
    assert lines[i..][0] == lines[i];
    forall k | 0 <= k < |r|
      ensures exists j :: i <= j < |lines| && SearchDate(lines[j]) == Some(MoaGet(r[k], MoaOperationDate))
    {
      assert SearchDate(lines[i]) == Some(MoaGet(r[k], MoaOperationDate));
    }
  }

  /** The records of one turn carry the source date and the date of line `i`. */
  lemma ExactHeadFromLines(lines: seq<string>, i: nat, build: Builder, sourceDate: string)
    requires i < |lines| && Stamps(build, sourceDate)
    ensures FromLines(ExactHead(lines, i, build).0, lines, i, sourceDate)
  {
    if DateAtStart(lines[i]).Some? {
      ExactHeadBlock(lines, i, build);
      SingleOperationFromLines(lines, i, build, sourceDate, ExactHead(lines, i, build).0);
    } else {
      ExactHeadSkip(lines, i, build);
    }
  }

  /** Every record of the exact format carries the source date and the
      date of one of the lines it was parsed from. */
  lemma {:induction false} ExactStamps(lines: seq<string>, i: nat, build: Builder, sourceDate: string)
    requires i <= |lines|
    requires Stamps(build, sourceDate)
    ensures FromLines(ExactFrom(lines, i, build), lines, i, sourceDate)
    decreases |lines| - i
  {
    if i < |lines| {
      var (ops, n) := ExactHead(lines, i, build);
      ExactFromStep(lines, i, build, ops, n);
      ExactHeadFromLines(lines, i, build, sourceDate);
      ExactStamps(lines, i + n, build, sourceDate);
      FromLinesConcat(ops, ExactFrom(lines, i + n, build), lines, i, i + n, sourceDate);
    }
  }

  /** One turn of the loop of `parse_exact_format`: the block that starts
      at line `i`, or the skipped line. */
  method ExactStep(lines: seq<string>, i: nat, build: Builder) returns (emitted: seq<MoaRecord>, consumed: nat)
    requires i < |lines|
    ensures (emitted, consumed) == ExactHead(lines, i, build)
  {
    if DateAtStart(lines[i]).Some? {
      emitted, consumed := ParseSingleOperation(lines[i..], build);
      ExactHeadBlock(lines, i, build);
    } else {
      ExactHeadSkip(lines, i, build);
      emitted, consumed := [], 1;
    }
  }

  /** The invariant of `parse_exact_format`'s loop survives one turn. */
  lemma ExactLoopStep(lines: seq<string>, i: nat, build: Builder, ops: seq<MoaRecord>, emitted: seq<MoaRecord>, n: nat)
    requires i < |lines| && (emitted, n) == ExactHead(lines, i, build)
    requires ops + ExactFrom(lines, i, build) == ExactFrom(lines, 0, build)
    ensures i < i + n <= |lines|
    ensures (ops + emitted) + ExactFrom(lines, i + n, build) == ExactFrom(lines, 0, build)
  {
    ExactFromStep(lines, i, build, emitted, n);
    AppendAssoc(ops, emitted, ExactFrom(lines, i + n, build));
  }

  /** `parse_exact_format`; every step moves the index forward. */
  method ParseExactFormat(dataLines: seq<string>, build: Builder) returns (operations: seq<MoaRecord>)
    ensures operations == ExactFrom(dataLines, 0, build)
  {
    operations := [];
    var i := 0;
    while i < |dataLines|
      invariant i <= |dataLines|
      invariant operations + ExactFrom(dataLines, i, build) == ExactFrom(dataLines, 0, build)
      decreases |dataLines| - i
    {
      var operationData;
      var consumed;
      operationData, consumed := ExactStep(dataLines, i, build);
      ExactLoopStep(dataLines, i, build, operations, operationData, consumed);
      i := i + consumed;
      operations := operations + operationData;
    }
  }

  // ---------------------------------------------------------------------------
  // Fallback format (parse_fallback_format)

  /** A line naming any of the date, time or type columns. */
  predicate MentionsHeader(line: string) {
    var u := UpperStr(line);
    Contains(u, "OPERATION DATE") || Contains(u, "OPERATION TIME") || Contains(u, "OPERATION TYPE")
  }

  /** A line of the notes under the table. */
  predicate IsFooter(line: string) {
    var l := LowerStr(line);
    Contains(l, "settlement dates for tba") || Contains(l, "for small value purchase")
    || Contains(l, "the fncl and fnci") || Contains(l, "tentative schedule")
  }

  /** The table rows from line `i` on: stripped non-empty lines after a
      header line, up to the first footer line; header lines themselves
      are skipped. */
  function TableRowsFrom(lines: seq<string>, i: nat, inTable: bool): seq<string>
    requires i <= |lines|
    decreases |lines| - i
  {
    if i == |lines| then []
    else
      var line := Strip(lines[i]);
      if line == "" then TableRowsFrom(lines, i + 1, inTable)
      else if MentionsHeader(line) then TableRowsFrom(lines, i + 1, true)
      else if inTable then
        if IsFooter(line) then [] else [line] + TableRowsFrom(lines, i + 1, true)
      else TableRowsFrom(lines, i + 1, false)
  }

  /** A table row is never blank, a header line or a footer line. */
  lemma {:induction false} TableRowsAreData(lines: seq<string>, i: nat, inTable: bool)
    requires i <= |lines|
    ensures forall k :: 0 <= k < |TableRowsFrom(lines, i, inTable)| ==>
      var row := TableRowsFrom(lines, i, inTable)[k];
      row != "" && !MentionsHeader(row) && !IsFooter(row)
    decreases |lines| - i
  {
    if i < |lines| {
      var line := Strip(lines[i]);
      if line == "" {
        TableRowsAreData(lines, i + 1, inTable);
      } else if MentionsHeader(line) {
        TableRowsAreData(lines, i + 1, true);
      } else if inTable && !IsFooter(line) {
        TableRowsAreData(lines, i + 1, true);
        var rest := TableRowsFrom(lines, i + 1, true);
        assert TableRowsFrom(lines, i, inTable) == [line] + rest;
        forall k | 0 < k < |[line] + rest|
          ensures ([line] + rest)[k] == rest[k - 1]
        {
        }
      } else if !inTable {
        TableRowsAreData(lines, i + 1, false);
      }
    }
  }

  /** The body of the first loop of `parse_fallback_format`: a blank line is
      skipped, a header line opens the table, a footer line inside it ends
      the loop, and any other line inside it is a row. */
  method TableRowStep(lines: seq<string>, i: nat, inTable: bool, rows: seq<string>)
    returns (rows': seq<string>, inTable': bool, stop: bool)
    requires i < |lines|
    ensures stop ==> rows' == rows + TableRowsFrom(lines, i, inTable)
    ensures !stop ==> rows' + TableRowsFrom(lines, i + 1, inTable') == rows + TableRowsFrom(lines, i, inTable)
  {
    rows', inTable', stop := rows, inTable, false;
    var line := Strip(lines[i]);
    if line == "" {
      return;
    }
    if MentionsHeader(line) {
      inTable' := true;
      return;
    }
    if inTable {
      if IsFooter(line) {
        stop := true;
        return;
      }
      rows' := rows + [line];
    }
  }

  /** The first loop of `parse_fallback_format`. */
  method CollectTableRows(lines: seq<string>) returns (tableRows: seq<string>)
    ensures tableRows == TableRowsFrom(lines, 0, false)
  {
    tableRows := [];
    var inTable := false;
    var i := 0;
    while i < |lines|
      invariant i <= |lines|
      invariant tableRows + TableRowsFrom(lines, i, inTable) == TableRowsFrom(lines, 0, false)
    {
      var stop;
      tableRows, inTable, stop := TableRowStep(lines, i, inTable, tableRows);
      if stop {
        return;
      }
      i := i + 1;
    }
  }

  /** What one table row contributes: its time, its type, its securities
      and the digits of its `$N Million` amounts. */
  datatype RowInfo = RowInfo(time: string, opType: string, securities: seq<string>, amounts: seq<string>)

  predicate DigitGroups(amounts: seq<string>) {
    forall i :: 0 <= i < |amounts| ==> AllDigits(amounts[i])
  }

  function ReadRow(row: string): (info: RowInfo)
    ensures DigitGroups(info.amounts)
  {
    RowInfo(ExtractTime(row), ExtractOperationType(row), SecuritiesOf(row), AllMillions(row))
  }

  /** A row reader whose amounts are always digit strings, so `int()`
      accepts them. `ReadRow` is one; the scanner below is stated for any. */
  ghost predicate DigitReader(read: string -> RowInfo) {
    forall row: string :: DigitGroups(read(row).amounts)
  }

  lemma ReadRowDigits()
    ensures DigitReader(ReadRow)
  {
  }

  /** The `current_operation` dict: the block being gathered across rows. */
  datatype Block = Block(date: string, time: string, opType: string, securities: seq<string>, amounts: seq<string>)

  /** A row with a date opens a block with that row's time, type,
      securities and amounts. */
  function StartBlock(date: string, info: RowInfo): Block {
    Block(date, info.time, info.opType, info.securities, info.amounts)
  }

  /** A continuation row adds its securities and amounts to the block. */
  function ExtendBlock(b: Block, info: RowInfo): (r: Block)
    ensures r.date == b.date && r.time == b.time && r.opType == b.opType
    ensures r.securities == b.securities + info.securities && r.amounts == b.amounts + info.amounts
  {
    b.(securities := b.securities + info.securities, amounts := b.amounts + info.amounts)
  }

  /** `f"${amount} Million"` for a raw digits group (leading zeros kept). */
  function RawLabel(digits: string): string {
    "$" + digits + " Million"
  }

  function AmountValues(amounts: seq<string>): (r: seq<nat>)
    requires DigitGroups(amounts)
    ensures |r| == |amounts|
  {
    seq(|amounts|, i requires 0 <= i < |amounts| => DigitsValue(amounts[i]))
  }

  /** The time and type of a block, with the defaults for empty ones. */
  function BlockTime(b: Block): string {
    if b.time != "" then b.time else DefaultTime
  }

  function BlockType(b: Block): string {
    if b.opType != "" then b.opType else DefaultType
  }

  /** The record of the `i`-th security of a finished block: its type is
      the security's own when it names one, its amount is the one at the
      same position or else the block's maximum. */
  function SecurityRecord(b: Block, i: nat, maximum: string, sourceDate: string): MoaRecord
    requires i < |b.securities|
  {
    MoaRow(b.date, BlockTime(b), TypeFromSecurity(b.securities[i], BlockType(b)), b.securities[i],
           if i < |b.amounts| then RawLabel(b.amounts[i]) else maximum, maximum, sourceDate)
  }

  /** `finalize_operation`: without securities, one record with an empty
      security and the first amount if any; otherwise one record per
      security. */
  function FinalizeOperation(b: Block, sourceDate: string): (r: seq<MoaRecord>)
    requires DigitGroups(b.amounts)
    ensures |r| == if |b.securities| == 0 then 1 else |b.securities|
  {
    var maximum := MaximumLabel(AmountValues(b.amounts));
    if |b.securities| == 0 then
      [MoaRow(b.date, BlockTime(b), BlockType(b), "", if |b.amounts| > 0 then RawLabel(b.amounts[0]) else "",
              maximum, sourceDate)]
    else
      seq(|b.securities|, i requires 0 <= i < |b.securities| => SecurityRecord(b, i, maximum, sourceDate))
  }

  /** The records of a finished block: all carry its date, the source date
      and the largest amount; with securities, each record is a security
      with its own type override and its amount or the maximum. */
  lemma FinalizeRecords(b: Block, sourceDate: string)
    requires DigitGroups(b.amounts)
    ensures |b.securities| == 0 ==>
      MoaGet(FinalizeOperation(b, sourceDate)[0], MoaSecurity) == ""
      && MoaGet(FinalizeOperation(b, sourceDate)[0], MoaOperationType) == BlockType(b)
    ensures forall i :: 0 <= i < |b.securities| ==>
      MoaGet(FinalizeOperation(b, sourceDate)[i], MoaSecurity) == b.securities[i]
      && MoaGet(FinalizeOperation(b, sourceDate)[i], MoaOperationType) == TypeFromSecurity(b.securities[i], BlockType(b))
      && MoaGet(FinalizeOperation(b, sourceDate)[i], MoaSecurityMaximum)
         == if i < |b.amounts| then RawLabel(b.amounts[i]) else MaximumLabel(AmountValues(b.amounts))
    ensures forall i :: 0 <= i < |FinalizeOperation(b, sourceDate)| ==>
      MoaGet(FinalizeOperation(b, sourceDate)[i], MoaOperationDate) == b.date
      && MoaGet(FinalizeOperation(b, sourceDate)[i], MoaSourceDate) == sourceDate
      && MoaGet(FinalizeOperation(b, sourceDate)[i], MoaOperationTime) == BlockTime(b)
      && MoaGet(FinalizeOperation(b, sourceDate)[i], MoaOperationMaximum) == MaximumLabel(AmountValues(b.amounts))
  {
    var r := FinalizeOperation(b, sourceDate);
    var maximum := MaximumLabel(AmountValues(b.amounts));
    forall i | 0 <= i < |r|
      ensures MoaGet(r[i], MoaOperationDate) == b.date && MoaGet(r[i], MoaSourceDate) == sourceDate
      ensures MoaGet(r[i], MoaOperationTime) == BlockTime(b) && MoaGet(r[i], MoaOperationMaximum) == maximum
    {
      if |b.securities| > 0 {
        assert r[i] == SecurityRecord(b, i, maximum, sourceDate);
      }
    }
  }

  /** The records of the block being gathered, if there is one. */
  function Flush(current: Option<Block>, sourceDate: string): seq<MoaRecord>
    requires current.Some? ==> DigitGroups(current.value.amounts)
  {
    if current.Some? then FinalizeOperation(current.value, sourceDate) else []
  }

  /** One row of the second loop: what it emits and the block after it. A
      row with a date closes the current block and opens a new one; any
      other row extends the current block, or is dropped before the
      first block. */
  function RowStep(row: string, current: Option<Block>, sourceDate: string, read: string -> RowInfo)
    : (r: (seq<MoaRecord>, Option<Block>))
    requires DigitReader(read)
    requires current.Some? ==> DigitGroups(current.value.amounts)
    ensures r.1.Some? ==> DigitGroups(r.1.value.amounts)
  {
    match SearchDate(row)
    case Some(date) => (Flush(current, sourceDate), Some(StartBlock(date, read(row))))
    case None => ([], if current.Some? then Some(ExtendBlock(current.value, read(row))) else None)
  }

  /** The records of the second loop from row `i` on, with the block
      gathered so far. */
  function FallbackFrom(rows: seq<string>, i: nat, current: Option<Block>, sourceDate: string,
                        read: string -> RowInfo): seq<MoaRecord>
    requires i <= |rows|
    requires DigitReader(read)
    requires current.Some? ==> DigitGroups(current.value.amounts)
    decreases |rows| - i
  {
    if i == |rows| then Flush(current, sourceDate)
    else
      var step := RowStep(rows[i], current, sourceDate, read);
      step.0 + FallbackFrom(rows, i + 1, step.1, sourceDate, read)
  }

  lemma FallbackFromStep(rows: seq<string>, i: nat, current: Option<Block>, sourceDate: string,
                         read: string -> RowInfo, emitted: seq<MoaRecord>, next: Option<Block>)
    requires i < |rows| && DigitReader(read)
    requires current.Some? ==> DigitGroups(current.value.amounts)
    requires (emitted, next) == RowStep(rows[i], current, sourceDate, read)
    ensures next.Some? ==> DigitGroups(next.value.amounts)
    ensures FallbackFrom(rows, i, current, sourceDate, read)
      == emitted + FallbackFrom(rows, i + 1, next, sourceDate, read)
  {
  }

  /** Every record of the fallback scanner carries the source date. */
  lemma {:induction false} FallbackStamps(rows: seq<string>, i: nat, current: Option<Block>, sourceDate: string,
                                          read: string -> RowInfo)
    requires i <= |rows| && DigitReader(read)
    requires current.Some? ==> DigitGroups(current.value.amounts)
    ensures forall k :: 0 <= k < |FallbackFrom(rows, i, current, sourceDate, read)| ==>
      MoaGet(FallbackFrom(rows, i, current, sourceDate, read)[k], MoaSourceDate) == sourceDate
    decreases |rows| - i
  {
    if i == |rows| {
      if current.Some? {
        FinalizeRecords(current.value, sourceDate);
      }
    } else {
      var step := RowStep(rows[i], current, sourceDate, read);
      var rest := FallbackFrom(rows, i + 1, step.1, sourceDate, read);
      FallbackStamps(rows, i + 1, step.1, sourceDate, read);
      RowStepStamps(rows[i], current, sourceDate, read);
      assert FallbackFrom(rows, i, current, sourceDate, read) == step.0 + rest;
      StampedConcat(step.0, rest, sourceDate);
    }
  }

  /** What one row emits carries the source date. */
  lemma RowStepStamps(row: string, current: Option<Block>, sourceDate: string, read: string -> RowInfo)
    requires DigitReader(read)
    requires current.Some? ==> DigitGroups(current.value.amounts)
    ensures var emitted := RowStep(row, current, sourceDate, read).0;
      forall k :: 0 <= k < |emitted| ==> MoaGet(emitted[k], MoaSourceDate) == sourceDate
  {
    if current.Some? {
      FinalizeRecords(current.value, sourceDate);
    }
  }

  lemma StampedConcat(a: seq<MoaRecord>, b: seq<MoaRecord>, sourceDate: string)
    requires forall k :: 0 <= k < |a| ==> MoaGet(a[k], MoaSourceDate) == sourceDate
    requires forall k :: 0 <= k < |b| ==> MoaGet(b[k], MoaSourceDate) == sourceDate
    ensures forall k :: 0 <= k < |a + b| ==> MoaGet((a + b)[k], MoaSourceDate) == sourceDate
  {
    forall k | 0 <= k < |a + b|
      ensures MoaGet((a + b)[k], MoaSourceDate) == sourceDate
    {
      if k >= |a| {
        assert (a + b)[k] == b[k - |a|];
      } else {
        assert (a + b)[k] == a[k];
      }
    }
  }

  /** `parse_fallback_format` */
  function FallbackOperations(text: string, sourceDate: string): seq<MoaRecord> {
    ReadRowDigits();
    FallbackFrom(TableRowsFrom(Split(text, '\n'), 0, false), 0, None, sourceDate, ReadRow)
  }

  /** One row of the second loop of `parse_fallback_format`. */
  method ScanRow(row: string, current: Option<Block>, sourceDate: string, read: string -> RowInfo)
    returns (emitted: seq<MoaRecord>, next: Option<Block>)
    requires DigitReader(read)
    requires current.Some? ==> DigitGroups(current.value.amounts)
    ensures (emitted, next) == RowStep(row, current, sourceDate, read)
  {
    emitted := [];
    next := current;
    var dateMatch := SearchDate(row);
    if dateMatch.Some? {
      emitted := Flush(current, sourceDate);
      next := Some(StartBlock(dateMatch.value, read(row)));
    } else if current.Some? {
      next := Some(ExtendBlock(current.value, read(row)));
    }
  }

  /** The second loop of `parse_fallback_format` and the final flush. */
  method ScanRows(rows: seq<string>, sourceDate: string, read: string -> RowInfo) returns (operations: seq<MoaRecord>)
    requires DigitReader(read)
    ensures operations == FallbackFrom(rows, 0, None, sourceDate, read)
  {
    operations := [];
    var current: Option<Block> := None;
    for i := 0 to |rows|
      invariant current.Some? ==> DigitGroups(current.value.amounts)
      invariant operations + FallbackFrom(rows, i, current, sourceDate, read)
        == FallbackFrom(rows, 0, None, sourceDate, read)
    {
      var emitted, next := ScanRow(rows[i], current, sourceDate, read);
      FallbackFromStep(rows, i, current, sourceDate, read, emitted, next);
      operations := operations + emitted;
      current := next;
    }
    if current.Some? {
      operations := operations + FinalizeOperation(current.value, sourceDate);
    }
  }

  method ParseFallbackFormat(text: string, sourceDate: string) returns (operations: seq<MoaRecord>)
    ensures operations == FallbackOperations(text, sourceDate)
  {
    ReadRowDigits();
    var tableRows := CollectTableRows(Split(text, '\n'));
    operations := ScanRows(tableRows, sourceDate, ReadRow);
  }

  // ---------------------------------------------------------------------------
  // The whole text (parse_tabular_data)

  /** `[line.strip() for line in lines if line.strip()]` */
  function StrippedLines(lines: seq<string>): (r: seq<string>)
    ensures forall k :: 0 <= k < |r| ==> r[k] != ""
  {
    if |lines| == 0 then []
    else
      var line := Strip(lines[|lines| - 1]);
      StrippedLines(lines[..|lines| - 1]) + (if line != "" then [line] else [])
  }

  /** `parse_tabular_data`: no operations without a table start; else the
      exact format from the table start, and the fallback scanner over the
      whole text when that finds nothing. */
  function TabularOperations(text: string, today: Date): seq<MoaRecord>
    requires ValidDate(today)
  {
    var sourceDate := SourceDate(text, today);
    var lines := StrippedLines(Split(text, '\n'));
    var start := TableStart(lines);
    if start == -1 then []
    else
      var operations := ExactFrom(lines[start..], 0, Build(sourceDate));
      if |operations| > 0 then operations else FallbackOperations(text, sourceDate)
  }

  method ParseTabularData(text: string, today: Date) returns (operations: seq<MoaRecord>)
    requires ValidDate(today)
    ensures operations == TabularOperations(text, today)
  {
    var sourceDate := SourceDate(text, today);
    var lines := StrippedLines(Split(text, '\n'));
    var tableStartIdx := FindTableStart(lines);
    if tableStartIdx == -1 {
      return [];
    }
    operations := ParseExactFormat(lines[tableStartIdx..], Build(sourceDate));
    if |operations| == 0 {
      operations := ParseFallbackFormat(text, sourceDate);
    }
  }

  /** Every record of a document carries the document's source date. */
  lemma TabularSourceDate(text: string, today: Date)
    requires ValidDate(today)
    ensures forall k :: 0 <= k < |TabularOperations(text, today)| ==>
      MoaGet(TabularOperations(text, today)[k], MoaSourceDate) == SourceDate(text, today)
  {
    var sourceDate := SourceDate(text, today);
    var lines := StrippedLines(Split(text, '\n'));
    var start := TableStart(lines);
    if start != -1 {
      BuildStamps(sourceDate);
      ExactStamps(lines[start..], 0, Build(sourceDate), sourceDate);
      ReadRowDigits();
      FallbackStamps(TableRowsFrom(Split(text, '\n'), 0, false), 0, None, sourceDate, ReadRow);
    }
  }
}
