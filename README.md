# FRBNY open-market-operations scraper: a Dafny model

This project models the record-building core of the scraper that collects the
Federal Reserve Bank of New York's operation schedules. It covers two kinds of
operation:

- Treasury operations (TOA), parsed by `CombinedFRBNYScraper`.
- Agency mortgage-backed-securities operations (MOA), parsed by `FEDAOParser`.

It also models the driver `IntegratedFRBNYScraper`. That part collects the PDF
links, names the downloaded files, decides which parser reads each PDF and
orders the rows of the two CSV outputs.

Every regular expression the core uses is written out as a scanner over
`string`. Every loop of the program is a `method` proved equal to a
specification function. The properties the program relies on are proved about
those functions.

| file | module | what it holds |
|---|---|---|
| `maybe.dfy` | `Maybe` | `Option` |
| `text.dfy` | `Text` | Python string operations: `strip`, `in`, `find`, `split`, `join`, `upper`/`lower`, `str(int)`/`int(str)` |
| `patterns.dfy` | `Patterns` | `re.search` / `re.findall` over anchored matchers, and each pattern the program uses |
| `dates.dfy` | `Dates` | `datetime.strptime` for `%m/%d/%Y` and `%Y%m%d`, with the backtracking order of its regular expressions; `strftime`; the two date validators |
| `records.dfy` | `Records` | operation dicts as maps; the Treasury and mortgage field names |
| `amount.dfy` | `AmountParser` | `parse_maximum_operation_size` |
| `toa_parser.dfy` | `TreasuryParser` | release-date cascade, CSV mapping and filter, PDF table walk, text fallback, output standardization and cleaning; class `TreasuryScraper` with `data` and `source_type` |
| `moa_extract.dfy` | `MortgageExtract` | time, type, securities (known, general, contextual passes, ticker repairs), amounts and maximum |
| `moa_parser.dfy` | `MortgageParser` | source date, table start, exact format, single-operation blocks, fallback scanner, `finalize_operation` |
| `sorting.dfy` | `Sorting` | Python's stable `sorted` with a key of string tuples |
| `scraper.dfy` | `Scraper` | `urlparse(...).path`, file naming, source hints, `detect_pdf_type`, link collection; class `IntegratedScraper` with the three URL sets; CSV row order |

The parts that touch the outside world become parameters:

- The current date is a `today: Date` parameter.
- The three online release-date strategies are given as the dates they found.
- A PDF is given as the pages its reader returned: a table and a text per page.
- A web page is given as the `href`s of the link lists the scraper queries.

The functions that extract values from an operation's text take the text
alone. The block and row scanners are stated for any extractor (`Builder`,
`read`, `parse`) and then applied to the program's own extractor. This keeps
the proofs about grouping apart from the proofs about extraction.

## Model

| member | source | states |
|---|---|---|
| Text.Find | src/functions/scrape_fedao_sources/fedao_parser.py:380 | `text.find(sub)` is non-negative exactly when `sub` occurs in the text, and is then its first occurrence |
| Text.StripIdempotent | src/functions/scrape_fedao_sources/frbny_parser.py:1204 | `strip()` leaves no whitespace at either end, and stripping again changes nothing |
| Text.DecimalRoundTrip | src/functions/scrape_fedao_sources/fedao_parser.py:411 | `int(str(n)) == n` for every non-negative integer |
| Text.CanonicalDigits | src/functions/scrape_fedao_sources/frbny_parser.py:433 | a digit string without a leading zero is its own `str(int(...))` |
| Patterns.SearchFrom | src/functions/scrape_fedao_sources/fedao_parser.py:257-264 | `re.search`: the reported match starts at the leftmost position where the pattern matches, and no position before it matches |
| Patterns.FindAllFrom | src/functions/scrape_fedao_sources/fedao_parser.py:405 | `re.findall`: every reported span is a match inside the text, the spans are in order and do not overlap, the first is the leftmost match and each later one is the leftmost match at or after the end of the one before; the list is empty exactly when nothing matches |
| Patterns.FindAllComplete | src/functions/scrape_fedao_sources/fedao_parser.py:405 | `re.findall` misses no match: every position where the pattern matches lies inside a reported span |
| Patterns.AllMillions | src/functions/scrape_fedao_sources/fedao_parser.py:405 | every group of `\$(\d+)\s+Million` is a non-empty string of digits, so `int()` accepts it |
| Patterns.Number | src/functions/scrape_fedao_sources/frbny_parser.py:1092 | the group `\d+(?:\.\d+)?` starts and ends with a digit and holds only digits and points |
| Patterns.DollarScaled | src/functions/scrape_fedao_sources/frbny_parser.py:1092 | a match is a number after `$`, then `million` or `billion` in any case, ending where the word ends |
| Patterns.BareScaled | src/functions/scrape_fedao_sources/frbny_parser.py:1098 | a match is a number, then `million` or `billion` in any case, ending where the word ends |
| Dates.ParseSlashDate | src/functions/scrape_fedao_sources/frbny_parser.py:335-336 | `strptime(s, '%m/%d/%Y')` yields only real calendar dates; `None` stands for the `ValueError` |
| Dates.ParseCompactDate | src/functions/scrape_fedao_sources/frbny_parser.py:365 | `strptime(s, '%Y%m%d')` yields only real calendar dates; `None` stands for the `ValueError` |
| Dates.Compact | src/functions/scrape_fedao_sources/fedao_parser.py:58 | `strftime('%Y%m%d')` is eight digits |
| Dates.ReleaseString | src/functions/scrape_fedao_sources/frbny_parser.py:433 | `str(int(strftime('%Y%m%d')))` is a non-empty string of digits |
| Dates.CompactRoundTrip | src/functions/scrape_fedao_sources/fedao_parser.py:57-58 | every valid date survives `strftime('%Y%m%d')` followed by `strptime` with the same format |
| Dates.SlashRoundTrip | src/functions/scrape_fedao_sources/fedao_parser.py:53-57 | every valid date survives `strftime('%m/%d/%Y')` followed by `strptime` with the same format |
| Dates.ReleaseStringIsCompact | src/functions/scrape_fedao_sources/frbny_parser.py:433 | for years 1000 to 9999 the `int()` round trip drops nothing: the release string is the eight-digit form |
| Dates.ReleaseStringValue | src/functions/scrape_fedao_sources/frbny_parser.py:433-435 | the release string, and `int()` of it as stamped at line 452, is the number yyyymmdd of its date |
| Dates.ReleaseStringParses | src/functions/scrape_fedao_sources/frbny_parser.py:396 | a release string parses back to its own date under `%Y%m%d` |
| Dates.OrdinalOrder | src/functions/scrape_fedao_sources/frbny_parser.py:343-345 | calendar order and day-count order agree, so `(end - start).days` is positive exactly when end is later |
| Dates.DatePairAcceptedMeans | src/functions/scrape_fedao_sources/frbny_parser.py:332-360 | a date pair is accepted exactly when both parse, both years are the current year or later, and the end is 1 to 365 days after the start; an accepted end is strictly later |
| Dates.ReasonableMeansYearWindow | src/functions/scrape_fedao_sources/frbny_parser.py:362-387 | a release date is accepted exactly when it parses and its year is last year, this year or one of the next two, however far it is from today |
| AmountParser.Currency | src/functions/scrape_fedao_sources/frbny_parser.py:91-92 | the currency is the longest prefix of characters that are neither digits nor whitespace, and empty when the text starts with either |
| AmountParser.MultiplierAt | src/functions/scrape_fedao_sources/frbny_parser.py:95-100 | the multiplier is one of million, billion, trillion, thousand or the empty string |
| AmountParser.SizeValue | src/functions/scrape_fedao_sources/frbny_parser.py:106-114 | a size `float()` accepts, once its commas are removed, becomes exactly the number the text denotes, and an integer exactly when every digit of the fraction is zero; one it rejects is kept as the matched text |
| AmountParser.Converted | src/functions/scrape_fedao_sources/frbny_parser.py:108-112 | `float()` then `is_integer()`: the number `whole.frac` denotes, an integer exactly when the fraction is all zeros, otherwise a decimal without trailing zeros |
| AmountParser.TrimZerosValue | src/functions/scrape_fedao_sources/frbny_parser.py:108-112 | dropping trailing zeros of a fraction keeps the number it denotes, and leaves nothing exactly when the fraction is all zeros |
| AmountParser.CommaGroupedSize | src/functions/scrape_fedao_sources/frbny_parser.py:108-110 | a comma-grouped integer such as "1,500" is read as the integer its digits spell |
| AmountParser.PointedSize | src/functions/scrape_fedao_sources/frbny_parser.py:108-112 | "whole.frac" is converted from its whole part and its fraction |
| AmountParser.ZeroFractionSize | src/functions/scrape_fedao_sources/frbny_parser.py:108-110 | "n.000" is read as the integer n |
| AmountParser.FractionSize | src/functions/scrape_fedao_sources/frbny_parser.py:108-112 | a fraction with a non-zero digit gives the decimal of the whole part's value and the fraction without its trailing zeros |
| AmountParser.ParseMaximumOperationSize | src/functions/scrape_fedao_sources/frbny_parser.py:80-118 | blank input gives three empty strings; the multiplier is always one of the five values |
| AmountParser.ParsedParts | src/functions/scrape_fedao_sources/frbny_parser.py:88-100 | the currency is the leading currency run of the stripped text, and a size kept as text is a piece of the lower-cased stripped text |
| AmountParser.DollarShape | src/functions/scrape_fedao_sources/frbny_parser.py:88-112 | a stripped lower-case `$<digits>...` cell gives currency `$`, the size of its number run and the word after it |
| AmountParser.IntegerAmountRoundTrip | src/functions/scrape_fedao_sources/frbny_parser.py:80-118 | `$<n> <unit>` parses back to (`$`, n, unit) for every n and unit |
| AmountParser.BlankAmount | src/functions/scrape_fedao_sources/frbny_parser.py:84-85 | whitespace-only input gives three empty strings |
| AmountParser.DecimalSize | src/functions/scrape_fedao_sources/frbny_parser.py:108-110 | the digits of `str(n)` are read as the integer n |
| Records.BlankOperation | src/functions/scrape_fedao_sources/frbny_parser.py:613-624 | the blank Treasury operation has exactly the ten keys, each an empty string |
| Records.MoaRow | src/functions/scrape_fedao_sources/fedao_parser.py:213-221 | a mortgage record has exactly the seven columns, holding the given values |
| TreasuryParser.ParsedField | src/functions/scrape_fedao_sources/frbny_parser.py:423-430 | a field gives at most one date, a valid one; a field that does not parse gives none |
| TreasuryParser.FieldDates | src/functions/scrape_fedao_sources/frbny_parser.py:420-431 | every date the offline fallback compares is a valid date |
| TreasuryParser.Latest | src/functions/scrape_fedao_sources/frbny_parser.py:420-431 | the maximum is absent exactly when there are no dates, and is otherwise one of them |
| TreasuryParser.LatestIsMaximum | src/functions/scrape_fedao_sources/frbny_parser.py:427-428 | no date the loop saw is after the maximum it ends with |
| TreasuryParser.LatestAppend | src/functions/scrape_fedao_sources/frbny_parser.py:427-428 | one loop step replaces the maximum only with a later date |
| TreasuryParser.ReleaseCascade | src/functions/scrape_fedao_sources/frbny_parser.py:389-440 | the release date is never empty and always digits |
| TreasuryParser.LatestWithField | src/functions/scrape_fedao_sources/frbny_parser.py:423-430 | the loop body keeps the maximum of the dates seen so far |
| TreasuryParser.LatestWithFields | src/functions/scrape_fedao_sources/frbny_parser.py:422-430 | the inner loop adds the operation and settlement dates of one operation |
| TreasuryParser.LatestOperationDate | src/functions/scrape_fedao_sources/frbny_parser.py:420-431 | the loop ends with the maximum over all operation and settlement dates |
| TreasuryParser.CalculateReleaseDate | src/functions/scrape_fedao_sources/frbny_parser.py:389-440 | the method returns the cascade: first accepted online candidate, else latest operation date, else today |
| TreasuryParser.OfflineReleaseDate | src/functions/scrape_fedao_sources/frbny_parser.py:418-440 | with no online candidate accepted, the value is yyyymmdd of a date not before any operation or settlement date, or today's when none parses |
| TreasuryParser.BrowserFallbackIsToday | src/functions/scrape_fedao_sources/frbny_parser.py:407-414 | when the browser step answers today's date, as it does with a driver when it finds no period (lines 494-500), the cascade returns today's release string and never reaches the offline fallback |
| TreasuryParser.AcceptedCandidateInWindow | src/functions/scrape_fedao_sources/frbny_parser.py:394-414 | a release date taken from an online candidate passes `_is_reasonable_release_date` |
| TreasuryParser.ApplyReleaseDate | src/functions/scrape_fedao_sources/frbny_parser.py:442-455 | an empty list comes back unchanged; otherwise the length is kept and every operation gets the same integer `release_date` and nothing else changes |
| TreasuryParser.MapColumnFirstMatch | src/functions/scrape_fedao_sources/frbny_parser.py:602-608 | a column maps to the first expected name, in list order, that it matches, and to none when it matches none |
| TreasuryParser.MatchColumn | src/functions/scrape_fedao_sources/frbny_parser.py:602-608 | the inner loop with its `break` finds that first match |
| TreasuryParser.ColumnMapping | src/functions/scrape_fedao_sources/frbny_parser.py:599-608 | one mapping entry per CSV column, each the first matching expected name |
| TreasuryParser.ExactMatchContains | src/functions/scrape_fedao_sources/frbny_parser.py:603-606 | the exact name test is subsumed by the containment test |
| TreasuryParser.ApplyColumn | src/functions/scrape_fedao_sources/frbny_parser.py:627-640 | writing one mapped cell never removes a key |
| TreasuryParser.CsvOperationUpTo | src/functions/scrape_fedao_sources/frbny_parser.py:612-640 | an operation built from a row still has all ten keys |
| TreasuryParser.CsvOperationStep | src/functions/scrape_fedao_sources/frbny_parser.py:627-640 | each cell of the row is written in column order |
| TreasuryParser.KeptCsvOperations | src/functions/scrape_fedao_sources/frbny_parser.py:612-644 | at most one operation per row, and every kept operation has a date and a type |
| TreasuryParser.CsvKeepsEveryEssentialRow | src/functions/scrape_fedao_sources/frbny_parser.py:643-644 | every row whose operation has a date and a type is kept |
| TreasuryParser.RowOperation | src/functions/scrape_fedao_sources/frbny_parser.py:613-640 | the cell loop builds the row's operation |
| TreasuryParser.KeepCsvOperations | src/functions/scrape_fedao_sources/frbny_parser.py:612-644 | the row loop keeps exactly the operations with a date and a type, in row order |
| TreasuryParser.ProcessCsvData | src/functions/scrape_fedao_sources/frbny_parser.py:586-649 | `process_csv_data` is the column mapping followed by the row filter |
| TreasuryParser.FirstDataRow | src/functions/scrape_fedao_sources/frbny_parser.py:991-1004 | the first row at or after a position that holds a date and no header word |
| TreasuryParser.FindPdfDataStart | src/functions/scrape_fedao_sources/frbny_parser.py:989-1006 | the data start is the first non-header row holding a date, and 0 when there is none |
| TreasuryParser.ParsePdfColumns | src/functions/scrape_fedao_sources/frbny_parser.py:1054-1086 | rows with fewer than three cells leave the operation unchanged; otherwise only the six column fields can change, and every key stays |
| TreasuryParser.ColumnFields | src/functions/scrape_fedao_sources/frbny_parser.py:1058-1086 | cells 0 and 2 set the operation and settlement dates, stripped, only when they hold a date; the filled second cells of both rows, stripped, joined by one space, set the time; filled cells 3 to 5, stripped, set type, security and maturity range; an empty or missing cell leaves its field as it was |
| TreasuryParser.DollarAmount | src/functions/scrape_fedao_sources/frbny_parser.py:1092-1096 | none exactly when the `$` pattern does not occur; otherwise the groups of its leftmost match: the match starts with `$`, group 1 is the whole number after it, only whitespace follows, and group 2 is the closing `million` or `billion` lower-cased |
| TreasuryParser.BareAmount | src/functions/scrape_fedao_sources/frbny_parser.py:1098-1101 | none exactly when the bare pattern does not occur; otherwise the groups of its leftmost match, which starts and ends at a word boundary |
| TreasuryParser.ScaleWordLower | src/functions/scrape_fedao_sources/frbny_parser.py:1095 | the lower-cased scale word is `million` or `billion` |
| TreasuryParser.ExtractPdfAmount | src/functions/scrape_fedao_sources/frbny_parser.py:1088-1101 | a `$` match wins: its groups become size and multiplier; only without one does a bare match set them; with neither the operation is unchanged; no other field changes |
| TreasuryParser.ParsePdfOperation | src/functions/scrape_fedao_sources/frbny_parser.py:1014-1043 | a parsed operation has exactly the ten keys and passes `is_valid_pdf_operation` |
| TreasuryParser.PdfOperationsFrom | src/functions/scrape_fedao_sources/frbny_parser.py:969-985 | each kept operation used up two rows, so the walk ends and keeps at most half the rows |
| TreasuryParser.PdfWalkStep | src/functions/scrape_fedao_sources/frbny_parser.py:970-985 | a pair of empty rows moves on one row, a parsed operation two rows, anything else one row |
| TreasuryParser.PdfOperationsValid | src/functions/scrape_fedao_sources/frbny_parser.py:980-981 | every operation the table walk keeps is valid |
| TreasuryParser.KeptByParse | src/functions/scrape_fedao_sources/frbny_parser.py:969-985 | the walk keeps only what the row-pair parser returns |
| TreasuryParser.WalkRowPair | src/functions/scrape_fedao_sources/frbny_parser.py:970-985 | the loop body advances the index by one or two and keeps the loop invariant |
| TreasuryParser.WalkPdfTable | src/functions/scrape_fedao_sources/frbny_parser.py:969-985 | the while loop computes the table walk |
| TreasuryParser.ParsePdfTable | src/functions/scrape_fedao_sources/frbny_parser.py:964-987 | `parse_pdf_table` is the walk from the data start |
| TreasuryParser.CompletePdfOperation | src/functions/scrape_fedao_sources/frbny_parser.py:1130-1143 | exactly the ten keys, each read with `.get(key, '')`, and an empty release date |
| TreasuryParser.LineOperation | src/functions/scrape_fedao_sources/frbny_parser.py:1113-1123 | a line starts at most one operation, and it has a date |
| TreasuryParser.TextOperations | src/functions/scrape_fedao_sources/frbny_parser.py:1103-1128 | at most one operation per line, each with a date |
| TreasuryParser.DatedLine | src/functions/scrape_fedao_sources/frbny_parser.py:1118-1123 | a line starting with a date starts one operation carrying that date |
| TreasuryParser.UndatedLine | src/functions/scrape_fedao_sources/frbny_parser.py:1114-1119 | a blank line or one without a leading date adds nothing |
| TreasuryParser.ClosePending | src/functions/scrape_fedao_sources/frbny_parser.py:1120-1126 | closing the pending operation moves it to the result |
| TreasuryParser.ScanLine | src/functions/scrape_fedao_sources/frbny_parser.py:1113-1123 | the loop body keeps: emitted plus pending equals the operations of the lines seen |
| TreasuryParser.TextOperationsStep | src/functions/scrape_fedao_sources/frbny_parser.py:1113-1123 | each line adds its own operation after those of the earlier lines |
| TreasuryParser.ScanLines | src/functions/scrape_fedao_sources/frbny_parser.py:1110-1128 | the line loop and final close give one operation per dated line |
| TreasuryParser.ParsePdfTextFallback | src/functions/scrape_fedao_sources/frbny_parser.py:1103-1128 | no text gives no operations; otherwise one operation per line that starts with a date |
| TreasuryParser.StandardizeRecord | src/functions/scrape_fedao_sources/frbny_parser.py:1157-1168 | exactly the ten output keys, each the `.get` of the matching upper-case field |
| TreasuryParser.StandardizeOutputFormat | src/functions/scrape_fedao_sources/frbny_parser.py:1153-1170 | one output record per operation, each with exactly the ten output keys |
| TreasuryParser.StandardizeKeepsEverything | src/functions/scrape_fedao_sources/frbny_parser.py:1157-1168 | standardizing loses nothing: two complete operations with the same output are the same |
| TreasuryParser.CleanText | src/functions/scrape_fedao_sources/frbny_parser.py:1204 | a cleaned string has no comma and no surrounding whitespace |
| TreasuryParser.CleanValue | src/functions/scrape_fedao_sources/frbny_parser.py:1201-1205 | strings lose commas and surrounding whitespace; other values are written as they are |
| TreasuryParser.CleanValueIdempotent | src/functions/scrape_fedao_sources/frbny_parser.py:1203-1204 | cleaning a cleaned value changes nothing |
| TreasuryParser.CleanRow | src/functions/scrape_fedao_sources/frbny_parser.py:1199-1206 | a written row has exactly the ten output columns, each the cleaned value |
| TreasuryParser.ParsePage | src/functions/scrape_fedao_sources/frbny_parser.py:922-930 | a page with a non-empty table gives the table walk, any other page the text fallback |
| TreasuryParser.PagesOperationsStep | src/functions/scrape_fedao_sources/frbny_parser.py:919-930 | each page's operations follow those of the earlier pages |
| TreasuryParser.CollectPages | src/functions/scrape_fedao_sources/frbny_parser.py:919-930 | the page loop gathers every page's operations in page order |
| TreasuryParser.TreasuryScraper.constructor | src/functions/scrape_fedao_sources/frbny_parser.py:36-38 | a new scraper has no data and no source type |
| TreasuryParser.TreasuryScraper.ParsePdfFallback | src/functions/scrape_fedao_sources/frbny_parser.py:917-936 | the pages' operations are added to `data`; when there are any, the source becomes `pdf` and every operation gets the release date computed without a browser |
| TreasuryParser.TreasuryScraper.ParsePdf | src/functions/scrape_fedao_sources/frbny_parser.py:1241-1247 | the operations `parse_pdf_fallback` leaves, standardized, or none when it leaves none |
| TreasuryParser.TreasuryScraper.SaveRows | src/functions/scrape_fedao_sources/frbny_parser.py:1172-1211 | no data gives false; otherwise one cleaned, standardized row per operation |
| MortgageParser.SourceDate | src/functions/scrape_fedao_sources/fedao_parser.py:50-65 | eight digits that parse as `%Y%m%d`: the yyyymmdd of the end of the leftmost date range when that end is a real date, else today's |
| MortgageParser.SourceDateOfTitle | src/functions/scrape_fedao_sources/fedao_parser.py:53-60 | a padded date range anywhere in the text, with any whitespace around `to`, gives its end date when no range starts before it |
| MortgageParser.FirstTableLine | src/functions/scrape_fedao_sources/fedao_parser.py:106-118 | the first header or dated line at or after a position, with none before it |
| MortgageParser.TableStart | src/functions/scrape_fedao_sources/fedao_parser.py:103-120 | -1 exactly when no line is a header or dated line; otherwise the line after the first such header, or that dated line itself |
| MortgageParser.FindTableStart | src/functions/scrape_fedao_sources/fedao_parser.py:103-120 | the loop returns that table start |
| MortgageParser.BlockEnd | src/functions/scrape_fedao_sources/fedao_parser.py:174-185 | the end of a block lies at or after the line where the search starts and never past the last line |
| MortgageParser.BlockEndStops | src/functions/scrape_fedao_sources/fedao_parser.py:174-185 | a block ends at the first later line that starts with a date or holds a stop phrase, or at the end |
| MortgageParser.CollectBlock | src/functions/scrape_fedao_sources/fedao_parser.py:171-185 | the block is the first line and the following lines up to that end, and its length is the count consumed |
| MortgageParser.OperationRecordsFanOut | src/functions/scrape_fedao_sources/fedao_parser.py:208-250 | the three branches give one record per security, with the amount at its position or else the operation maximum |
| MortgageParser.BlockRecordsShape | src/functions/scrape_fedao_sources/fedao_parser.py:188-250 | one record per distinct security, each with the block's date, the source date and the operation maximum |
| MortgageParser.BuildStamps | src/functions/scrape_fedao_sources/fedao_parser.py:213-221 | every record the block builder makes carries the block's date and the source date |
| MortgageParser.SingleOperation | src/functions/scrape_fedao_sources/fedao_parser.py:155-252 | a non-empty input always consumes at least one line and no more than it has |
| MortgageParser.SingleOperationShape | src/functions/scrape_fedao_sources/fedao_parser.py:157-185 | no lines give nothing; an undated first line gives nothing and consumes one; the block stops before a line that ends it |
| MortgageParser.SingleOperationStamps | src/functions/scrape_fedao_sources/fedao_parser.py:164-250 | every record carries the date found on the first line and the source date |
| MortgageParser.SingleOperationCount | src/functions/scrape_fedao_sources/fedao_parser.py:196-250 | a dated block gives exactly one record per distinct security of its text |
| MortgageParser.ParseSingleOperation | src/functions/scrape_fedao_sources/fedao_parser.py:155-252 | the line loop computes `parse_single_operation` |
| MortgageParser.ExactHead | src/functions/scrape_fedao_sources/fedao_parser.py:130-151 | every turn of the loop consumes at least one line and no more than remain |
| MortgageParser.ExactHeadBlock | src/functions/scrape_fedao_sources/fedao_parser.py:134-149 | a dated line's turn gives its block's records and consumes the block's lines |
| MortgageParser.ExactHeadSkip | src/functions/scrape_fedao_sources/fedao_parser.py:150-151 | an undated line is skipped: nothing emitted, one line consumed |
| MortgageParser.ExactFromStep | src/functions/scrape_fedao_sources/fedao_parser.py:130-151 | the walk from a line is that turn's records followed by the walk from the first line the turn did not consume |
| MortgageParser.ExactStamps | src/functions/scrape_fedao_sources/fedao_parser.py:122-153 | every record of the exact format carries the source date and the date of one of the lines it came from |
| MortgageParser.ExactStep | src/functions/scrape_fedao_sources/fedao_parser.py:130-151 | the loop body emits exactly one turn's records and consumes that turn's lines |
| MortgageParser.ExactLoopStep | src/functions/scrape_fedao_sources/fedao_parser.py:128-153 | after a turn the index has moved forward, stays within the lines, and the records so far followed by the walk from the new index are still the whole walk |
| MortgageParser.ParseExactFormat | src/functions/scrape_fedao_sources/fedao_parser.py:122-153 | the while loop computes the exact-format walk |
| MortgageParser.TableRowsAreData | src/functions/scrape_fedao_sources/fedao_parser.py:460-482 | a table row is never blank, a header line or a footer line |
| MortgageParser.CollectTableRows | src/functions/scrape_fedao_sources/fedao_parser.py:457-482 | the first loop collects the table rows |
| MortgageParser.ReadRow | src/functions/scrape_fedao_sources/fedao_parser.py:515-519 | the amounts a row contributes are digit strings |
| MortgageParser.ReadRowDigits | src/functions/scrape_fedao_sources/fedao_parser.py:516 | so `int()` at line 558 never fails on them |
| MortgageParser.ExtendBlock | src/functions/scrape_fedao_sources/fedao_parser.py:525-530 | a continuation row appends its securities and amounts and keeps date, time and type |
| MortgageParser.FinalizeOperation | src/functions/scrape_fedao_sources/fedao_parser.py:540-597 | one record without securities, else one per security |
| MortgageParser.FinalizeRecords | src/functions/scrape_fedao_sources/fedao_parser.py:544-593 | every record has the block's date, time, the source date and the largest amount; without securities the security is empty; with them each record has its own security, type override and amount or the maximum |
| MortgageParser.RowStep | src/functions/scrape_fedao_sources/fedao_parser.py:490-530 | the block carried to the next row always has digit amounts |
| MortgageParser.FallbackFromStep | src/functions/scrape_fedao_sources/fedao_parser.py:490-530 | each row adds what it closes, then the scan continues with the block after it |
| MortgageParser.FallbackStamps | src/functions/scrape_fedao_sources/fedao_parser.py:488-536 | every record of the fallback scanner carries the source date |
| MortgageParser.ScanRow | src/functions/scrape_fedao_sources/fedao_parser.py:494-530 | the loop body computes one row's step |
| MortgageParser.ScanRows | src/functions/scrape_fedao_sources/fedao_parser.py:488-536 | the second loop and the final flush compute the fallback scanner |
| MortgageParser.ParseFallbackFormat | src/functions/scrape_fedao_sources/fedao_parser.py:449-538 | `parse_fallback_format` is the row scan over the collected table rows |
| MortgageParser.StrippedLines | src/functions/scrape_fedao_sources/fedao_parser.py:75 | no line of the list is empty |
| MortgageParser.ParseTabularData | src/functions/scrape_fedao_sources/fedao_parser.py:67-101 | the method computes the document's operations |
| MortgageParser.TabularSourceDate | src/functions/scrape_fedao_sources/fedao_parser.py:72-99 | every record of a document carries the document's source date |
| MortgageExtract.ExtractTime | src/functions/scrape_fedao_sources/fedao_parser.py:254-266 | the text of the leftmost time range; without a range, the text of the leftmost single time; without either, the default slot |
| MortgageExtract.RangeBeforeSingleTime | src/functions/scrape_fedao_sources/fedao_parser.py:257-264 | the first time range is returned even when a single time occurs before it |
| MortgageExtract.TimeWithoutColon | src/functions/scrape_fedao_sources/fedao_parser.py:254-266 | a text without a colon gets the default slot |
| MortgageExtract.ExtractOperationType | src/functions/scrape_fedao_sources/fedao_parser.py:268-283 | the result is the default or one of the listed types; `Purchase` exactly when PURCHASE occurs without TBA PURCHASE; `Sale` exactly when SALE occurs without PURCHASE |
| MortgageExtract.OperationTypeIsFirstPhrase | src/functions/scrape_fedao_sources/fedao_parser.py:268-283 | the if-chain is the first-match lookup over the priority list |
| MortgageExtract.TypeFromSecurity | src/functions/scrape_fedao_sources/fedao_parser.py:599-610 | FNCI, then G2SF, then FNCL (in any case) name the 15-year, Ginnie Mae and 30-year types; a security naming none of them keeps the block's type |
| MortgageExtract.AppendNew | src/functions/scrape_fedao_sources/fedao_parser.py:303-307 | appending only new items keeps the list duplicate-free and adds, after the old list, the first occurrence of every candidate not yet listed, in candidate order |
| MortgageExtract.AddNew | src/functions/scrape_fedao_sources/fedao_parser.py:303-307 | the shared loop body appends new securities and keeps `found` equal to the listed ones |
| MortgageExtract.KnownMatches | src/functions/scrape_fedao_sources/fedao_parser.py:301-304 | every security of a known ticker starts with that ticker and a space |
| MortgageExtract.KnownPass | src/functions/scrape_fedao_sources/fedao_parser.py:301-307 | the known-ticker loop appends each ticker's new matches in ticker order |
| MortgageExtract.KnownTickerPass | src/functions/scrape_fedao_sources/fedao_parser.py:287-307 | method 1 computes that list and its `found` set |
| MortgageExtract.RepairOutcomes | src/functions/scrape_fedao_sources/fedao_parser.py:341-361 | every repair gives the prefix-free ticker, G2SF, FGSF or FNCI |
| MortgageExtract.RepairKeepsCapitals | src/functions/scrape_fedao_sources/fedao_parser.py:341-361 | the repairs keep a ticker of capitals made of capitals, except the G2SF they may produce |
| MortgageExtract.CleanTickerAsWritten | src/functions/scrape_fedao_sources/fedao_parser.py:336-369 | the repaired ticker is returned exactly when it is 2 to 5 capitals |
| MortgageExtract.G2sfRepairRejected | src/functions/scrape_fedao_sources/fedao_parser.py:358-364 | a ticker the repairs turn into G2SF is always dropped by the program |
| MortgageExtract.CleanTicker | src/functions/scrape_fedao_sources/fedao_parser.py:336-369 | corrected check: the repaired ticker when it is 2 to 5 capitals or digits |
| MortgageExtract.CleanShortTickers | src/functions/scrape_fedao_sources/fedao_parser.py:345-354 | SF becomes G2SF, else FGSF, when the text names them; NCI becomes FNCI when it names FNCI; a bare MBS is dropped |
| MortgageExtract.CleanSuffixTickers | src/functions/scrape_fedao_sources/fedao_parser.py:355-361 | a ticker longer than NCI ending in NCI becomes FNCI; one longer than SF ending in SF and not starting with G2 becomes G2SF |
| MortgageExtract.CleanTickerOnlyAddsG2sf | src/functions/scrape_fedao_sources/fedao_parser.py:358-364 | the corrected check differs from the program only on the G2SF repair |
| MortgageExtract.GeneralCandidate | src/functions/scrape_fedao_sources/fedao_parser.py:317-325 | one general match gives at most one security |
| MortgageExtract.GeneralCandidateDropsG2sf | src/functions/scrape_fedao_sources/fedao_parser.py:319-325 | one match: the program's candidate is the corrected one without G2SF |
| MortgageExtract.GeneralPassDropsG2sf | src/functions/scrape_fedao_sources/fedao_parser.py:315-325 | the program's general pass is the corrected pass with its G2SF securities removed |
| MortgageExtract.AddGeneralMatches | src/functions/scrape_fedao_sources/fedao_parser.py:317-325 | the match loop appends each match's new security |
| MortgageExtract.GeneralTickerPass | src/functions/scrape_fedao_sources/fedao_parser.py:311-325 | method 2 appends the new general candidates |
| MortgageExtract.PickContextual | src/functions/scrape_fedao_sources/fedao_parser.py:390-396 | the inner loop appends one known ticker's security with the rate, or nothing, keeping the list duplicate-free |
| MortgageExtract.PickContextualChoice | src/functions/scrape_fedao_sources/fedao_parser.py:390-396 | the appended security is that of the first ticker that is known and not listed with the rate yet, and nothing is appended exactly when no ticker qualifies |
| MortgageExtract.ContextualFrom | src/functions/scrape_fedao_sources/fedao_parser.py:378-396 | the contextual list is duplicate-free and made only of known tickers with rates found in the text |
| MortgageExtract.ContextualComplete | src/functions/scrape_fedao_sources/fedao_parser.py:378-396 | no rate is missed: when the window around a rate holds a known ticker, the list holds that rate with a known ticker of the window |
| MortgageExtract.ContextualPrefix | src/functions/scrape_fedao_sources/fedao_parser.py:378-396 | the securities of the earlier rates come first and in the same order: a later rate only appends |
| MortgageExtract.PickTicker | src/functions/scrape_fedao_sources/fedao_parser.py:390-396 | the inner loop with its `break` |
| MortgageExtract.ContextualLoop | src/functions/scrape_fedao_sources/fedao_parser.py:378-396 | the outer loop over the rates |
| MortgageExtract.Contextual | src/functions/scrape_fedao_sources/fedao_parser.py:371-398 | `extract_securities_contextual` gives a duplicate-free list of known tickers with rates found in the text |
| MortgageExtract.ExtractSecuritiesContextual | src/functions/scrape_fedao_sources/fedao_parser.py:371-398 | the method computes that list |
| MortgageExtract.FirstPass | src/functions/scrape_fedao_sources/fedao_parser.py:311-331 | the known list when the known pass finds a candidate, else the first occurrences of the general candidates in text order when there are any, else the contextual list |
| MortgageExtract.SecuritiesWith | src/functions/scrape_fedao_sources/fedao_parser.py:285-334 | a duplicate-free list: the first occurrence of every known-ticker candidate in candidate order when there is one, else of every general candidate in text order when there is one, else the contextual list |
| MortgageExtract.ExtractSecurities | src/functions/scrape_fedao_sources/fedao_parser.py:285-334 | the three passes compute that list |
| MortgageExtract.MillionValues | src/functions/scrape_fedao_sources/fedao_parser.py:405-411 | one value per `$N Million` match |
| MortgageExtract.MaxOf | src/functions/scrape_fedao_sources/fedao_parser.py:422 | `max` is one of the values and no value exceeds it |
| MortgageExtract.KeepAllWhenRepeated | src/functions/scrape_fedao_sources/fedao_parser.py:423 | a maximum occurring more than once drops nothing |
| MortgageExtract.KeepWithoutUnique | src/functions/scrape_fedao_sources/fedao_parser.py:423 | a maximum occurring once is the only value dropped |
| MortgageExtract.IndividualValuesRule | src/functions/scrape_fedao_sources/fedao_parser.py:400-431 | one or two amounts are all kept; with more, a unique maximum alone is dropped and a repeated one drops nothing; the fallback to all but the last is never reached |
| MortgageExtract.IndividualBelowMaximum | src/functions/scrape_fedao_sources/fedao_parser.py:422-424 | every individual amount is at most the operation maximum |
| MortgageExtract.LabelMatches | src/functions/scrape_fedao_sources/fedao_parser.py:416 | a `$N Million` label matches the amount pattern exactly once, with the digits of N |
| MortgageExtract.OperationMaximumIdempotent | src/functions/scrape_fedao_sources/fedao_parser.py:433-447 | reading the maximum label back gives the same label |
| Scraper.Basename | src/functions/scrape_fedao_sources/fedao.py:362 | `os.path.basename` is a suffix of the path without `/` |
| Scraper.BasenameOfJoin | src/functions/scrape_fedao_sources/fedao.py:372 | the base name of `os.path.join(dir, name)` is `name` |
| Scraper.SplitScheme | src/functions/scrape_fedao_sources/fedao.py:362 | the scheme is the lower-cased text before the first `:` made of scheme characters, and the rest follows that `:`; with no scheme the rest is the whole URL |
| Scraper.NetlocEnd | src/functions/scrape_fedao_sources/fedao.py:362 | the host ends at the first `/`, `?` or `#` |
| Scraper.Before | src/functions/scrape_fedao_sources/fedao.py:362 | the prefix before the first occurrence of a character |
| Scraper.WithoutParams | src/functions/scrape_fedao_sources/fedao.py:362 | the path is cut at a `;` after its last `/` |
| Scraper.UrlPath | src/functions/scrape_fedao_sources/fedao.py:362 | the path never holds a query or a fragment |
| Scraper.BasenameWithoutParams | src/functions/scrape_fedao_sources/fedao.py:362 | for the schemes that take `;params`, the base name holds no `;` |
| Scraper.HttpsUrlPath | src/functions/scrape_fedao_sources/fedao.py:362 | the path of `https://host/...` is what follows the host, without its `;params` |
| Scraper.PathOnlyUrl | src/functions/scrape_fedao_sources/fedao.py:362 | a URL whose text before any `:` holds a `/` has no scheme, so all of it is path |
| Scraper.PdfFilename | src/functions/scrape_fedao_sources/fedao.py:363-364 | a base name ends in `.pdf` after the suffix is added, and holds no `/` |
| Scraper.Prefixed | src/functions/scrape_fedao_sources/fedao.py:366-370 | the source prefix adds no `/` |
| Scraper.DownloadFilename | src/functions/scrape_fedao_sources/fedao.py:362-370 | the download file name holds no `/` |
| Scraper.DownloadFilenameShape | src/functions/scrape_fedao_sources/fedao.py:362-370 | the file name ends in `.pdf`, and carries `MOA_` for a mortgage URL, else `TOA_` for a Treasury URL |
| Scraper.SourceHint | src/functions/scrape_fedao_sources/fedao.py:500-505 | a hint exactly when the file name starts with `MOA_` or `TOA_` |
| Scraper.NormalizeHref | src/functions/scrape_fedao_sources/fedao.py:302-306 | an href starting with `/` gets the base URL in front; any other href is kept |
| Scraper.NormalizeHrefIdempotent | src/functions/scrape_fedao_sources/fedao.py:302-306 | normalizing a normalized link changes nothing |
| Scraper.Score | src/functions/scrape_fedao_sources/fedao.py:465-466 | the score counts the indicators: 0 exactly when none occurs, all of them exactly when each occurs |
| Scraper.DetectByContent | src/functions/scrape_fedao_sources/fedao.py:465-482 | with no deciding hint, text with no indicator goes by the file name, and text with every mortgage indicator and no Treasury one is MOA |
| Scraper.MbsHintIsMoa | src/functions/scrape_fedao_sources/fedao.py:418-421 | a hint mentioning `mbs` in any case is MOA whatever the PDF says |
| Scraper.FilenameHints | src/functions/scrape_fedao_sources/fedao.py:418-424 | the two hints a file name can carry decide MOA and TOA |
| Scraper.DownloadedHint | src/functions/scrape_fedao_sources/fedao.py:366-370 | the hint read back from a downloaded file name is the page its URL names |
| Scraper.DownloadedFileType | src/functions/scrape_fedao_sources/fedao.py:488-508 | a PDF downloaded from the mortgage page is MOA, and one from the Treasury page is TOA, whatever its content |
| Scraper.CollectedMembers | src/functions/scrape_fedao_sources/fedao.py:300-319 | a URL is collected exactly when some kept link with an href normalizes to it |
| Scraper.CollectLinks | src/functions/scrape_fedao_sources/fedao.py:142-150 | one collecting loop adds each kept link's absolute URL |
| Scraper.IntegratedScraper.constructor | src/functions/scrape_fedao_sources/fedao.py:57-65 | the base URL is set and the three URL sets are empty |
| Scraper.IntegratedScraper.ExtractPdfUrlsFromPage | src/functions/scrape_fedao_sources/fedao.py:293-324 | the `a.pdf` links, then the `.pdf`-ending links, made absolute |
| Scraper.IntegratedScraper.ScrapeMoaPdfUrls | src/functions/scrape_fedao_sources/fedao.py:114-194 | the schedule table's three link loops, or the keyword fallback, stored in `moa_pdf_urls`; nothing else changes |
| Scraper.IntegratedScraper.ScrapeToaPdfUrls | src/functions/scrape_fedao_sources/fedao.py:200-239 | the union of the pages' URLs, stored in `toa_pdf_urls`; nothing else changes |
| Scraper.IntegratedScraper.ScrapeAllPdfUrls | src/functions/scrape_fedao_sources/fedao.py:245-260 | both sets are scraped and `pdf_urls` is their union |
| Scraper.MoaRowOf | src/functions/scrape_fedao_sources/fedao.py:576-580 | a written mortgage row holds `.get(field, '')` for each of the eight columns |
| Scraper.ToaRowOf | src/functions/scrape_fedao_sources/fedao.py:613-617 | a written Treasury row holds `.get(field, '')` for each of the ten columns |
| Scraper.MoaCsvOrder | src/functions/scrape_fedao_sources/fedao.py:548-580 | one row per operation, the same records, ordered by source date, date and time, equal keys in input order |
| Scraper.ToaCsvOrder | src/functions/scrape_fedao_sources/fedao.py:584-617 | one row per operation, ordered by date and time, equal keys in input order |
| Scraper.MoaSettlementColumnEmpty | src/functions/scrape_fedao_sources/fedao.py:555-579 | the mortgage records carry no settlement date, so that column is empty in every row |
| Sorting.KeyLessTransitive | src/functions/scrape_fedao_sources/fedao.py:566-570 | the tuple order of the sort keys is transitive |
| Sorting.KeyLessTotal | src/functions/scrape_fedao_sources/fedao.py:566-570 | any two distinct sort keys are ordered one way or the other |
| Sorting.SortBy | src/functions/scrape_fedao_sources/fedao.py:566-570 | `sorted` keeps the length and the multiset of items |
| Sorting.SortBySorted | src/functions/scrape_fedao_sources/fedao.py:566-570 | the result of `sorted` is in key order |
| Sorting.SortByStable | src/functions/scrape_fedao_sources/fedao.py:566-570 | `sorted` is stable: items with equal keys keep their input order |
| Sorting.SortBySortedInput | src/functions/scrape_fedao_sources/fedao.py:566-570 | sorting a list already in key order leaves it as it is |
| Sorting.SortByIdempotent | src/functions/scrape_fedao_sources/fedao.py:566-570 | sorting twice is sorting once |

## Left out

- Character classes and case mapping are ASCII only. This covers `Text.IsDigit`, `Text.IsUpper`, `Text.IsLower`, `Text.IsWordChar`, `Text.UpperStr` and `Text.LowerStr`. It also covers the ignore-case matching of `Patterns.KnownTicker`, `Patterns.Millions`, `Patterns.Clock`, `Patterns.ScaleWord` and `Patterns.LiteralAtIgnoreCase`. Python's `str` patterns and `str.upper`/`str.lower` are Unicode-aware: `'ß'.upper() == 'SS'` changes the length, `\d` matches other decimal digits, and `re.I` matches `ſ` to `s` and the Kelvin sign to `k`. Only `\s` and `strip()` use Python's full whitespace set (`Text.IsSpace`).
- AmountParser.SizeValue: keeps the size exactly, as `Int` or as a decimal `Dec`, where the program's `float()` rounds to a binary double. For example, "12345678901234567890" becomes 12345678901234567168 in the program. A fraction too long for a double is likewise not rounded.
- Operation dicts are immutable maps. `TreasuryParser.ParsePdfColumns`, `TreasuryParser.ExtractPdfAmount` and `TreasuryParser.ApplyReleaseDate` return the updated map. The program updates the dict in place, and `apply_release_date_to_operations` returns the same list object it was given. That aliasing is not captured.
- The browser, the network, the PDF readers (pdfplumber, PyPDF2) and pandas are not modelled; what they return is passed in as a parameter. Their exception paths are not modelled either:
  - `scrape_moa_pdf_urls` and `scrape_toa_pdf_urls` returning `set()` after an error;
  - the `TimeoutException` that selects the fallback selector, which the model represents by the `MoaPage.NoSchedules` case;
  - `detect_pdf_type`'s `except` branch, which the model represents as `pages == None` giving TOA;
  - `process_csv_data` and `parse_pdf_fallback` returning `None`;
  - the missing-file check of `parse_pdf_fallback`;
  - the per-file `except` of `process_pdfs_with_dual_parsers`.
- Scraper.UrlPath: follows `urlsplit`/`urlparse` of Python 3.11 for the path. It does not model the stripping of leading C0 control characters and spaces, the removal of tab and newline characters, or the validation of the network location (brackets, port).
- The three online release-date strategies are parameters `web`, `soup` and `browser`, each the date its strategy answered (the release string of that date is `Dates.ReleaseString`). `web` and `soup` are the dates found on the page. `browser` is `None` without a driver; with a driver it is the period end found, or today's date when none is found, and `TreasuryParser.BrowserFallbackIsToday` shows that the cascade then stops there. The strategies themselves, with their HTTP fetches, retries and HTML parsing, are left out. So is `extract_operation_period_end_date`.
- Dates.Compact: renders the year with four digits, as a zero-padding `strftime('%Y')` does. CPython on glibc writes years below 1000 without padding, so there the program's yyyymmdd of such a date has fewer than eight digits.
- MortgageParser.SourceDate: always eight digits for the same reason; for an end year below 1000 the program's source date is shorter.
- `datetime.now()` is the parameter `today`; `_validate_and_convert_date_pair` takes the current year as `currentYear`.
- Pagination (`get_max_pages`, `go_to_next_page`): `ScrapeToaPdfUrls` takes the pages the loop reached, in order.
- `download_pdf`'s existence check and HTTP transfer, and `download_all_pdfs`, are left out. Only the file name is modelled (`Scraper.DownloadFilename`).
- `extract_table_from_pdf`'s choice among pdfplumber's tables is left out. A `Page` holds the chosen table.
- Of `process_pdfs_with_dual_parsers`, only the source hint and the classification are modelled. The calls to the two parsers, the extension of the two lists and the parser-availability flags are left out.
- CSV cells are text or missing (`pd.notna`). `str()` of non-text pandas values is not modelled.
- The writing of CSV files is left out. Only the rows, their order and their cleaning are modelled.
- The logging and debug printing are left out.
- The `operation_max` entry of the fallback scanner's `current_operation` is written but never read, and is left out.
- `MortgageParser.TableRowsFrom` carries no postcondition of its own. Its property, that no table row is blank, a header or a footer, is the lemma `MortgageParser.TableRowsAreData`.
- `extract_pdf_amount` tries exactly two patterns, `$<number> million|billion` and then a bare `<number> million|billion`. `TreasuryParser.DollarAmount` and `TreasuryParser.BareAmount` model both, and no others.
- The known-ticker pass lists securities ticker by ticker, in the order of its ticker list, not in the order they occur in the text (`MortgageExtract.KnownPass`).
- `save_to_csv` cleans a text value only by removing its commas and stripping its whitespace (`TreasuryParser.CleanText`). It leaves HTML breaks and non-breaking spaces in place.

## Findings

| source | as written | input that shows it | evidently intended | confidence | as-written member | corrected member |
|---|---|---|---|---|---|---|
| src/functions/scrape_fedao_sources/fedao_parser.py:358-364 | `clean_security_ticker` repairs a ticker ending in `SF` (and a bare `SF` in a text naming G2SF) to `G2SF`, then accepts only `^[A-Z]{2,5}$`, which rejects `G2SF` because of its digit, so every such repair is thrown away | the block text `XSF 5.0 $10 Million`: no known ticker matches, `XSF` is repaired to `G2SF` and then rejected, and the contextual pass sees only `XSF`; the block yields no security and no record | the repaired `G2SF` is kept, giving the security `G2SF 5.0` | not executed | MortgageExtract.CleanTickerAsWritten, MortgageExtract.G2sfRepairRejected, MortgageExtract.GeneralPassDropsG2sf | MortgageExtract.CleanTicker, MortgageExtract.CleanTickerOnlyAddsG2sf, MortgageExtract.SecuritiesWith |

The record builders use the program's behaviour: `SecuritiesOf` passes `CleanTickerAsWritten`. `IntendedSecuritiesOf` passes `CleanTicker` to the same `SecuritiesWith`, whose contract holds for both.
