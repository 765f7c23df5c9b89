/**
 * The records the scrapers build. A Treasury (TOA) operation is a Python
 * dict from column names to values that are strings, integers or floats; a
 * mortgage (MOA) operation is a dict from column names to strings.
 */
module Records {
  import opened Text

  /** A dict value: a string, an integer, or a non-integral float written as
      its decimal digits (`frac` has no trailing zeros). */
  datatype Value = Str(s: string) | Int(n: int) | Dec(whole: nat, frac: string)

  type Record = map<string, Value>

  /** `record.get(key, '')` */
  function Get(r: Record, key: string): Value {
    if key in r then r[key] else Str("")
  }

  /** The string in `record.get(key, '')`, or "" when the value is not a string. */
  function GetStr(r: Record, key: string): string {
    match Get(r, key)
    case Str(s) => s
    case _ => ""
  }

  /** Python truthiness of a value. */
  predicate Truthy(v: Value) {
    match v
    case Str(s) => s != ""
    case Int(n) => n != 0
    case Dec(_, _) => true
  }

  // ---------------------------------------------------------------------------
  // Treasury operation columns (frbny_parser.py)

  const OperationDate := "OPERATION DATE"
  const OperationTime := "OPERATION TIME (ET)"
  const SettlementDate := "SETTLEMENT DATE"
  const OperationType := "OPERATION TYPE"
  const SecurityTypeAndMaturity := "SECURITY TYPE AND MATURITY"
  const MaturityRange := "MATURITY RANGE"
  const MaximumOperationCurrency := "MAXIMUM OPERATION CURRENCY"
  const MaximumOperationSize := "MAXIMUM OPERATION SIZE"
  const MaximumOperationMultiplier := "MAXIMUM OPERATION MULTIPLIER"
  const ReleaseDate := "release_date"

  /** The ten keys every Treasury operation starts with, in order. */
  const TreasuryKeys: seq<string> := [
    OperationDate, OperationTime, SettlementDate, OperationType,
    SecurityTypeAndMaturity, MaturityRange, MaximumOperationCurrency,
    MaximumOperationSize, MaximumOperationMultiplier, ReleaseDate
  ]

  /** The output columns, in the order `standardize_output_format` lists them. */
  const OutputKeys: seq<string> := [
    "operation_date", "operation_time", "settlement_date", "operation_type",
    "security_type_and_maturity", "maturity_range", "maximum_operation_currency",
    "maximum_operation_size", "maximum_operation_multiplier", "release_date"
  ]

  /** A Treasury operation with every field an empty string. */
  function BlankOperation(): (r: Record)
    ensures forall k :: k in TreasuryKeys <==> k in r
    ensures forall k :: k in r ==> r[k] == Str("")
  {
    map k | k in TreasuryKeys :: Str("")
  }

  // ---------------------------------------------------------------------------
  // Mortgage operation columns (fedao_parser.py)

  type MoaRecord = map<string, string>

  const MoaOperationDate := "OperationDate"
  const MoaOperationTime := "OperationTime"
  const MoaOperationType := "Operation Type"
  const MoaSecurity := "Securities Included (CUSP)"
  const MoaSecurityMaximum := "Security Maximums (Millions)"
  const MoaOperationMaximum := "OperationMaximum"
  const MoaSourceDate := "Source_Date"

  /** `FEDAOParser.csv_columns`: the seven columns of a mortgage record. */
  const MoaColumns: seq<string> := [
    MoaOperationDate, MoaOperationTime, MoaOperationType, MoaSecurity,
    MoaSecurityMaximum, MoaOperationMaximum, MoaSourceDate
  ]

  /** `record.get(key, '')` */
  function MoaGet(r: MoaRecord, key: string): string {
    if key in r then r[key] else ""
  }

  /** One mortgage operation record. */
  function MoaRow(date: string, time: string, opType: string, security: string,
                  amount: string, maximum: string, sourceDate: string): (r: MoaRecord)
    ensures forall k :: k in r <==> k in MoaColumns
    ensures MoaGet(r, MoaOperationDate) == date && MoaGet(r, MoaOperationTime) == time
    ensures MoaGet(r, MoaOperationType) == opType && MoaGet(r, MoaSecurity) == security
    ensures MoaGet(r, MoaSecurityMaximum) == amount && MoaGet(r, MoaOperationMaximum) == maximum
    ensures MoaGet(r, MoaSourceDate) == sourceDate
  {
    map[MoaOperationDate := date, MoaOperationTime := time, MoaOperationType := opType,
        MoaSecurity := security, MoaSecurityMaximum := amount,
        MoaOperationMaximum := maximum, MoaSourceDate := sourceDate]
  }
}
