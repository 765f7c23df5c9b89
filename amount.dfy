/**
 * `parse_maximum_operation_size` of frbny_parser.py: splits a "Maximum
 * Operation Size" cell such as "$1,500 million" into a currency, a size and
 * a multiplier.
 *
 * The currency is the leading run of characters that are neither digits nor
 * whitespace. The size and multiplier come from the leftmost match of
 * `([0-9.,]+)\s*(million|billion|trillion|thousand)?` in the lower-cased
 * text. The size becomes a number when `float()` accepts it with the commas
 * removed (an integer when it has no fractional part) and stays the matched
 * text otherwise.
 */
module AmountParser {
  import opened Maybe
  import opened Text
  import opened Patterns
  import opened Records

  datatype OperationSize = OperationSize(currency: string, size: Value, multiplier: string)

  /** `[^\d\s]` */
  predicate IsCurrencyChar(c: char) { !IsDigit(c) && !IsSpace(c) }

  /** `[0-9.,]` */
  predicate IsNumberChar(c: char) { IsDigit(c) || c == '.' || c == ',' }

  /** The multipliers the pattern accepts, and the empty string for none. */
  const Multipliers: set<string> := {"", "million", "billion", "trillion", "thousand"}

  /** `lit` occurs at `p`, compared exactly. */
  predicate LiteralAt(s: string, p: nat, lit: string) {
    p + |lit| <= |s| && s[p..p + |lit|] == lit
  }

  /** `c` is the longest prefix of `t` made of currency characters. */
  predicate IsCurrencyOf(c: string, t: string) {
    |c| <= |t| && c == t[..|c|]
    && (forall i :: 0 <= i < |c| ==> IsCurrencyChar(c[i]))
    && (|c| == |t| || !IsCurrencyChar(t[|c|]))
  }

  /** `re.match(r'^([^\d\s]+)', t)`: the currency, or "" when `t` starts
      with a digit or whitespace. */
  function Currency(t: string): (c: string)
    ensures IsCurrencyOf(c, t)
  {
    t[..RunEnd(t, 0, IsCurrencyChar)]
  }

  /** The start of `([0-9.,]+)`: any number character. */
  function NumberStart(s: string, p: nat): Option<nat> {
    if p < |s| && IsNumberChar(s[p]) then Some(RunEnd(s, p, IsNumberChar)) else None
  }

  /** Group 2 of the pattern: the word right after the number and its
      whitespace, on the lower-cased text. */
  function MultiplierAt(s: string, q: nat): (m: string)
    ensures m in Multipliers
  {
    if LiteralAt(s, q, "million") then "million"
    else if LiteralAt(s, q, "billion") then "billion"
    else if LiteralAt(s, q, "trillion") then "trillion"
    else if LiteralAt(s, q, "thousand") then "thousand"
    else ""
  }

  /** `t` with its trailing zeros removed. */
  function TrimZeros(t: string): (r: string)
    ensures |r| <= |t| && r == t[..|r|]
    ensures r == [] || r[|r| - 1] != '0'
    ensures forall i :: |r| <= i < |t| ==> t[i] == '0'
  {
    if |t| > 0 && t[|t| - 1] == '0' then TrimZeros(t[..|t| - 1]) else t
  }

  /** The digits before the decimal point. */
  function WholePart(t: string): string {
    match IndexOfChar(t, '.')
    case None => t
    case Some(j) => t[..j]
  }

  /** The characters after the first decimal point. */
  function FractionPart(t: string): string {
    match IndexOfChar(t, '.')
    case None => ""
    case Some(j) => t[j + 1..]
  }

  /** `float(t)` succeeds on a string of digits and points exactly when it
      has at least one digit and at most one point. */
  predicate FloatSyntax(t: string) {
    AllDigits(WholePart(t)) && AllDigits(FractionPart(t)) && |WholePart(t)| + |FractionPart(t)| >= 1
  }

  /** `10 ** n` */
  function Pow10(n: nat): (r: nat)
    ensures r >= 1
  {
    if n == 0 then 1 else 10 * Pow10(n - 1)
  }

  /** The exact number the decimal text `whole.frac` denotes. */
  function DecimalNumber(whole: string, frac: string): real
    requires AllDigits(whole) && AllDigits(frac)
  {
    DigitsValue(whole) as real + DigitsValue(frac) as real / Pow10(|frac|) as real
  }

  /** The number a size stands for (0 for a size kept as text). */
  function NumberOf(v: Value): real {
    match v
    case Int(n) => n as real
    case Dec(w, f) => if AllDigits(f) then DecimalNumber(DecimalString(w), f) else 0.0
    case Str(_) => 0.0
  }

  /** The size after the `float()` conversion of lines 106-114: an integer
      when the fraction is all zeros, a decimal otherwise, and the matched
      text when `float()` raises. Either number is exactly the one the text
      denotes once the commas are removed. */
  function SizeValue(size: string): (v: Value)
    ensures v.Dec? ==> |v.frac| >= 1 && AllDigits(v.frac) && v.frac[|v.frac| - 1] != '0'
    ensures v.Str? ==> v.s == size && !FloatSyntax(RemoveChar(size, ','))
    ensures FloatSyntax(RemoveChar(size, ',')) ==> !v.Str?
    ensures var t := RemoveChar(size, ',');
      FloatSyntax(t) ==> NumberOf(v) == DecimalNumber(WholePart(t), FractionPart(t))
    ensures var t := RemoveChar(size, ',');
      FloatSyntax(t) ==> (v.Int? <==> forall i :: 0 <= i < |FractionPart(t)| ==> FractionPart(t)[i] == '0')
  {
    var t := RemoveChar(size, ',');
    if !FloatSyntax(t) then Str(size)
    else Converted(WholePart(t), FractionPart(t))
  }

  /** `float()` of `whole.frac`, then `int()` when `is_integer()`: an integer
      when the fraction is all zeros, otherwise a decimal without trailing
      zeros; either way the number the text denotes. */
  function Converted(whole: string, frac: string): (v: Value)
    requires AllDigits(whole) && AllDigits(frac)
    ensures v.Int? || v.Dec?
    ensures v.Dec? ==> |v.frac| >= 1 && AllDigits(v.frac) && v.frac[|v.frac| - 1] != '0'
    ensures NumberOf(v) == DecimalNumber(whole, frac)
    ensures v.Int? <==> forall i :: 0 <= i < |frac| ==> frac[i] == '0'
  {
    var f := TrimZeros(frac);
    SizeParts(whole, frac);
    if f == "" then Int(DigitsValue(whole))
    else Dec(DigitsValue(whole), f)
  }

  /** The two outcomes of the conversion, stated on the parts of the text:
      the value is the number `whole.frac` denotes, and it is an integer
      exactly when the fraction is all zeros. */
  lemma SizeParts(whole: string, frac: string)
    requires AllDigits(whole) && AllDigits(frac)
    ensures AllDigits(TrimZeros(frac))
    ensures TrimZeros(frac) == "" ==> NumberOf(Int(DigitsValue(whole))) == DecimalNumber(whole, frac)
    ensures TrimZeros(frac) != "" ==> NumberOf(Dec(DigitsValue(whole), TrimZeros(frac))) == DecimalNumber(whole, frac)
    ensures TrimZeros(frac) == "" <==> forall i :: 0 <= i < |frac| ==> frac[i] == '0'
  {
    TrimZerosValue(frac);
    var f := TrimZeros(frac);
    if f == "" {
      assert DigitsValue(f) == 0 && Pow10(|f|) == 1;
      SizeIntPart(whole, frac);
    } else {
      SizeDecPart(whole, frac, f);
    }
  }

  lemma SizeIntPart(whole: string, frac: string)
    requires AllDigits(whole) && AllDigits(frac)
    requires 0 as real / 1 as real == DigitsValue(frac) as real / Pow10(|frac|) as real
    ensures NumberOf(Int(DigitsValue(whole))) == DecimalNumber(whole, frac)
  {
  }

  lemma SizeDecPart(whole: string, frac: string, f: string)
    requires AllDigits(whole) && AllDigits(frac) && AllDigits(f)
    requires DigitsValue(f) as real / Pow10(|f|) as real == DigitsValue(frac) as real / Pow10(|frac|) as real
    ensures NumberOf(Dec(DigitsValue(whole), f)) == DecimalNumber(whole, frac)
  {
    DigitsValueRoundTrip(whole);
  }

  /** Trailing zeros of a fraction do not change the number it denotes, and
      the fraction is all zeros exactly when nothing is left. */
  lemma {:induction false} TrimZerosValue(f: string)
    requires AllDigits(f)
    ensures AllDigits(TrimZeros(f))
    ensures DigitsValue(TrimZeros(f)) as real / Pow10(|TrimZeros(f)|) as real
      == DigitsValue(f) as real / Pow10(|f|) as real
    ensures TrimZeros(f) == "" <==> forall i :: 0 <= i < |f| ==> f[i] == '0'
    decreases |f|
  {
    var r := TrimZeros(f);
    assert forall i :: 0 <= i < |r| ==> r[i] == f[i];
    if |f| > 0 && f[|f| - 1] == '0' {
      var init := f[..|f| - 1];
      TrimZerosValue(init);
      var a := DigitsValue(init) as real;
      var b := Pow10(|init|) as real;
      assert DigitsValue(f) as real == 10.0 * a;
      assert Pow10(|f|) as real == 10.0 * b;
      TenthsCancel(a, b);
    }
  }

  lemma TenthsCancel(a: real, b: real)
    requires b > 0.0
    ensures (10.0 * a) / (10.0 * b) == a / b
  {
    var x := a / b;
    assert x * b == a;
    assert x * (10.0 * b) == 10.0 * a;
  }

  /** `str(int(s))` and `s` denote the same number. */
  lemma DigitsValueRoundTrip(s: string)
    requires AllDigits(s)
    ensures DigitsValue(DecimalString(DigitsValue(s))) == DigitsValue(s)
  {
    DecimalRoundTrip(DigitsValue(s));
  }

  /** `parse_maximum_operation_size(raw)` */
  function ParseMaximumOperationSize(raw: string): (r: OperationSize)
    ensures Strip(raw) == "" ==> r == OperationSize("", Str(""), "")
    ensures r.multiplier in Multipliers
  {
    var t := Strip(raw);
    if t == "" then OperationSize("", Str(""), "")
    else
      var low := LowerStr(t);
      match Search(NumberStart, low)
      case None => OperationSize(Currency(t), Str(""), "")
      case Some(sp) =>
        var runEnd := RunEnd(low, sp.start, IsNumberChar);
        var size := low[sp.start..runEnd];
        OperationSize(Currency(t), SizeValue(size), MultiplierAt(low, SpacesEnd(low, runEnd)))
  }

  // ---------------------------------------------------------------------------
  // Lemmas

  /** The currency is the leading run of non-digit, non-space characters of
      the stripped text, and a size kept as text is a piece of that text. */
  lemma ParsedParts(raw: string)
    ensures IsCurrencyOf(ParseMaximumOperationSize(raw).currency, Strip(raw))
    ensures var r := ParseMaximumOperationSize(raw);
      r.size.Str? && r.size.s != "" ==> Contains(LowerStr(Strip(raw)), r.size.s)
  {
    var t := Strip(raw);
    if t != "" {
      var low := LowerStr(t);
      match Search(NumberStart, low)
      case None =>
      case Some(sp) =>
        var size := low[sp.start..RunEnd(low, sp.start, IsNumberChar)];
        assert OccursAt(low, size, sp.start);
    }
  }

  /** A string without capitals is its own `lower()`. */
  lemma LowerOfLowercase(s: string)
    requires forall i :: 0 <= i < |s| ==> !IsUpper(s[i])
    ensures LowerStr(s) == s
  {
  }

  /** How a stripped, lower-case "$<digits>..." cell is read: the currency is
      "$", the size is the run of number characters after it, and the
      multiplier is the word after that run and its whitespace. */
  lemma DollarShape(s: string, e: nat)
    requires IsStripped(s) && |s| > 0 && LowerStr(s) == s
    requires 2 <= e <= |s| && s[0] == '$' && IsDigit(s[1])
    requires forall i :: 1 <= i < e ==> IsNumberChar(s[i])
    requires e == |s| || !IsNumberChar(s[e])
    ensures ParseMaximumOperationSize(s) == OperationSize("$", SizeValue(s[1..e]), MultiplierAt(s, SpacesEnd(s, e)))
  {
    StrippedIsFixed(s);
    assert RunEnd(s, 1, IsCurrencyChar) == 1;
    assert Currency(s) == "$";
    assert MatchAt(NumberStart, s, 0).None?;
    RunOfNumberChars(s, 1, e);
    assert MatchAt(NumberStart, s, 1) == Some(e);
    assert SearchFrom(NumberStart, s, 1) == Some(Span(1, e));
    assert Search(NumberStart, s) == Some(Span(1, e));
  }

  /** A run of number characters from `p` to `e` followed by another
      character (or the end) is the whole `[0-9.,]+` run. */
  lemma {:induction false} RunOfNumberChars(s: string, p: nat, e: nat)
    requires p <= e <= |s|
    requires forall i :: p <= i < e ==> IsNumberChar(s[i])
    requires e == |s| || !IsNumberChar(s[e])
    ensures RunEnd(s, p, IsNumberChar) == e
    decreases e - p
  {
    if p < e {
      RunOfNumberChars(s, p + 1, e);
    }
  }

  /** The digits of `str(n)` are a size `float()` reads as the integer `n`. */
  lemma DecimalSize(n: nat)
    ensures SizeValue(DecimalString(n)) == Int(n)
  {
    var d := DecimalString(n);
    assert ',' !in d && '.' !in d;
    RemoveAbsentChar(d, ',');
    assert IndexOfChar(d, '.') == None;
    DecimalRoundTrip(n);
  }

  /** A comma-grouped integer such as "1,500" is read as the integer its
      digits spell. */
  lemma CommaGroupedSize(size: string)
    requires forall i :: 0 <= i < |size| ==> IsDigit(size[i]) || size[i] == ','
    requires exists i :: 0 <= i < |size| && IsDigit(size[i])
    ensures AllDigits(RemoveChar(size, ','))
    ensures SizeValue(size) == Int(DigitsValue(RemoveChar(size, ',')))
  {
    var t := RemoveChar(size, ',');
    CommasRemoved(size);
    DigitsOnlyParts(t);
    assert Converted(t, "") == Int(DigitsValue(t));
  }

  /** Removing the commas of digits and commas leaves a non-empty run of digits. */
  lemma CommasRemoved(size: string)
    requires forall i :: 0 <= i < |size| ==> IsDigit(size[i]) || size[i] == ','
    requires exists i :: 0 <= i < |size| && IsDigit(size[i])
    ensures AllDigits(RemoveChar(size, ',')) && |RemoveChar(size, ',')| >= 1
  {
    var t := RemoveChar(size, ',');
    RemoveCharMembers(size, ',');
    forall i | 0 <= i < |t| ensures IsDigit(t[i]) {
      assert t[i] in size;
    }
    var k :| 0 <= k < |size| && IsDigit(size[k]);
    assert size[k] in t;
  }

  /** A string of digits has no point: it is all whole part. */
  lemma DigitsOnlyParts(t: string)
    requires AllDigits(t)
    ensures WholePart(t) == t && FractionPart(t) == ""
  {
    assert IndexOfChar(t, '.') == None;
  }

  /** "<whole>.<frac>" is read from its two parts. */
  lemma PointedSize(whole: string, frac: string)
    requires |whole| >= 1 && AllDigits(whole) && AllDigits(frac)
    ensures SizeValue(whole + "." + frac) == Converted(whole, frac)
  {
    var s := whole + "." + frac;
    PointedParts(whole, frac, s);
    RemoveAbsentChar(s, ',');
  }

  lemma PointedParts(whole: string, frac: string, s: string)
    requires AllDigits(whole) && AllDigits(frac) && s == whole + "." + frac
    ensures ',' !in s
    ensures WholePart(s) == whole && FractionPart(s) == frac
  {
    forall i | 0 <= i < |s| ensures s[i] != ',' {
      if i < |whole| { assert s[i] == whole[i]; }
      else if i > |whole| { assert s[i] == frac[i - |whole| - 1]; }
    }
    assert forall i :: 0 <= i < |whole| ==> s[i] == whole[i];
    assert s[|whole|] == '.';
    assert IndexOfChar(s, '.') == Some(|whole|);
    assert s[..|whole|] == whole && s[|whole| + 1..] == frac;
  }

  /** "<n>.000" is read as the integer n. */
  lemma ZeroFractionSize(whole: string, frac: string)
    requires |whole| >= 1 && AllDigits(whole) && AllDigits(frac)
    requires forall i :: 0 <= i < |frac| ==> frac[i] == '0'
    ensures SizeValue(whole + "." + frac) == Int(DigitsValue(whole))
  {
    PointedSize(whole, frac);
  }

  /** A fraction with a non-zero digit is kept as a decimal: the whole part's
      value and the fraction without its trailing zeros. */
  lemma FractionSize(whole: string, frac: string)
    requires |whole| >= 1 && AllDigits(whole) && AllDigits(frac)
    requires exists i :: 0 <= i < |frac| && frac[i] != '0'
    ensures SizeValue(whole + "." + frac) == Dec(DigitsValue(whole), TrimZeros(frac))
  {
    PointedSize(whole, frac);
  }

  /** The multiplier words are lower-case letters. */
  lemma MultiplierLetters(unit: string)
    requires unit in Multipliers - {""}
    ensures |unit| >= 7
    ensures forall i :: 0 <= i < |unit| ==> IsLower(unit[i])
  {
  }

  /** The word after "$<digits> " is read as the multiplier. */
  lemma UnitAfterAmount(s: string, q: nat, unit: string)
    requires unit in Multipliers - {""}
    requires q <= |s| && s[q..] == unit
    ensures MultiplierAt(s, q) == unit
  {
    MultiplierLetters(unit);
    assert s[q] == unit[0] && s[q + 1] == unit[1];
    assert LiteralAt(s, q, unit) by { assert s[q..q + |unit|] == unit; }
    assert LiteralAt(s, q, "million") ==> s[q] == 'm' by {
      if LiteralAt(s, q, "million") { assert s[q..q + 7][0] == s[q]; }
    }
    assert LiteralAt(s, q, "billion") ==> s[q] == 'b' by {
      if LiteralAt(s, q, "billion") { assert s[q..q + 7][0] == s[q]; }
    }
    assert LiteralAt(s, q, "trillion") ==> s[q + 1] == 'r' by {
      if LiteralAt(s, q, "trillion") { assert s[q..q + 8][1] == s[q + 1]; }
    }
  }

  /** "$<number> <unit>" has no capitals, so `lower()` leaves it alone. */
  lemma DollarTextLower(d: string, unit: string, s: string)
    requires forall i :: 0 <= i < |d| ==> !IsUpper(d[i])
    requires unit in Multipliers - {""}
    requires s == "$" + d + " " + unit
    ensures LowerStr(s) == s
  {
    MultiplierLetters(unit);
    forall i | 0 <= i < |s|
      ensures !IsUpper(s[i])
    {
      if 1 <= i <= |d| {
        assert s[i] == d[i - 1];
      } else if |d| + 2 <= i {
        assert s[i] == unit[i - |d| - 2];
      }
    }
    LowerOfLowercase(s);
  }

  /** Where the parts of "$<digits> <unit>" sit. */
  lemma DollarTextShape(d: string, unit: string, s: string)
    requires |d| >= 1 && AllDigits(d) && unit in Multipliers - {""}
    requires s == "$" + d + " " + unit
    ensures IsStripped(s) && LowerStr(s) == s
    ensures s[1..|d| + 1] == d && SpacesEnd(s, |d| + 1) == |d| + 2 && s[|d| + 2..] == unit
    ensures forall i :: 1 <= i < |d| + 1 ==> IsNumberChar(s[i])
    ensures !IsNumberChar(s[|d| + 1])
  {
    MultiplierLetters(unit);
    DollarTextLower(d, unit, s);
    assert s[|s| - 1] == unit[|unit| - 1];
    forall i | 1 <= i < |d| + 1
      ensures IsNumberChar(s[i])
    {
      assert s[i] == d[i - 1];
    }
    assert s[|d| + 2] == unit[0];
    assert s[1..|d| + 1] == d;
    assert s[|d| + 2..] == unit;
  }

  /** The text "$<n> <unit>" parses back to ("$", n, unit). */
  lemma IntegerAmountRoundTrip(n: nat, unit: string)
    requires unit in Multipliers - {""}
    ensures ParseMaximumOperationSize("$" + DecimalString(n) + " " + unit) == OperationSize("$", Int(n), unit)
  {
    var d := DecimalString(n);
    var s := "$" + d + " " + unit;
    DollarTextShape(d, unit, s);
    UnitAfterAmount(s, |d| + 2, unit);
    DecimalSize(n);
    DollarParse(s, |d| + 1, d, unit);
  }

  /** `DollarShape` with the size text and the multiplier already known. */
  lemma DollarParse(s: string, e: nat, d: string, unit: string)
    requires IsStripped(s) && |s| > 0 && LowerStr(s) == s
    requires 2 <= e <= |s| && s[0] == '$' && IsDigit(s[1])
    requires forall i :: 1 <= i < e ==> IsNumberChar(s[i])
    requires e == |s| || !IsNumberChar(s[e])
    requires s[1..e] == d && MultiplierAt(s, SpacesEnd(s, e)) == unit
    ensures ParseMaximumOperationSize(s) == OperationSize("$", SizeValue(d), unit)
  {
    DollarShape(s, e);
  }

  /** Blank input gives three empty strings. */
  lemma BlankAmount(raw: string)
    requires forall i :: 0 <= i < |raw| ==> IsSpace(raw[i])
    ensures ParseMaximumOperationSize(raw) == OperationSize("", Str(""), "")
  {
    assert LStrip(raw) == [];
  }
}
