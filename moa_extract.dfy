/**
 * The field extractors of the mortgage (MOA) schedule parser: the time, the
 * operation type, the securities and the dollar amounts that
 * fedao_parser.py pulls out of the text of one operation.
 */
module MortgageExtract {
  import opened Maybe
  import opened Text
  import opened Patterns

  // ---------------------------------------------------------------------------
  // Time (extract_time_from_text)

  const DefaultTime := "11:30 AM - 11:50 AM"

  /** `extract_time_from_text`: the leftmost time range, else the leftmost
      single time, else the default slot. */
  function ExtractTime(text: string): (r: string)
    ensures Search(ClockRange, text).Some? ==> var sp := Search(ClockRange, text).value;
      sp.end <= |text| && r == text[sp.start..sp.end]
    ensures Search(ClockRange, text).None? && Search(Clock, text).Some? ==> var sp := Search(Clock, text).value;
      sp.end <= |text| && r == text[sp.start..sp.end]
    ensures Search(Clock, text).None? ==> r == DefaultTime
    ensures Search(Clock, text).Some? ==> exists i :: OccursAt(text, r, i) && MatchAt(Clock, text, i).Some?
  {
    match Search(ClockRange, text)
    case Some(sp) =>
      SearchCovers(ClockRange, text, sp);
      RangeStartsWithClock(text, sp.start);
      Covered(text, sp)
    case None =>
      match Search(Clock, text)
      case Some(sp) =>
        SearchCovers(Clock, text, sp);
        Covered(text, sp)
      case None => DefaultTime
  }

  /** The text a search finds occurs where the match starts. */
  lemma SearchCovers(m: Anchored, text: string, sp: Span)
    requires Search(m, text) == Some(sp)
    ensures sp.start < sp.end <= |text| && MatchAt(m, text, sp.start).Some?
    ensures OccursAt(text, Covered(text, sp), sp.start)
  {
  }

  /** The first time range wins over any single time, even one that comes
      earlier in the text. */
  lemma RangeBeforeSingleTime(text: string, p: nat)
    requires MatchAt(ClockRange, text, p).Some?
    requires forall k: nat :: k < p ==> MatchAt(ClockRange, text, k).None?
    ensures ExtractTime(text) == text[p..MatchAt(ClockRange, text, p).value]
  {
    SearchAt(ClockRange, text, p);
  }

  lemma ClockBounds(s: string, p: nat)
    requires Clock(s, p).Some?
    ensures p < Clock(s, p).value <= |s|
    ensures ':' in s[p..Clock(s, p).value]
  {
    var q := OneOrTwoDigitsThen(s, p, ':').value;
    assert s[q - 1] == ':';
    assert s[p..Clock(s, p).value][q - 1 - p] == ':';
  }

  /** A time range begins with a single time. */
  lemma RangeStartsWithClock(s: string, p: nat)
    requires MatchAt(ClockRange, s, p).Some?
    ensures MatchAt(Clock, s, p).Some?
  {
    ClockBounds(s, p);
  }

  /** Every time the search finds holds a colon. */
  lemma ClockNeedsColon(text: string)
    ensures Search(Clock, text).Some? ==> ':' in text
  {
    if Search(Clock, text).Some? {
      var sp := Search(Clock, text).value;
      ClockBounds(text, sp.start);
      var w := text[sp.start..Clock(text, sp.start).value];
      var k :| 0 <= k < |w| && w[k] == ':';
      assert text[sp.start + k] == ':';
    }
  }

  /** A text without a colon has no time in it, so it gets the default slot. */
  lemma TimeWithoutColon(text: string)
    requires ':' !in text
    ensures ExtractTime(text) == DefaultTime
  {
    ClockNeedsColon(text);
  }

  // ---------------------------------------------------------------------------
  // Operation type (extract_operation_type_from_text)

  const DefaultType := "TBA Purchase"

  /** The phrases looked for, in priority order, with the type each gives. */
  const TypePriority: seq<(string, string)> := [
    ("TBA PURCHASE: 15-YEAR UNIFORM MBS", "TBA Purchase: 15-year Uniform MBS"),
    ("TBA PURCHASE: 30-YEAR GINNIE MAE", "TBA Purchase: 30-year Ginnie Mae"),
    ("TBA PURCHASE", "TBA Purchase"),
    ("PURCHASE", "Purchase"),
    ("SALE", "Sale")
  ]

  /** `re.sub(r'\s+', ' ', text.upper())` */
  function TypeText(text: string): string {
    CollapseSpaces(UpperStr(text))
  }

  /** `extract_operation_type_from_text`: the type of the first phrase of the
      priority list found in the upper-cased text, else "TBA Purchase". A
      plain "Purchase" needs "PURCHASE" without "TBA PURCHASE", and "Sale"
      needs "SALE" with no "PURCHASE" at all. */
  function ExtractOperationType(text: string): (r: string)
    ensures r == DefaultType || exists k :: 0 <= k < |TypePriority| && r == TypePriority[k].1
    ensures r == "Purchase" <==> Contains(TypeText(text), "PURCHASE") && !Contains(TypeText(text), "TBA PURCHASE")
    ensures r == "Sale" <==> Contains(TypeText(text), "SALE") && !Contains(TypeText(text), "PURCHASE")
  {
    var t := TypeText(text);
    PhrasesContainPurchase();
    if Contains(t, "TBA PURCHASE: 15-YEAR UNIFORM MBS") then
      ContainsTransitive(t, "TBA PURCHASE: 15-YEAR UNIFORM MBS", "TBA PURCHASE");
      ContainsTransitive(t, "TBA PURCHASE: 15-YEAR UNIFORM MBS", "PURCHASE");
      assert TypePriority[0].1 == "TBA Purchase: 15-year Uniform MBS";
      "TBA Purchase: 15-year Uniform MBS"
    else if Contains(t, "TBA PURCHASE: 30-YEAR GINNIE MAE") then
      ContainsTransitive(t, "TBA PURCHASE: 30-YEAR GINNIE MAE", "TBA PURCHASE");
      ContainsTransitive(t, "TBA PURCHASE: 30-YEAR GINNIE MAE", "PURCHASE");
      assert TypePriority[1].1 == "TBA Purchase: 30-year Ginnie Mae";
      "TBA Purchase: 30-year Ginnie Mae"
    else if Contains(t, "TBA PURCHASE") then
      ContainsTransitive(t, "TBA PURCHASE", "PURCHASE");
      "TBA Purchase"
    else if Contains(t, "PURCHASE") then
      assert TypePriority[3].1 == "Purchase";
      "Purchase"
    else if Contains(t, "SALE") then
      assert TypePriority[4].1 == "Sale";
      "Sale"
    else
      DefaultType
  }

  /** Every phrase before "PURCHASE" in the list contains it, and the two
      long ones contain "TBA PURCHASE". */
  lemma PhrasesContainPurchase()
    ensures Contains("TBA PURCHASE: 15-YEAR UNIFORM MBS", "TBA PURCHASE")
    ensures Contains("TBA PURCHASE: 30-YEAR GINNIE MAE", "TBA PURCHASE")
    ensures Contains("TBA PURCHASE: 15-YEAR UNIFORM MBS", "PURCHASE")
    ensures Contains("TBA PURCHASE: 30-YEAR GINNIE MAE", "PURCHASE")
    ensures Contains("TBA PURCHASE", "PURCHASE")
  {
    assert OccursAt("TBA PURCHASE: 15-YEAR UNIFORM MBS", "TBA PURCHASE", 0);
    assert OccursAt("TBA PURCHASE: 30-YEAR GINNIE MAE", "TBA PURCHASE", 0);
    assert OccursAt("TBA PURCHASE: 15-YEAR UNIFORM MBS", "PURCHASE", 4);
    assert OccursAt("TBA PURCHASE: 30-YEAR GINNIE MAE", "PURCHASE", 4);
    assert OccursAt("TBA PURCHASE", "PURCHASE", 4);
  }

  /** Reference definition: the type of the first entry of `table` whose
      phrase occurs in `t`, else `default`. */
  function FirstPhrase(table: seq<(string, string)>, t: string, default: string): (r: string)
    ensures r == default || exists k :: 0 <= k < |table| && r == table[k].1 && Contains(t, table[k].0)
  {
    if |table| == 0 then default
    else if Contains(t, table[0].0) then table[0].1
    else
      var r := FirstPhrase(table[1..], t, default);
      assert r != default ==> exists k :: 0 <= k < |table[1..]| && r == table[1..][k].1 && Contains(t, table[1..][k].0);
      if r != default then
        var k :| 0 <= k < |table[1..]| && r == table[1..][k].1 && Contains(t, table[1..][k].0);
        assert table[k + 1] == table[1..][k];
        r
      else r
  }

  /** The if-chain of `extract_operation_type_from_text` is the first-match
      lookup over the priority list. */
  lemma OperationTypeIsFirstPhrase(text: string)
    ensures ExtractOperationType(text) == FirstPhrase(TypePriority, TypeText(text), DefaultType)
  {
    var t := TypeText(text);
    assert TypePriority[1..][1..][1..][1..][1..] == [];
    calc {
      FirstPhrase(TypePriority, t, DefaultType);
      if Contains(t, TypePriority[0].0) then TypePriority[0].1 else FirstPhrase(TypePriority[1..], t, DefaultType);
    }
    calc {
      FirstPhrase(TypePriority[1..], t, DefaultType);
      if Contains(t, TypePriority[1].0) then TypePriority[1].1 else FirstPhrase(TypePriority[1..][1..], t, DefaultType);
    }
    calc {
      FirstPhrase(TypePriority[1..][1..], t, DefaultType);
      if Contains(t, TypePriority[2].0) then TypePriority[2].1 else FirstPhrase(TypePriority[1..][1..][1..], t, DefaultType);
    }
    calc {
      FirstPhrase(TypePriority[1..][1..][1..], t, DefaultType);
      if Contains(t, TypePriority[3].0) then TypePriority[3].1 else FirstPhrase(TypePriority[1..][1..][1..][1..], t, DefaultType);
    }
    calc {
      FirstPhrase(TypePriority[1..][1..][1..][1..], t, DefaultType);
      if Contains(t, TypePriority[4].0) then TypePriority[4].1 else FirstPhrase(TypePriority[1..][1..][1..][1..][1..], t, DefaultType);
    }
  }

  // ---------------------------------------------------------------------------
  // Operation type from a security (determine_operation_type_from_security)

  /** `determine_operation_type_from_security`: FNCI, G2SF and FNCL name
      their own type, checked in that order; anything else keeps the
      block's type. */
  function TypeFromSecurity(security: string, default: string): (r: string)
    ensures Contains(UpperStr(security), "FNCI") ==> r == "TBA Purchase: 15-year Uniform MBS"
    ensures !Contains(UpperStr(security), "FNCI") && Contains(UpperStr(security), "G2SF") ==>
      r == "TBA Purchase: 30-year Ginnie Mae"
    ensures (!Contains(UpperStr(security), "FNCI") && !Contains(UpperStr(security), "G2SF")
             && Contains(UpperStr(security), "FNCL")) ==> r == "TBA Purchase: 30-year Uniform MBS"
    ensures (!Contains(UpperStr(security), "FNCI") && !Contains(UpperStr(security), "G2SF")
             && !Contains(UpperStr(security), "FNCL")) ==> r == default
  {
    var u := UpperStr(security);
    if Contains(u, "FNCI") then "TBA Purchase: 15-year Uniform MBS"
    else if Contains(u, "G2SF") then "TBA Purchase: 30-year Ginnie Mae"
    else if Contains(u, "FNCL") then "TBA Purchase: 30-year Uniform MBS"
    else default
  }

  // ---------------------------------------------------------------------------
  // Distinct lists (the `found_securities` set beside the result list)

  predicate Distinct(xs: seq<string>) {
    forall i, j :: 0 <= i < j < |xs| ==> xs[i] != xs[j]
  }

  function Elements(xs: seq<string>): set<string> {
    set i | 0 <= i < |xs| :: xs[i]
  }

  lemma ElementsAppend(xs: seq<string>, c: string)
    ensures Elements(xs + [c]) == Elements(xs) + {c}
  {
    assert (xs + [c])[|xs|] == c;
    forall x | x in Elements(xs) ensures x in Elements(xs + [c]) {
      var i :| 0 <= i < |xs| && xs[i] == x;
      assert (xs + [c])[i] == x;
    }
  }

  /** The first occurrence, in the order of `cands`, of every item of `cands`
      that is not in `kept`. */
  function FirstNewItems(kept: seq<string>, cands: seq<string>): seq<string>
    decreases |cands|
  {
    if |cands| == 0 then []
    else
      var c := cands[|cands| - 1];
      var earlier := cands[..|cands| - 1];
      FirstNewItems(kept, earlier) + (if c in kept || c in earlier then [] else [c])
  }

  /** `cands` appended to `kept` one by one, each only when it is not there yet. */
  function AppendNew(kept: seq<string>, cands: seq<string>): (r: seq<string>)
    ensures Distinct(kept) ==> Distinct(r)
    ensures Elements(r) == Elements(kept) + Elements(cands)
    ensures r == kept + FirstNewItems(kept, cands)
    decreases |cands|
  {
    if |cands| == 0 then kept
    else
      var prev := AppendNew(kept, cands[..|cands| - 1]);
      var c := cands[|cands| - 1];
      assert cands == cands[..|cands| - 1] + [c];
      ElementsAppend(cands[..|cands| - 1], c);
      ElementsAppend(prev, c);
      AppendNewLast(kept, cands[..|cands| - 1], c, prev);
      if c in prev then prev else prev + [c]
  }

  lemma InElements(xs: seq<string>, x: string)
    ensures x in xs <==> x in Elements(xs)
  {
    if x in xs {
      var i :| 0 <= i < |xs| && xs[i] == x;
    }
  }

  /** The step of `AppendNew`: the last candidate is new to the list built so
      far exactly when it is in neither `kept` nor the earlier candidates. */
  lemma AppendNewLast(kept: seq<string>, earlier: seq<string>, c: string, prev: seq<string>)
    requires prev == kept + FirstNewItems(kept, earlier)
    requires Elements(prev) == Elements(kept) + Elements(earlier)
    ensures (c in prev) == (c in kept || c in earlier)
    ensures prev + [c] == kept + (FirstNewItems(kept, earlier) + [c])
  {
    InElements(prev, c);
    InElements(kept, c);
    InElements(earlier, c);
    AppendAssoc(kept, FirstNewItems(kept, earlier), [c]);
  }

  lemma {:induction false} AppendNewConcat(kept: seq<string>, a: seq<string>, b: seq<string>)
    ensures AppendNew(AppendNew(kept, a), b) == AppendNew(kept, a + b)
    decreases |b|
  {
    if |b| == 0 {
      assert a + b == a;
    } else {
      assert (a + b)[..|a + b| - 1] == a + b[..|b| - 1];
      assert (a + b)[|a + b| - 1] == b[|b| - 1];
      AppendNewConcat(kept, a, b[..|b| - 1]);
    }
  }

  lemma ElementsEmpty(xs: seq<string>)
    ensures Elements(xs) == {} <==> |xs| == 0
  {
    if |xs| > 0 {
      assert xs[0] in Elements(xs);
    }
  }

  /** The loop body that both ticker passes share: append each new security
      and record it in `found`. */
  method AddNew(securities: seq<string>, found: set<string>, cands: seq<string>)
    returns (securities': seq<string>, found': set<string>)
    requires found == Elements(securities)
    ensures securities' == AppendNew(securities, cands)
    ensures found' == Elements(securities')
  {
    securities', found' := securities, found;
    for j := 0 to |cands|
      invariant securities' == AppendNew(securities, cands[..j])
      invariant found' == Elements(securities')
    {
      assert cands[..j + 1][..j] == cands[..j];
      var security := cands[j];
      if security !in found' {
        ElementsAppend(securities', security);
        securities' := securities' + [security];
        found' := found' + {security};
      }
    }
    assert cands[..|cands|] == cands;
  }

  // ---------------------------------------------------------------------------
  // Securities: known tickers (method 1 of extract_securities_from_text)

  const KnownTickers: seq<string> := ["FNCI", "G2SF", "FNCL", "FGLMC", "UMBS"]

  /** `f"{ticker} {rate}"` */
  function Security(ticker: string, rate: string): string {
    ticker + " " + rate
  }

  lemma KnownTickerRate(s: string, ticker: string, sp: Span)
    requires MatchAt(KnownTicker(ticker), s, sp.start) == Some(sp.end)
    ensures sp.start + |ticker| <= |s|
    ensures KnownTickerRateStart(s, ticker, sp) < sp.end
    ensures Rate(s, KnownTickerRateStart(s, ticker, sp)) == Some(sp.end)
  {
    assert KnownTicker(ticker)(s, sp.start) == Some(sp.end);
    assert LiteralAtIgnoreCase(s, sp.start, ticker);
  }

  /** The rate group of a known-ticker match. */
  function KnownRate(s: string, ticker: string, sp: Span): (r: string)
    requires MatchAt(KnownTicker(ticker), s, sp.start) == Some(sp.end)
    ensures |r| >= 1
  {
    KnownTickerRate(s, ticker, sp);
    s[KnownTickerRateStart(s, ticker, sp)..sp.end]
  }

  /** `re.findall(TICKER\s+(\d+\.\d+), text, re.IGNORECASE)`, each rate
      written after the ticker's own spelling. */
  function KnownMatches(text: string, ticker: string): (r: seq<string>)
    ensures forall i :: 0 <= i < |r| ==> StartsWith(r[i], ticker + " ")
  {
    var spans := FindAll(KnownTicker(ticker), text);
    seq(|spans|, i requires 0 <= i < |spans| => Security(ticker, KnownRate(text, ticker, spans[i])))
  }

  /** The known-ticker matches of the first `n` tickers, in the order the
      passes visit them: all FNCI matches, then all G2SF matches, and so on. */
  function KnownCandidates(text: string, n: nat): seq<string>
    requires n <= |KnownTickers|
  {
    if n == 0 then [] else KnownCandidates(text, n - 1) + KnownMatches(text, KnownTickers[n - 1])
  }

  /** The list after the known-ticker loop has seen the first `n` tickers. */
  function KnownPass(text: string, n: nat): (r: seq<string>)
    requires n <= |KnownTickers|
    ensures r == AppendNew([], KnownCandidates(text, n))
  {
    if n == 0 then []
    else
      AppendNewConcat([], KnownCandidates(text, n - 1), KnownMatches(text, KnownTickers[n - 1]));
      AppendNew(KnownPass(text, n - 1), KnownMatches(text, KnownTickers[n - 1]))
  }

  // ---------------------------------------------------------------------------
  // Securities: general tickers (method 2)

  /** `^[A-Z]{2,5}$`: 2 to 5 upper-case letters. */
  predicate IsTicker(t: string) {
    2 <= |t| <= 5 && forall i :: 0 <= i < |t| ==> IsUpper(t[i])
  }

  /** 2 to 5 upper-case letters or digits: the names the repairs produce,
      G2SF included. */
  predicate IsTickerName(t: string) {
    2 <= |t| <= 5 && forall i :: 0 <= i < |t| ==> IsUpper(t[i]) || IsDigit(t[i])
  }

  /** The repairs of `clean_security_ticker`, before the ticker is validated:
      an "MBS" prefix is dropped; "SF" becomes G2SF or FGSF and "NCI"
      becomes FNCI when the text names them; a longer ticker ending in NCI
      becomes FNCI; a longer ticker ending in SF becomes G2SF unless it
      starts with G2. */
  function RepairTicker(ticker: string, context: string): string {
    var t := DropMbs(ticker);
    var up := UpperStr(context);
    if t == "SF" then
      if Contains(up, "G2SF") then "G2SF" else if Contains(up, "FGSF") then "FGSF" else t
    else if t == "NCI" then
      if Contains(up, "FNCI") then "FNCI" else t
    else if EndsWith(t, "NCI") && |t| > 3 then "FNCI"
    else if EndsWith(t, "SF") && |t| > 2 then
      if !StartsWith(t, "G2") then "G2SF" else t
    else t
  }

  /** The first repair: an "MBS" prefix dropped and the rest stripped. */
  function DropMbs(ticker: string): string {
    if StartsWith(ticker, "MBS") then Strip(ticker[3..]) else ticker
  }

  /** Every repair gives back the prefix-free ticker or one of three names. */
  lemma RepairOutcomes(ticker: string, context: string)
    ensures RepairTicker(ticker, context) in {DropMbs(ticker), "G2SF", "FGSF", "FNCI"}
  {
  }

  /** `clean_security_ticker` as written: the repaired ticker when it matches
      `^[A-Z]{2,5}$`, else None. */
  function CleanTickerAsWritten(ticker: string, context: string): (r: Option<string>)
    ensures r.Some? ==> IsTicker(r.value)
    ensures r.Some? <==> IsTicker(RepairTicker(ticker, context))
  {
    var t := RepairTicker(ticker, context);
    if IsTicker(t) then Some(t) else None
  }

  /** The repair to G2SF can never survive the letters-only check, so a
      ticker the repairs turn into G2SF is dropped. */
  lemma G2sfRepairRejected(ticker: string, context: string)
    requires RepairTicker(ticker, context) == "G2SF"
    ensures CleanTickerAsWritten(ticker, context).None?
  {
    assert !IsUpper("G2SF"[1]);
  }

  /** Two inputs that show it: "SF" in a text that names G2SF, and "XSF". */
  lemma G2sfRepairExamples()
    ensures CleanTickerAsWritten("SF", "G2SF").None?
    ensures CleanTickerAsWritten("XSF", "").None?
  {
    SfRepairedToG2sf();
    XsfRepairedToG2sf();
    G2sfRepairRejected("SF", "G2SF");
    G2sfRepairRejected("XSF", "");
  }

  lemma SfRepairedToG2sf()
    ensures RepairTicker("SF", "G2SF") == "G2SF"
  {
    assert DropMbs("SF") == "SF";
    assert UpperStr("G2SF") == "G2SF";
    assert OccursAt("G2SF", "G2SF", 0);
  }

  lemma XsfRepairedToG2sf()
    ensures RepairTicker("XSF", "") == "G2SF"
  {
    assert !StartsWith("XSF", "MBS") by { assert "XSF"[0] != 'M'; }
    assert "XSF" != "SF" && "XSF" != "NCI";
    assert !EndsWith("XSF", "NCI") by { assert "XSF"[0] != 'N'; }
    assert EndsWith("XSF", "SF");
    assert !StartsWith("XSF", "G2") by { assert "XSF"[0] != 'G'; }
  }

  /** `clean_security_ticker` with the check the repairs need: the repaired
      ticker when it is 2 to 5 capitals or digits, else None. */
  function CleanTicker(ticker: string, context: string): (r: Option<string>)
    ensures r.Some? ==> IsTickerName(r.value)
    ensures r.Some? <==> IsTickerName(RepairTicker(ticker, context))
  {
    var t := RepairTicker(ticker, context);
    if IsTickerName(t) then Some(t) else None
  }

  lemma RepairNames()
    ensures IsTickerName("G2SF") && IsTickerName("FGSF") && IsTickerName("SF")
    ensures IsTickerName("FNCI") && IsTickerName("NCI")
  {
    assert IsDigit("G2SF"[1]);
  }

  /** The context rules for the short tickers: "SF" becomes G2SF, else
      FGSF, when the text names them; "NCI" becomes FNCI when the text names
      it; a bare "MBS" is dropped. */
  lemma CleanShortTickers(context: string)
    ensures CleanTicker("SF", context) ==
      Some(if Contains(UpperStr(context), "G2SF") then "G2SF"
           else if Contains(UpperStr(context), "FGSF") then "FGSF" else "SF")
    ensures CleanTicker("NCI", context) ==
      Some(if Contains(UpperStr(context), "FNCI") then "FNCI" else "NCI")
    ensures CleanTicker("MBS", context).None?
  {
    RepairNames();
    assert "NCI"[..3] != "MBS" by { assert "NCI"[0] != "MBS"[0]; }
    assert !StartsWith("SF", "MBS") && !StartsWith("NCI", "MBS") && "SF" != "NCI";
    assert StartsWith("MBS", "MBS") && "MBS"[3..] == [];
    assert Strip([]) == [];
  }

  /** Dropping the prefix from a ticker of capitals leaves capitals, and
      there is nothing to strip. */
  lemma DropMbsKeepsCapitals(ticker: string)
    requires forall i :: 0 <= i < |ticker| ==> IsUpper(ticker[i])
    ensures StartsWith(ticker, "MBS") ==> DropMbs(ticker) == ticker[3..]
    ensures forall i :: 0 <= i < |DropMbs(ticker)| ==> IsUpper(DropMbs(ticker)[i])
  {
    if StartsWith(ticker, "MBS") {
      var rest := ticker[3..];
      assert forall i :: 0 <= i < |rest| ==> IsUpper(rest[i]) by {
        forall i | 0 <= i < |rest| ensures IsUpper(rest[i]) {
          assert rest[i] == ticker[3 + i];
        }
      }
      CapitalsStripped(rest);
    }
  }

  /** Capitals have no whitespace to strip. */
  lemma CapitalsStripped(s: string)
    requires forall i :: 0 <= i < |s| ==> IsUpper(s[i])
    ensures Strip(s) == s
  {
    if s != [] {
      assert IsUpper(s[0]) && IsUpper(s[|s| - 1]);
    }
    StrippedIsFixed(s);
  }

  /** The repairs keep a ticker of capitals made of capitals, except for
      the G2SF they may produce. */
  lemma RepairKeepsCapitals(ticker: string, context: string)
    requires forall i :: 0 <= i < |ticker| ==> IsUpper(ticker[i])
    ensures RepairTicker(ticker, context) == "G2SF"
      || forall i :: 0 <= i < |RepairTicker(ticker, context)| ==> IsUpper(RepairTicker(ticker, context)[i])
  {
    DropMbsKeepsCapitals(ticker);
    RepairOutcomes(ticker, context);
    CapitalsOrG2sf(RepairTicker(ticker, context), DropMbs(ticker));
  }

  lemma CapitalsOrG2sf(r: string, t: string)
    requires r in {t, "G2SF", "FGSF", "FNCI"}
    requires forall i :: 0 <= i < |t| ==> IsUpper(t[i])
    ensures r == "G2SF" || forall i :: 0 <= i < |r| ==> IsUpper(r[i])
  {
    assert IsUpper("FGSF"[1]) && IsUpper("FNCI"[1]);
  }

  /** The suffix rules: without an "MBS" prefix, a ticker longer than NCI
      that ends in NCI becomes FNCI, and one longer than SF that ends in SF
      and does not start with G2 becomes G2SF. */
  lemma CleanSuffixTickers(ticker: string, context: string)
    ensures !StartsWith(ticker, "MBS") && |ticker| > 3 && EndsWith(ticker, "NCI") ==>
      CleanTicker(ticker, context) == Some("FNCI")
    ensures (!StartsWith(ticker, "MBS") && !StartsWith(ticker, "G2") && |ticker| > 2
             && EndsWith(ticker, "SF")) ==> CleanTicker(ticker, context) == Some("G2SF")
  {
    RepairNames();
    if EndsWith(ticker, "NCI") && |ticker| > 3 {
      assert ticker != "SF" && ticker != "NCI";
    }
    if EndsWith(ticker, "SF") && |ticker| > 2 {
      assert ticker[|ticker| - 1] == 'F';
      assert !EndsWith(ticker, "NCI");
      assert ticker != "SF" && ticker != "NCI";
    }
  }

  /** Widening the check changes the outcome for G2SF only. */
  lemma CleanTickerOnlyAddsG2sf(ticker: string, context: string)
    requires forall i :: 0 <= i < |ticker| ==> IsUpper(ticker[i])
    ensures RepairTicker(ticker, context) != "G2SF" ==> CleanTicker(ticker, context) == CleanTickerAsWritten(ticker, context)
    ensures RepairTicker(ticker, context) == "G2SF" ==>
      CleanTicker(ticker, context) == Some("G2SF") && CleanTickerAsWritten(ticker, context).None?
  {
    RepairKeepsCapitals(ticker, context);
    RepairNames();
    var r := RepairTicker(ticker, context);
    if r == "G2SF" {
      G2sfRepairRejected(ticker, context);
    }
  }

  lemma GeneralTickerGroups(s: string, sp: Span)
    requires MatchAt(GeneralTicker, s, sp.start) == Some(sp.end)
    ensures sp.start < UppersEnd(s, sp.start) < SpacesEnd(s, UppersEnd(s, sp.start)) < sp.end <= |s|
    ensures UppersEnd(s, sp.start) - sp.start <= 8
  {
  }

  /** Group 1 of a general match: the run of capitals. */
  function GeneralTickerText(s: string, sp: Span): (r: string)
    requires MatchAt(GeneralTicker, s, sp.start) == Some(sp.end)
    ensures 1 <= |r| <= 8 && forall i :: 0 <= i < |r| ==> IsUpper(r[i])
  {
    GeneralTickerGroups(s, sp);
    s[sp.start..UppersEnd(s, sp.start)]
  }

  /** Group 2 of a general match: the rate. */
  function GeneralRate(s: string, sp: Span): string
    requires MatchAt(GeneralTicker, s, sp.start) == Some(sp.end)
  {
    GeneralTickerGroups(s, sp);
    s[SpacesEnd(s, UppersEnd(s, sp.start))..sp.end]
  }

  /** How the general pass cleans a ticker in the context of the text:
      `CleanTickerAsWritten` in the program, `CleanTicker` as intended. */
  type Cleaner = (string, string) -> Option<string>

  /** The security one general match contributes: the cleaned ticker and
      the rate, or nothing when the ticker does not survive cleaning. */
  function GeneralCandidate(text: string, sp: Span, clean: Cleaner): (r: seq<string>)
    requires MatchAt(GeneralTicker, text, sp.start) == Some(sp.end)
    ensures |r| <= 1
  {
    CandidateOf(clean(GeneralTickerText(text, sp), text), GeneralRate(text, sp))
  }

  /** The security a cleaned ticker gives with its rate, if any. */
  function CandidateOf(cleaned: Option<string>, rate: string): (r: seq<string>)
    ensures |r| <= 1
  {
    match cleaned
    case Some(t) => if |t| >= 2 then [Security(t, rate)] else []
    case None => []
  }

  function GeneralCandidatesOf(text: string, spans: seq<Span>, clean: Cleaner): seq<string>
    requires forall i :: 0 <= i < |spans| ==> MatchAt(GeneralTicker, text, spans[i].start) == Some(spans[i].end)
  {
    if |spans| == 0 then []
    else GeneralCandidatesOf(text, spans[..|spans| - 1], clean) + GeneralCandidate(text, spans[|spans| - 1], clean)
  }

  lemma GeneralCandidatesStep(text: string, spans: seq<Span>, j: nat, clean: Cleaner)
    requires j < |spans|
    requires forall i :: 0 <= i < |spans| ==> MatchAt(GeneralTicker, text, spans[i].start) == Some(spans[i].end)
    ensures GeneralCandidatesOf(text, spans[..j + 1], clean) == GeneralCandidatesOf(text, spans[..j], clean) + GeneralCandidate(text, spans[j], clean)
  {
    assert spans[..j + 1][..j] == spans[..j];
  }

  /** `re.findall(r'([A-Z]{1,8})\s+(\d+\.\d+)', text)` with each ticker cleaned. */
  function GeneralCandidates(text: string, clean: Cleaner): seq<string> {
    GeneralCandidatesOf(text, FindAll(GeneralTicker, text), clean)
  }

  /** The list without the G2SF securities. */
  function WithoutG2sf(xs: seq<string>): (r: seq<string>)
    ensures forall i :: 0 <= i < |r| ==> !StartsWith(r[i], "G2SF ")
  {
    if |xs| == 0 then []
    else WithoutG2sf(xs[..|xs| - 1]) + (if StartsWith(xs[|xs| - 1], "G2SF ") then [] else [xs[|xs| - 1]])
  }

  /** One general match: the program's check gives what the intended one
      gives, except that a G2SF security is missing. */
  lemma GeneralCandidateDropsG2sf(text: string, sp: Span)
    requires MatchAt(GeneralTicker, text, sp.start) == Some(sp.end)
    ensures GeneralCandidate(text, sp, CleanTickerAsWritten) == WithoutG2sf(GeneralCandidate(text, sp, CleanTicker))
  {
    var ticker := GeneralTickerText(text, sp);
    CleanOutcomes(ticker, text);
    CandidateDropsG2sf(CleanTickerAsWritten(ticker, text), CleanTicker(ticker, text), GeneralRate(text, sp));
  }

  /** For a ticker of capitals, the two checks agree, or the intended one
      keeps a G2SF the program drops. */
  lemma CleanOutcomes(ticker: string, context: string)
    requires forall i :: 0 <= i < |ticker| ==> IsUpper(ticker[i])
    ensures CleanTickerAsWritten(ticker, context).Some? ==> IsTicker(CleanTickerAsWritten(ticker, context).value)
    ensures CleanTicker(ticker, context) == CleanTickerAsWritten(ticker, context)
      || (CleanTicker(ticker, context) == Some("G2SF") && CleanTickerAsWritten(ticker, context).None?)
  {
    CleanTickerOnlyAddsG2sf(ticker, context);
  }

  /** A ticker the program keeps never reads as G2SF, so removing the G2SF
      securities turns the intended candidate into the program's. */
  lemma CandidateDropsG2sf(written: Option<string>, intended: Option<string>, rate: string)
    requires written.Some? ==> IsTicker(written.value)
    requires intended == written || (intended == Some("G2SF") && written.None?)
    ensures CandidateOf(written, rate) == WithoutG2sf(CandidateOf(intended, rate))
  {
    if intended == Some("G2SF") && written.None? {
      assert StartsWith(Security("G2SF", rate), "G2SF ");
      assert WithoutG2sf([Security("G2SF", rate)]) == WithoutG2sf([]) + [];
    } else if written.Some? && |written.value| >= 2 {
      var t := written.value;
      assert !StartsWith(Security(t, rate), "G2SF ") by {
        assert Security(t, rate)[1] == t[1];
      }
      assert WithoutG2sf([Security(t, rate)]) == WithoutG2sf([]) + [Security(t, rate)];
    }
  }

  /** The general pass as written is the intended pass with its G2SF
      securities removed. */
  lemma {:induction false} GeneralPassDropsG2sf(text: string, spans: seq<Span>)
    requires forall i :: 0 <= i < |spans| ==> MatchAt(GeneralTicker, text, spans[i].start) == Some(spans[i].end)
    ensures GeneralCandidatesOf(text, spans, CleanTickerAsWritten) == WithoutG2sf(GeneralCandidatesOf(text, spans, CleanTicker))
  {
    if |spans| > 0 {
      var init := spans[..|spans| - 1];
      var last := spans[|spans| - 1];
      GeneralPassDropsG2sf(text, init);
      GeneralCandidateDropsG2sf(text, last);
      WithoutG2sfAppend(GeneralCandidatesOf(text, init, CleanTicker), GeneralCandidate(text, last, CleanTicker));
    }
  }

  lemma WithoutG2sfAppend(xs: seq<string>, ys: seq<string>)
    requires |ys| <= 1
    ensures WithoutG2sf(xs + ys) == WithoutG2sf(xs) + WithoutG2sf(ys)
  {
    if |ys| == 1 {
      assert (xs + ys)[..|xs + ys| - 1] == xs;
      assert WithoutG2sf(ys) == WithoutG2sf([]) + (if StartsWith(ys[0], "G2SF ") then [] else [ys[0]]);
    } else {
      assert xs + ys == xs;
    }
  }

  // ---------------------------------------------------------------------------
  // Securities: context around each rate (extract_securities_contextual)

  /** `re.findall(r'(\d+\.\d+)', text)` */
  function RateStrings(text: string): seq<string> {
    var spans := FindAll(Rate, text);
    seq(|spans|, i requires 0 <= i < |spans| => Covered(text, spans[i]))
  }

  /** `re.findall(r'\b([A-Z]{2,5})\b', context)` */
  function BoundedTickers(context: string): seq<string> {
    var spans := FindAll(BoundedTicker, context);
    seq(|spans|, i requires 0 <= i < |spans| => Covered(context, spans[i]))
  }

  /** The tickers in the window from 50 characters before to 20 characters
      after the first occurrence of `rate` in the text. */
  function ContextTickers(text: string, rate: string): seq<string> {
    var pos := Find(text, rate);
    if pos > -1 then
      var lo := if pos - 50 > 0 then pos - 50 else 0;
      var hi := if pos + 20 < |text| then pos + 20 else |text|;
      BoundedTickers(text[lo..hi])
    else []
  }

  /** A ticker the inner loop takes: known, and its security with `rate`
      not listed yet. */
  predicate Qualifies(kept: seq<string>, ticker: string, rate: string) {
    ticker in KnownTickers && Security(ticker, rate) !in kept
  }

  /** The inner loop: the first known ticker among `tickers` whose security
      with `rate` is not listed yet is appended; otherwise nothing is. */
  function PickContextual(kept: seq<string>, tickers: seq<string>, rate: string): (r: seq<string>)
    ensures Distinct(kept) ==> Distinct(r)
    ensures r == kept || exists t :: t in KnownTickers && r == kept + [Security(t, rate)]
    decreases |tickers|
  {
    if |tickers| == 0 then kept
    else if Qualifies(kept, tickers[0], rate) then kept + [Security(tickers[0], rate)]
    else PickContextual(kept, tickers[1..], rate)
  }

  /** `tickers[j]` is the first ticker the inner loop takes. */
  predicate FirstQualifying(kept: seq<string>, tickers: seq<string>, rate: string, j: nat)
    requires j < |tickers|
  {
    Qualifies(kept, tickers[j], rate) && forall i :: 0 <= i < j ==> !Qualifies(kept, tickers[i], rate)
  }

  /** The inner loop appends the security of the first qualifying ticker, and
      leaves the list as it is exactly when no ticker qualifies. */
  lemma {:induction false} PickContextualChoice(kept: seq<string>, tickers: seq<string>, rate: string)
    ensures PickContextual(kept, tickers, rate) == kept <==>
      forall i :: 0 <= i < |tickers| ==> !Qualifies(kept, tickers[i], rate)
    ensures PickContextual(kept, tickers, rate) != kept ==> (exists j :: 0 <= j < |tickers| && FirstQualifying(kept, tickers, rate, j) && PickContextual(kept, tickers, rate) == kept + [Security(tickers[j], rate)])
    decreases |tickers|
  {
    if |tickers| > 0 {
      if Qualifies(kept, tickers[0], rate) {
        assert FirstQualifying(kept, tickers, rate, 0);
      } else {
        PickContextualChoice(kept, tickers[1..], rate);
        PickContextualSkip(kept, tickers, rate, PickContextual(kept, tickers[1..], rate));
      }
    }
  }

  /** Skipping a first ticker that does not qualify shifts the choice by one. */
  lemma PickContextualSkip(kept: seq<string>, tickers: seq<string>, rate: string, r: seq<string>)
    requires |tickers| > 0 && !Qualifies(kept, tickers[0], rate)
    requires r == kept <==> forall i :: 0 <= i < |tickers| - 1 ==> !Qualifies(kept, tickers[1..][i], rate)
    requires r != kept ==> (exists j :: 0 <= j < |tickers| - 1 && FirstQualifying(kept, tickers[1..], rate, j) && r == kept + [Security(tickers[1..][j], rate)])
    ensures r == kept <==> forall i :: 0 <= i < |tickers| ==> !Qualifies(kept, tickers[i], rate)
    ensures r != kept ==> (exists j :: 0 <= j < |tickers| && FirstQualifying(kept, tickers, rate, j) && r == kept + [Security(tickers[j], rate)])
  {
    if r != kept {
      var j :| 0 <= j < |tickers| - 1 && FirstQualifying(kept, tickers[1..], rate, j)
        && r == kept + [Security(tickers[1..][j], rate)];
      assert tickers[1..][j] == tickers[j + 1];
      forall i | 0 <= i < j + 1 ensures !Qualifies(kept, tickers[i], rate) {
        if i > 0 {
          assert tickers[1..][i - 1] == tickers[i];
        }
      }
      assert FirstQualifying(kept, tickers, rate, j + 1);
    } else {
      forall i | 0 <= i < |tickers| ensures !Qualifies(kept, tickers[i], rate) {
        if i > 0 {
          assert tickers[1..][i - 1] == tickers[i];
        }
      }
    }
  }

  /** A known ticker with one of `rates`. */
  predicate FromRates(security: string, rates: seq<string>) {
    exists t, k :: t in KnownTickers && 0 <= k < |rates| && security == Security(t, rates[k])
  }

  /** The outer loop over the rates. */
  function ContextualFrom(text: string, rates: seq<string>): (r: seq<string>)
    ensures Distinct(r)
    ensures forall i :: 0 <= i < |r| ==> FromRates(r[i], rates)
    decreases |rates|
  {
    if |rates| == 0 then []
    else
      var prev := ContextualFrom(text, rates[..|rates| - 1]);
      var rate := rates[|rates| - 1];
      var r := PickContextual(prev, ContextTickers(text, rate), rate);
      ContextualStep(prev, rates, r);
      r
  }

  /** One turn of the outer loop keeps every listed security a known ticker
      with one of the rates seen so far. */
  lemma ContextualStep(prev: seq<string>, rates: seq<string>, r: seq<string>)
    requires |rates| > 0
    requires forall i :: 0 <= i < |prev| ==> FromRates(prev[i], rates[..|rates| - 1])
    requires r == prev || exists t :: t in KnownTickers && r == prev + [Security(t, rates[|rates| - 1])]
    ensures forall i :: 0 <= i < |r| ==> FromRates(r[i], rates)
  {
    forall i | 0 <= i < |r| ensures FromRates(r[i], rates) {
      if i < |prev| {
        var earlier := rates[..|rates| - 1];
        assert FromRates(prev[i], earlier);
        var t, k :| t in KnownTickers && 0 <= k < |earlier| && prev[i] == Security(t, earlier[k]);
        assert r[i] == prev[i];
        assert earlier[k] == rates[k];
      } else {
        var t :| t in KnownTickers && r == prev + [Security(t, rates[|rates| - 1])];
        assert r[i] == Security(t, rates[|rates| - 1]);
      }
    }
  }

  /** `rate` is listed in `r` with a known ticker from `tickers`. */
  predicate Represented(r: seq<string>, tickers: seq<string>, rate: string) {
    exists t :: t in tickers && t in KnownTickers && Security(t, rate) in r
  }

  /** The contextual pass misses no rate: when the window around a rate
      holds a known ticker, the result lists that rate with a known ticker
      of its window (the first one not listed yet, or one listed earlier). */
  lemma {:induction false} ContextualComplete(text: string, rates: seq<string>, k: nat, j: nat)
    requires k < |rates| && j < |ContextTickers(text, rates[k])|
    requires ContextTickers(text, rates[k])[j] in KnownTickers
    ensures Represented(ContextualFrom(text, rates), ContextTickers(text, rates[k]), rates[k])
    decreases |rates|
  {
    var earlier := rates[..|rates| - 1];
    var rate := rates[|rates| - 1];
    var prev := ContextualFrom(text, earlier);
    ContextualFromLast(text, rates);
    if k < |rates| - 1 {
      assert earlier[k] == rates[k];
      ContextualComplete(text, earlier, k, j);
      PickKeepsRepresented(prev, ContextTickers(text, rate), rate, ContextTickers(text, rates[k]), rates[k]);
    } else {
      PickRepresents(prev, ContextTickers(text, rate), rate, j);
    }
  }

  lemma ContextualFromLast(text: string, rates: seq<string>)
    requires |rates| > 0
    ensures ContextualFrom(text, rates)
      == PickContextual(ContextualFrom(text, rates[..|rates| - 1]), ContextTickers(text, rates[|rates| - 1]), rates[|rates| - 1])
  {
  }

  /** A known ticker among `tickers` leaves `rate` represented after the inner loop. */
  lemma PickRepresents(kept: seq<string>, tickers: seq<string>, rate: string, j: nat)
    requires j < |tickers| && tickers[j] in KnownTickers
    ensures Represented(PickContextual(kept, tickers, rate), tickers, rate)
  {
    var r := PickContextual(kept, tickers, rate);
    PickContextualChoice(kept, tickers, rate);
    if r == kept {
      assert !Qualifies(kept, tickers[j], rate);
      assert Security(tickers[j], rate) in r;
    } else {
      var i :| 0 <= i < |tickers| && FirstQualifying(kept, tickers, rate, i) && r == kept + [Security(tickers[i], rate)];
      assert Security(tickers[i], rate) == r[|kept|];
    }
  }

  /** The inner loop removes nothing, so what was represented stays so. */
  lemma PickKeepsRepresented(kept: seq<string>, tickers: seq<string>, rate: string, others: seq<string>, other: string)
    requires Represented(kept, others, other)
    ensures Represented(PickContextual(kept, tickers, rate), others, other)
  {
    var r := PickContextual(kept, tickers, rate);
    var t :| t in others && t in KnownTickers && Security(t, other) in kept;
    assert r == kept || exists u :: u in KnownTickers && r == kept + [Security(u, rate)];
    assert Security(t, other) in r;
  }

  /** The securities the first `k` rates give come first, in the same order:
      each later rate can only append. */
  lemma {:induction false} ContextualPrefix(text: string, rates: seq<string>, k: nat)
    requires k <= |rates|
    ensures ContextualFrom(text, rates[..k]) <= ContextualFrom(text, rates)
    decreases |rates|
  {
    if k < |rates| {
      var earlier := rates[..|rates| - 1];
      assert earlier[..k] == rates[..k];
      ContextualPrefix(text, earlier, k);
      ContextualFromLast(text, rates);
      var prev := ContextualFrom(text, earlier);
      var r := ContextualFrom(text, rates);
      assert prev <= r by {
        assert r == prev || exists u :: u in KnownTickers && r == prev + [Security(u, rates[|rates| - 1])];
      }
    } else {
      assert rates[..k] == rates;
    }
  }

  /** `extract_securities_contextual` */
  function Contextual(text: string): (r: seq<string>)
    ensures Distinct(r)
    ensures forall i :: 0 <= i < |r| ==> FromRates(r[i], RateStrings(text))
  {
    ContextualFrom(text, RateStrings(text))
  }

  /** The inner loop of `extract_securities_contextual`, with its break. */
  method PickTicker(securities: seq<string>, tickers: seq<string>, rate: string) returns (r: seq<string>)
    ensures r == PickContextual(securities, tickers, rate)
  {
    r := securities;
    var j := 0;
    while j < |tickers|
      invariant 0 <= j <= |tickers|
      invariant PickContextual(securities, tickers, rate) == PickContextual(securities, tickers[j..], rate)
    {
      assert tickers[j..][1..] == tickers[j + 1..];
      var ticker := tickers[j];
      if ticker in KnownTickers {
        var security := Security(ticker, rate);
        if security !in r {
          r := r + [security];
          return;
        }
      }
      j := j + 1;
    }
  }

  method ExtractSecuritiesContextual(text: string) returns (securities: seq<string>)
    ensures securities == Contextual(text)
  {
    securities := ContextualLoop(text, RateStrings(text));
  }

  /** The outer loop of `extract_securities_contextual` over the rates. */
  method ContextualLoop(text: string, rates: seq<string>) returns (securities: seq<string>)
    ensures securities == ContextualFrom(text, rates)
  {
    securities := [];
    for k := 0 to |rates|
      invariant securities == ContextualFrom(text, rates[..k])
    {
      assert rates[..k + 1][..k] == rates[..k];
      var rate := rates[k];
      securities := PickTicker(securities, ContextTickers(text, rate), rate);
    }
    assert rates[..|rates|] == rates;
  }

  // ---------------------------------------------------------------------------
  // Securities: the three passes (extract_securities_from_text)

  /** The distinct securities of the first pass that finds any: known
      tickers, then general tickers cleaned by `clean`, then the context
      around each rate. */
  function SecuritiesWith(text: string, clean: Cleaner): (r: seq<string>)
    ensures Distinct(r)
    ensures |KnownCandidates(text, 5)| > 0 ==> r == FirstNewItems([], KnownCandidates(text, 5))
    ensures |KnownCandidates(text, 5)| > 0 ==> Elements(r) == Elements(KnownCandidates(text, 5))
    ensures |KnownCandidates(text, 5)| == 0 && |GeneralCandidates(text, clean)| > 0 ==>
      r == FirstNewItems([], GeneralCandidates(text, clean))
    ensures |KnownCandidates(text, 5)| == 0 && |GeneralCandidates(text, clean)| > 0 ==>
      Elements(r) == Elements(GeneralCandidates(text, clean))
    ensures |KnownCandidates(text, 5)| == 0 && |GeneralCandidates(text, clean)| == 0 ==> r == Contextual(text)
  {
    FirstPass(KnownPass(text, 5), KnownCandidates(text, 5), GeneralCandidates(text, clean), Contextual(text))
  }

  /** The known list when it is not empty, else the new general candidates
      when there are any, else the contextual list. */
  function FirstPass(known: seq<string>, knownCands: seq<string>, generalCands: seq<string>, contextual: seq<string>)
    : (r: seq<string>)
    requires known == AppendNew([], knownCands) && Distinct(contextual)
    ensures Distinct(r)
    ensures |knownCands| > 0 ==> r == FirstNewItems([], knownCands)
    ensures |knownCands| > 0 ==> Elements(r) == Elements(knownCands)
    ensures |knownCands| == 0 && |generalCands| > 0 ==> r == FirstNewItems([], generalCands)
    ensures |knownCands| == 0 && |generalCands| > 0 ==> Elements(r) == Elements(generalCands)
    ensures |knownCands| == 0 && |generalCands| == 0 ==> r == contextual
  {
    ElementsEmpty(known);
    ElementsEmpty(knownCands);
    assert known == FirstNewItems([], knownCands);
    if |known| > 0 then known
    else
      var general := AppendNew([], generalCands);
      ElementsEmpty(general);
      ElementsEmpty(generalCands);
      assert general == FirstNewItems([], generalCands);
      if |general| > 0 then general else contextual
  }

  /** `extract_securities_from_text` as the program runs it. */
  function SecuritiesOf(text: string): seq<string> {
    SecuritiesWith(text, CleanTickerAsWritten)
  }

  /** `extract_securities_from_text` with the repaired G2SF kept. */
  function IntendedSecuritiesOf(text: string): seq<string> {
    SecuritiesWith(text, CleanTicker)
  }

  /** Method 1 of `extract_securities_from_text`: each known ticker's
      matches in turn. */
  method KnownTickerPass(text: string) returns (securities: seq<string>, found: set<string>)
    ensures securities == KnownPass(text, |KnownTickers|)
    ensures found == Elements(securities)
  {
    securities := [];
    found := {};
    for k := 0 to |KnownTickers|
      invariant securities == KnownPass(text, k)
      invariant found == Elements(securities)
    {
      securities, found := AddNew(securities, found, KnownMatches(text, KnownTickers[k]));
    }
  }

  /** Method 2 of `extract_securities_from_text`: the general matches, each
      ticker cleaned, onto the (empty) list of method 1. */
  method GeneralTickerPass(text: string, securities: seq<string>, found: set<string>, clean: Cleaner)
    returns (securities': seq<string>, found': set<string>)
    requires found == Elements(securities)
    ensures securities' == AppendNew(securities, GeneralCandidates(text, clean))
    ensures found' == Elements(securities')
  {
    securities', found' := AddGeneralMatches(text, FindAll(GeneralTicker, text), securities, found, clean);
  }

  /** The loop of method 2 over the matches `spans`. */
  method AddGeneralMatches(text: string, spans: seq<Span>, securities: seq<string>, found: set<string>, clean: Cleaner)
    returns (securities': seq<string>, found': set<string>)
    requires forall i :: 0 <= i < |spans| ==> MatchAt(GeneralTicker, text, spans[i].start) == Some(spans[i].end)
    requires found == Elements(securities)
    ensures securities' == AppendNew(securities, GeneralCandidatesOf(text, spans, clean))
    ensures found' == Elements(securities')
  {
    securities', found' := securities, found;
    for j := 0 to |spans|
      invariant securities' == AppendNew(securities, GeneralCandidatesOf(text, spans[..j], clean))
      invariant found' == Elements(securities')
    {
      var next := GeneralCandidate(text, spans[j], clean);
      GeneralCandidatesStep(text, spans, j, clean);
      AppendNewConcat(securities, GeneralCandidatesOf(text, spans[..j], clean), next);
      securities', found' := AddNew(securities', found', next);
    }
    assert spans[..|spans|] == spans;
  }

  /** `extract_securities_from_text`, with `clean` for the general pass. */
  method ExtractSecurities(text: string, clean: Cleaner) returns (securities: seq<string>)
    ensures securities == SecuritiesWith(text, clean)
  {
    var found;
    securities, found := KnownTickerPass(text);
    if |securities| == 0 {
      securities, found := GeneralTickerPass(text, securities, found, clean);
    }
    if |securities| == 0 {
      securities := ExtractSecuritiesContextual(text);
    }
  }

  // ---------------------------------------------------------------------------
  // Amounts (extract_individual_amounts, extract_operation_maximum)

  /** `[int(a) for a in re.findall(r'\$(\d+)\s+Million', text, re.IGNORECASE)]` */
  function MillionValues(text: string): (r: seq<nat>)
    ensures |r| == |AllMillions(text)|
  {
    var ds := AllMillions(text);
    seq(|ds|, i requires 0 <= i < |ds| => DigitsValue(ds[i]))
  }

  /** `f"${n} Million"` */
  function MillionsLabel(n: nat): string {
    "$" + DecimalString(n) + " Million"
  }

  /** `max(values)` */
  function MaxOf(xs: seq<nat>): (m: nat)
    requires |xs| > 0
    ensures m in xs
    ensures forall i :: 0 <= i < |xs| ==> xs[i] <= m
  {
    if |xs| == 1 then xs[0]
    else
      var m := MaxOf(xs[..|xs| - 1]);
      assert forall i :: 0 <= i < |xs| - 1 ==> xs[..|xs| - 1][i] == xs[i];
      if xs[|xs| - 1] > m then xs[|xs| - 1] else m
  }

  /** `values.count(v)` */
  function Count(xs: seq<nat>, v: nat): nat {
    multiset(xs)[v]
  }

  /** `[v for v in xs if v != m or all.count(v) > 1]` */
  function KeepIndividual(xs: seq<nat>, all: seq<nat>, m: nat): seq<nat> {
    if |xs| == 0 then []
    else
      var v := xs[|xs| - 1];
      KeepIndividual(xs[..|xs| - 1], all, m) + (if v != m || Count(all, v) > 1 then [v] else [])
  }

  /** The amount values `extract_individual_amounts` keeps: one or two
      values are all kept; with more, the largest is dropped unless it
      occurs more than once, and an emptied list falls back to all values
      but the last. */
  function IndividualValues(values: seq<nat>): seq<nat> {
    if |values| <= 2 then values
    else
      var kept := KeepIndividual(values, values, MaxOf(values));
      if |kept| == 0 then values[..|values| - 1] else kept
  }

  /** `extract_individual_amounts` */
  function ExtractIndividualAmounts(text: string): seq<string> {
    var vs := IndividualValues(MillionValues(text));
    seq(|vs|, i requires 0 <= i < |vs| => MillionsLabel(vs[i]))
  }

  /** `"$<max> Million"` over the given values, or `"$0 Million"` without any. */
  function MaximumLabel(values: seq<nat>): string {
    if |values| == 0 then "$0 Million" else MillionsLabel(MaxOf(values))
  }

  /** `extract_operation_maximum` */
  function ExtractOperationMaximum(text: string): string {
    MaximumLabel(MillionValues(text))
  }

  lemma {:induction false} KeepAllWhenRepeated(xs: seq<nat>, all: seq<nat>, m: nat)
    requires Count(all, m) > 1
    ensures KeepIndividual(xs, all, m) == xs
  {
    if |xs| > 0 {
      var v := xs[|xs| - 1];
      KeepAllWhenRepeated(xs[..|xs| - 1], all, m);
      assert v != m || Count(all, v) > 1;
      assert KeepIndividual(xs, all, m) == xs[..|xs| - 1] + [v];
      assert xs[..|xs| - 1] + [v] == xs;
    }
  }

  lemma {:induction false} KeepWithoutUnique(xs: seq<nat>, all: seq<nat>, m: nat)
    requires Count(all, m) == 1
    ensures forall v :: multiset(KeepIndividual(xs, all, m))[v] == if v == m then 0 else multiset(xs)[v]
    ensures |KeepIndividual(xs, all, m)| == |xs| - multiset(xs)[m]
  {
    if |xs| > 0 {
      var init := xs[..|xs| - 1];
      var v := xs[|xs| - 1];
      KeepWithoutUnique(init, all, m);
      var tail := if v != m then [v] else [];
      assert KeepIndividual(xs, all, m) == KeepIndividual(init, all, m) + tail;
      assert multiset(KeepIndividual(xs, all, m)) == multiset(KeepIndividual(init, all, m)) + multiset(tail);
      assert xs == init + [v];
      assert multiset(xs) == multiset(init) + multiset([v]);
    }
  }

  /** The drop-the-largest rule. With three or more amounts, a maximum that
      occurs once is the only value dropped, and a repeated maximum drops
      nothing, so at least two values always remain and the fallback to
      "all but the last" is never taken. */
  lemma IndividualValuesRule(values: seq<nat>)
    ensures |values| <= 2 ==> IndividualValues(values) == values
    ensures |values| >= 3 && Count(values, MaxOf(values)) > 1 ==> IndividualValues(values) == values
    ensures |values| >= 3 && Count(values, MaxOf(values)) == 1 ==>
      (forall v :: multiset(IndividualValues(values))[v] == if v == MaxOf(values) then 0 else multiset(values)[v])
      && |IndividualValues(values)| == |values| - 1
    ensures |values| >= 3 ==> |KeepIndividual(values, values, MaxOf(values))| >= 2
  {
    if |values| >= 3 {
      var m := MaxOf(values);
      if Count(values, m) > 1 {
        KeepAllWhenRepeated(values, values, m);
      } else {
        KeepWithoutUnique(values, values, m);
      }
    }
  }

  /** Every individual amount is at most the operation maximum. */
  lemma IndividualBelowMaximum(values: seq<nat>)
    requires |values| > 0
    ensures forall v :: v in IndividualValues(values) ==> v <= MaxOf(values)
  {
    var m := MaxOf(values);
    if |values| >= 3 {
      var kept := KeepIndividual(values, values, m);
      KeepSubset(values, values, m);
      if |kept| == 0 {
        assert forall v :: v in values[..|values| - 1] ==> v in values;
      }
    }
  }

  lemma {:induction false} KeepSubset(xs: seq<nat>, all: seq<nat>, m: nat)
    ensures forall v :: v in KeepIndividual(xs, all, m) ==> v in xs
  {
    if |xs| > 0 {
      KeepSubset(xs[..|xs| - 1], all, m);
      assert forall v :: v in xs[..|xs| - 1] ==> v in xs;
    }
  }

  lemma LabelShape(n: nat)
    ensures var s := MillionsLabel(n); var d := DecimalString(n);
      |s| == |d| + 9 && s[0] == '$' && s[1..|d| + 1] == d && s[|d| + 1] == ' ' && s[|d| + 2..] == "Million"
  {
  }

  /** The amount pattern matches a whole label from its first character. */
  lemma LabelMillionsAt(n: nat)
    ensures Millions(MillionsLabel(n), 0) == Some(|MillionsLabel(n)|)
    ensures MillionsDigits(MillionsLabel(n), 0) == DecimalString(n)
  {
    var s := MillionsLabel(n);
    var d := DecimalString(n);
    LabelShape(n);
    assert forall i :: 1 <= i < |d| + 1 ==> IsDigit(s[i]) by {
      forall i | 1 <= i < |d| + 1 ensures IsDigit(s[i]) {
        assert s[i] == s[1..|d| + 1][i - 1];
      }
    }
    MillionsAtShape(s, |d| + 1);
  }

  /** "$<digits> Million" is one whole match of the amount pattern. */
  lemma MillionsAtShape(s: string, e: nat)
    requires 2 <= e && |s| == e + 8 && s[0] == '$'
    requires forall i :: 1 <= i < e ==> IsDigit(s[i])
    requires s[e] == ' ' && s[e + 1..] == "Million"
    ensures Millions(s, 0) == Some(|s|)
    ensures MillionsDigits(s, 0) == s[1..e]
  {
    DigitsRun(s, 1, e);
    assert s[e + 1] == s[e + 1..][0];
    assert SpacesEnd(s, e) == e + 1;
    assert LiteralAtIgnoreCase(s, e + 1, "million") by {
      forall i | 0 <= i < 7 ensures Lower(s[e + 1 + i]) == Lower("million"[i]) {
        assert s[e + 1 + i] == s[e + 1..][i];
      }
    }
  }

  /** A label matches the amount pattern exactly once, with its own digits. */
  lemma LabelMatches(n: nat)
    ensures AllMillions(MillionsLabel(n)) == [DecimalString(n)]
  {
    var s := MillionsLabel(n);
    LabelMillionsAt(n);
    assert MatchAt(Millions, s, 0) == Some(|s|);
    assert SearchFrom(Millions, s, 0) == Some(Span(0, |s|));
    assert FindAllFrom(Millions, s, |s|) == [];
    assert FindAll(Millions, s) == [Span(0, |s|)];
  }

  lemma DigitsRun(s: string, p: nat, e: nat)
    requires p <= e < |s|
    requires forall i :: p <= i < e ==> IsDigit(s[i])
    requires !IsDigit(s[e])
    ensures DigitsEnd(s, p) == e
    decreases e - p
  {
    if p < e {
      DigitsRun(s, p + 1, e);
      assert RunEnd(s, p, IsDigit) == RunEnd(s, p + 1, IsDigit);
    }
  }

  /** `extract_operation_maximum` reads its own output back unchanged. */
  lemma OperationMaximumIdempotent(text: string)
    ensures ExtractOperationMaximum(ExtractOperationMaximum(text)) == ExtractOperationMaximum(text)
  {
    var values := MillionValues(text);
    var n := if |values| == 0 then 0 else MaxOf(values);
    assert ExtractOperationMaximum(text) == MillionsLabel(n) by {
      if |values| == 0 {
        assert DecimalString(0) == "0";
      }
    }
    LabelMatches(n);
    DecimalRoundTrip(n);
    assert MillionValues(MillionsLabel(n)) == [n];
  }
}
