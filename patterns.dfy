/**
 * The regular expressions of the parsers, each written out as an anchored
 * matcher: a function from a string and a start position to the end of the
 * match at that position, if there is one. Every pattern used here has at
 * most one match at a given position once the engine's backtracking is
 * taken into account (each greedy run is followed by a character its class
 * excludes), so a matcher states exactly what `re` finds there.
 *
 * `re.search` is the leftmost start with a match; `re.findall` repeats the
 * search from the end of each match. Upper and lower case are the ASCII
 * letters, `\s` is `Text.IsSpace` and `\w` is `Text.IsWordChar`.
 */
module Patterns {
  import opened Maybe
  import opened Text

  /** A pattern anchored at a position: where its match there ends, if it matches. */
  type Anchored = (string, nat) -> Option<nat>

  datatype Span = Span(start: nat, end: nat)

  /** The match of `m` at `p`, kept when it is non-empty and inside `s`
      (every pattern here matches at least one character). */
  function MatchAt(m: Anchored, s: string, p: nat): (r: Option<nat>)
    ensures r.Some? ==> p < r.value <= |s|
  {
    match m(s, p)
    case Some(e) => if p < e <= |s| then Some(e) else None
    case None => None
  }

  /** `re.search` from position `p`: the leftmost position at or after `p` with a match. */
  function SearchFrom(m: Anchored, s: string, p: nat): (r: Option<Span>)
    ensures r.Some? ==> p <= r.value.start < r.value.end <= |s|
    ensures r.Some? ==> MatchAt(m, s, r.value.start) == Some(r.value.end)
    ensures forall q: nat :: p <= q && (r.None? || q < r.value.start) ==> MatchAt(m, s, q).None?
    decreases |s| - p
  {
    if p >= |s| then None
    else match MatchAt(m, s, p)
      case Some(e) => Some(Span(p, e))
      case None => SearchFrom(m, s, p + 1)
  }

  /** `re.search` */
  function Search(m: Anchored, s: string): Option<Span> {
    SearchFrom(m, s, 0)
  }

  /** A match at `p` with none before it is the one `re.search` reports. */
  lemma SearchAt(m: Anchored, s: string, p: nat)
    requires MatchAt(m, s, p).Some?
    requires forall k: nat :: k < p ==> MatchAt(m, s, k).None?
    ensures Search(m, s) == Some(Span(p, MatchAt(m, s, p).value))
  {
    var r := SearchFrom(m, s, 0);
    assert r.Some?;
    assert r.value.start == p;
  }

  /** `re.findall` from position `p`: successive leftmost matches, each search
      resuming where the previous match ended. */
  function FindAllFrom(m: Anchored, s: string, p: nat): (r: seq<Span>)
    ensures forall i :: 0 <= i < |r| ==> p <= r[i].start < r[i].end <= |s|
    ensures forall i :: 0 <= i < |r| ==> MatchAt(m, s, r[i].start) == Some(r[i].end)
    ensures forall i, j :: 0 <= i < j < |r| ==> r[i].end <= r[j].start
    ensures |r| == 0 <==> SearchFrom(m, s, p).None?
    ensures |r| > 0 ==> SearchFrom(m, s, p) == Some(r[0])
    ensures forall i :: 0 < i < |r| ==> SearchFrom(m, s, r[i - 1].end) == Some(r[i])
    decreases |s| - p
  {
    match SearchFrom(m, s, p)
    case None => []
    case Some(sp) => [sp] + FindAllFrom(m, s, sp.end)
  }

  /** `re.findall` misses no match: every position at or after `p` where the
      pattern matches lies inside one of the reported spans. */
  lemma {:induction false} FindAllComplete(m: Anchored, s: string, p: nat, q: nat)
    requires p <= q && MatchAt(m, s, q).Some?
    ensures Covers(FindAllFrom(m, s, p), q)
    decreases |s| - p
  {
    var sr := SearchFrom(m, s, p);
    assert sr.Some?;
    var sp := sr.value;
    FindAllUnfold(m, s, p, sp);
    if q < sp.end {
      CoversHead(sp, FindAllFrom(m, s, sp.end), q);
    } else {
      FindAllComplete(m, s, sp.end, q);
      CoversTail(sp, FindAllFrom(m, s, sp.end), q);
    }
  }

  /** Some span of `r` contains position `q`. */
  predicate Covers(r: seq<Span>, q: nat) {
    exists i :: 0 <= i < |r| && r[i].start <= q < r[i].end
  }

  lemma FindAllUnfold(m: Anchored, s: string, p: nat, sp: Span)
    requires SearchFrom(m, s, p) == Some(sp)
    ensures FindAllFrom(m, s, p) == [sp] + FindAllFrom(m, s, sp.end)
  {
  }

  lemma CoversHead(sp: Span, rest: seq<Span>, q: nat)
    requires sp.start <= q < sp.end
    ensures Covers([sp] + rest, q)
  {
    assert ([sp] + rest)[0] == sp;
  }

  lemma CoversTail(sp: Span, rest: seq<Span>, q: nat)
    requires Covers(rest, q)
    ensures Covers([sp] + rest, q)
  {
    var i :| 0 <= i < |rest| && rest[i].start <= q < rest[i].end;
    assert ([sp] + rest)[i + 1] == rest[i];
  }

  /** `re.findall` */
  function FindAll(m: Anchored, s: string): seq<Span> {
    FindAllFrom(m, s, 0)
  }

  /** The text a span covers. */
  function Covered(s: string, sp: Span): string
    requires sp.start <= sp.end <= |s|
  {
    s[sp.start..sp.end]
  }

  // ---------------------------------------------------------------------------
  // Building blocks

  /** The end of the longest run of characters of class `cls` starting at `p`. */
  function RunEnd(s: string, p: nat, cls: char -> bool): (e: nat)
    requires p <= |s|
    ensures p <= e <= |s|
    ensures forall i :: p <= i < e ==> cls(s[i])
    ensures e == |s| || !cls(s[e])
    decreases |s| - p
  {
    if p < |s| && cls(s[p]) then RunEnd(s, p + 1, cls) else p
  }

  function DigitsEnd(s: string, p: nat): (e: nat)
    requires p <= |s|
    ensures p <= e <= |s| && AllDigits(s[p..e])
    ensures e == |s| || !IsDigit(s[e])
  {
    var e := RunEnd(s, p, IsDigit);
    assert forall i :: 0 <= i < e - p ==> s[p..e][i] == s[p + i];
    e
  }

  function SpacesEnd(s: string, p: nat): (e: nat)
    requires p <= |s|
    ensures p <= e <= |s|
    ensures forall i :: p <= i < e ==> IsSpace(s[i])
    ensures e == |s| || !IsSpace(s[e])
  {
    RunEnd(s, p, IsSpace)
  }

  function UppersEnd(s: string, p: nat): (e: nat)
    requires p <= |s|
    ensures p <= e <= |s|
    ensures forall i :: p <= i < e ==> IsUpper(s[i])
    ensures e == |s| || !IsUpper(s[e])
  {
    RunEnd(s, p, IsUpper)
  }

  /** `lit` occurs at `p`, letters compared without regard to case. */
  predicate LiteralAtIgnoreCase(s: string, p: nat, lit: string) {
    p + |lit| <= |s| && forall i :: 0 <= i < |lit| ==> Lower(s[p + i]) == Lower(lit[i])
  }

  /** `\d{1,2}` followed by `sep`: two digits when there are two, else one. */
  function OneOrTwoDigitsThen(s: string, p: nat, sep: char): Option<nat> {
    if p + 2 < |s| && IsDigit(s[p]) && IsDigit(s[p + 1]) && s[p + 2] == sep then Some(p + 3)
    else if p + 1 < |s| && IsDigit(s[p]) && s[p + 1] == sep then Some(p + 2)
    else None
  }

  /** `\d{n}` */
  predicate DigitsAt(s: string, p: nat, n: nat) {
    p + n <= |s| && forall i :: p <= i < p + n ==> IsDigit(s[i])
  }

  /** `\s+` at `p`: the end of the run, when the run is not empty. */
  function SpacesPlus(s: string, p: nat): Option<nat> {
    if p < |s| && IsSpace(s[p]) then Some(SpacesEnd(s, p)) else None
  }

  /** `\s*` at `p` */
  function SpacesStar(s: string, p: nat): nat {
    if p <= |s| then SpacesEnd(s, p) else p
  }

  // ---------------------------------------------------------------------------
  // Dates

  /** `\d{1,2}/\d{1,2}/\d{4}` */
  function SlashDate(s: string, p: nat): Option<nat> {
    match OneOrTwoDigitsThen(s, p, '/')
    case None => None
    case Some(q) =>
      match OneOrTwoDigitsThen(s, q, '/')
      case None => None
      case Some(r) => if DigitsAt(s, r, 4) then Some(r + 4) else None
  }

  /** `\d{2}/\d{2}/\d{4}` */
  function PaddedSlashDate(s: string, p: nat): Option<nat> {
    if DigitsAt(s, p, 2) && p + 2 < |s| && s[p + 2] == '/'
       && DigitsAt(s, p + 3, 2) && p + 5 < |s| && s[p + 5] == '/' && DigitsAt(s, p + 6, 4)
    then Some(p + 10) else None
  }

  /** `re.search(r'(\d{1,2}/\d{1,2}/\d{4})', s).group(1)` */
  function SearchDate(s: string): (r: Option<string>)
    ensures r.Some? ==> |r.value| >= 8
  {
    match Search(SlashDate, s)
    case None => None
    case Some(sp) => Some(Covered(s, sp))
  }

  /** `re.search(r'^(\d{1,2}/\d{1,2}/\d{4})', s).group(1)` */
  function DateAtStart(s: string): (r: Option<string>)
    ensures r.Some? ==> |r.value| >= 1
  {
    match MatchAt(SlashDate, s, 0)
    case None => None
    case Some(e) => Some(s[..e])
  }

  /** `re.search(r'^\s*\d{1,2}/\d{1,2}/\d{4}', s) is not None` */
  predicate StartsWithDate(s: string) {
    MatchAt(SlashDate, s, SpacesEnd(s, 0)).Some?
  }

  /** `(\d{2}/\d{2}/\d{4})\s+to\s+(\d{2}/\d{2}/\d{4})` */
  function TitleRange(s: string, p: nat): Option<nat> {
    match PaddedSlashDate(s, p)
    case None => None
    case Some(q) =>
      match SpacesPlus(s, q)
      case None => None
      case Some(r) =>
        if r + 2 <= |s| && s[r..r + 2] == "to" then
          match SpacesPlus(s, r + 2)
          case None => None
          case Some(u) => PaddedSlashDate(s, u)
        else None
  }

  /** Group 2 of the title pattern's leftmost match: the end date. */
  function SearchTitleEndDate(s: string): (r: Option<string>)
    ensures r.Some? ==> |r.value| == 10
  {
    match Search(TitleRange, s)
    case None => None
    case Some(sp) => if sp.end >= sp.start + 10 then Some(s[sp.end - 10..sp.end]) else None
  }

  // ---------------------------------------------------------------------------
  // Times

  /** `\d{1,2}:\d{2}\s+[AP]M`, ignoring case */
  function Clock(s: string, p: nat): Option<nat> {
    match OneOrTwoDigitsThen(s, p, ':')
    case None => None
    case Some(q) =>
      if !DigitsAt(s, q, 2) then None
      else match SpacesPlus(s, q + 2)
        case None => None
        case Some(r) =>
          if r + 2 <= |s| && (Upper(s[r]) == 'A' || Upper(s[r]) == 'P') && Upper(s[r + 1]) == 'M'
          then Some(r + 2) else None
  }

  /** `\d{1,2}:\d{2}\s+[AP]M\s*-\s*\d{1,2}:\d{2}\s+[AP]M`, ignoring case */
  function ClockRange(s: string, p: nat): Option<nat> {
    match Clock(s, p)
    case None => None
    case Some(q) =>
      var r := SpacesStar(s, q);
      if r < |s| && s[r] == '-' then Clock(s, SpacesStar(s, r + 1)) else None
  }

  // ---------------------------------------------------------------------------
  // Securities

  /** `\d+\.\d+` */
  function Rate(s: string, p: nat): Option<nat> {
    if p < |s| && IsDigit(s[p]) then
      var q := DigitsEnd(s, p);
      if q + 1 < |s| && s[q] == '.' && IsDigit(s[q + 1]) then Some(DigitsEnd(s, q + 1)) else None
    else None
  }

  /** `TICKER\s+(\d+\.\d+)`, ignoring case; the match ends where the rate ends. */
  function KnownTicker(ticker: string): Anchored {
    (s: string, p: nat) =>
      if LiteralAtIgnoreCase(s, p, ticker) then
        match SpacesPlus(s, p + |ticker|)
        case None => None
        case Some(q) => Rate(s, q)
      else None
  }

  /** Where the rate group of a known-ticker match starts. */
  function KnownTickerRateStart(s: string, ticker: string, sp: Span): nat {
    if sp.start + |ticker| <= |s| then SpacesEnd(s, sp.start + |ticker|) else sp.start
  }

  /** `([A-Z]{1,8})\s+(\d+\.\d+)`: only a whole run of one to eight capitals
      can be followed by the whitespace. */
  function GeneralTicker(s: string, p: nat): Option<nat> {
    if p < |s| then
      var q := UppersEnd(s, p);
      if 1 <= q - p <= 8 then
        match SpacesPlus(s, q)
        case None => None
        case Some(r) => Rate(s, r)
      else None
    else None
  }

  /** `\b([A-Z]{2,5})\b`: a whole run of two to five capitals between word boundaries. */
  function BoundedTicker(s: string, p: nat): Option<nat> {
    if p < |s| && (p == 0 || !IsWordChar(s[p - 1])) then
      var q := UppersEnd(s, p);
      if 2 <= q - p <= 5 && (q == |s| || !IsWordChar(s[q])) then Some(q) else None
    else None
  }

  // ---------------------------------------------------------------------------
  // Amounts

  /** `\$(\d+)\s+Million`, ignoring case */
  function Millions(s: string, p: nat): Option<nat> {
    if p + 1 < |s| && s[p] == '$' && IsDigit(s[p + 1]) then
      match SpacesPlus(s, DigitsEnd(s, p + 1))
      case None => None
      case Some(r) => if LiteralAtIgnoreCase(s, r, "million") then Some(r + 7) else None
    else None
  }

  /** The digits group of a `Millions` match starting at `p`. */
  function MillionsDigits(s: string, p: nat): (r: string)
    ensures AllDigits(r)
  {
    if p + 1 <= |s| then s[p + 1..DigitsEnd(s, p + 1)] else ""
  }

  /** `re.findall(r'\$(\d+)\s+Million', s, re.IGNORECASE)` */
  function AllMillions(s: string): (r: seq<string>)
    ensures forall i :: 0 <= i < |r| ==> AllDigits(r[i]) && |r[i]| >= 1
  {
    var spans := FindAll(Millions, s);
    seq(|spans|, i requires 0 <= i < |spans| => MillionsDigitsOf(s, spans[i]))
  }

  function MillionsDigitsOf(s: string, sp: Span): (r: string)
    requires MatchAt(Millions, s, sp.start) == Some(sp.end)
    ensures AllDigits(r) && |r| >= 1
  {
    var r := MillionsDigits(s, sp.start);
    assert IsDigit(s[sp.start + 1]);
    assert r[0] == s[sp.start + 1];
    r
  }

  /** `\d+(?:\.\d+)?`: the digits, and a fraction when a digit follows the point. */
  function Number(s: string, p: nat): (r: Option<nat>)
    ensures r.Some? ==> p < r.value <= |s| && IsDigit(s[p]) && IsDigit(s[r.value - 1])
    ensures r.Some? ==> forall i :: p <= i < r.value ==> IsDigit(s[i]) || s[i] == '.'
  {
    if p < |s| && IsDigit(s[p]) then
      var q := RunEnd(s, p, IsDigit);
      if q + 1 < |s| && s[q] == '.' && IsDigit(s[q + 1]) then Some(RunEnd(s, q + 1, IsDigit)) else Some(q)
    else None
  }

  /** `(million|billion)`, ignoring case: the end of the word. */
  function ScaleWord(s: string, p: nat): (r: Option<nat>)
    ensures r.Some? ==> r.value == p + 7 <= |s|
    ensures r.Some? ==> LiteralAtIgnoreCase(s, p, "million") || LiteralAtIgnoreCase(s, p, "billion")
  {
    if LiteralAtIgnoreCase(s, p, "million") || LiteralAtIgnoreCase(s, p, "billion") then Some(p + 7) else None
  }

  /** `\$(\d+(?:\.\d+)?)\s*(million|billion)`, ignoring case */
  function DollarScaled(s: string, p: nat): (r: Option<nat>)
    ensures r.Some? ==> p < |s| && s[p] == '$'
    ensures r.Some? ==> Number(s, p + 1).Some? && Number(s, p + 1).value <= r.value - 7
    ensures r.Some? ==> ScaleWord(s, r.value - 7) == r
    ensures r.Some? ==> forall i :: Number(s, p + 1).value <= i < r.value - 7 ==> IsSpace(s[i])
  {
    if p < |s| && s[p] == '$' then
      match Number(s, p + 1)
      case None => None
      case Some(q) =>
        var w := SpacesEnd(s, q);
        assert SpacesStar(s, q) == w;
        ScaleWord(s, w)
    else None
  }

  /** `\b(\d+(?:\.\d+)?)\s*(million|billion)\b`, ignoring case */
  function BareScaled(s: string, p: nat): (r: Option<nat>)
    ensures r.Some? ==> Number(s, p).Some? && Number(s, p).value <= r.value - 7
    ensures r.Some? ==> ScaleWord(s, r.value - 7) == r
    ensures r.Some? ==> forall i :: Number(s, p).value <= i < r.value - 7 ==> IsSpace(s[i])
    ensures r.Some? ==> (p == 0 || !IsWordChar(s[p - 1])) && (r.value == |s| || !IsWordChar(s[r.value]))
  {
    if p == 0 || (p <= |s| && !IsWordChar(s[p - 1])) then
      match Number(s, p)
      case None => None
      case Some(q) =>
        var w := SpacesEnd(s, q);
        assert SpacesStar(s, q) == w;
        match ScaleWord(s, w)
        case None => None
        case Some(e) => if e == |s| || (e < |s| && !IsWordChar(s[e])) then Some(e) else None
    else None
  }
}
