/**
 * The integrated scraper of fedao.py: which parser a downloaded PDF goes
 * to (`detect_pdf_type` and the source hint carried in the file name), the
 * file name a download gets, the absolute URL of a link, the URL sets the
 * scraper collects, and the order and columns of the two CSV outputs.
 *
 * What the browser, the network and the PDF reader deliver (link hrefs, page
 * texts) comes in as parameters.
 */
module Scraper {
  import opened Maybe
  import opened Text
  import opened Records
  import opened Sorting

  // ---------------------------------------------------------------------------
  // Paths and URLs

  /** `os.path.basename(path)`: what follows the last `/`. */
  function Basename(path: string): (r: string)
    ensures EndsWith(path, r)
    ensures forall i :: 0 <= i < |r| ==> r[i] != '/'
  {
    match LastIndexOfChar(path, '/')
    case None => path
    case Some(i) => path[i + 1..]
  }

  /** `os.path.join(directory, filename)` for a file name without `/`. */
  function JoinPath(directory: string, filename: string): string {
    if directory == "" || directory[|directory| - 1] == '/' then directory + filename
    else directory + "/" + filename
  }

  lemma BasenameOfJoin(directory: string, filename: string)
    requires forall i :: 0 <= i < |filename| ==> filename[i] != '/'
    ensures Basename(JoinPath(directory, filename)) == filename
  {
    var p := JoinPath(directory, filename);
    var d := if directory == "" || directory[|directory| - 1] == '/' then directory else directory + "/";
    assert p == d + filename;
    if |d| > 0 {
      assert p[|d| - 1] == '/';
      assert forall i :: |d| <= i < |p| ==> p[i] == filename[i - |d|];
      var k := LastIndexOfChar(p, '/');
      assert k.Some? && k.value == |d| - 1;
      assert p[|d|..] == filename;
    } else {
      assert p == filename;
      assert LastIndexOfChar(p, '/').None?;
    }
  }

  /** The schemes for which `urlparse` splits `;params` off the path. */
  const ParamSchemes: set<string> := {"", "ftp", "hdl", "prospero", "http", "imap", "https",
    "shttp", "rtsp", "rtsps", "rtspu", "sip", "sips", "mms", "sftp", "tel"}

  predicate IsSchemeChar(c: char) {
    IsUpper(c) || IsLower(c) || IsDigit(c) || c == '+' || c == '-' || c == '.'
  }

  /** The scheme `urlsplit` reads and the rest of the URL: the lower-cased
      text before the first `:` when it starts with a letter and holds only
      scheme characters; otherwise no scheme and the whole URL. */
  function SplitScheme(url: string): (r: (string, string))
    ensures r.0 == "" ==> r.1 == url
    ensures r.0 != "" ==> (|r.0| < |url| && url[|r.0|] == ':' && r.1 == url[|r.0| + 1..]
      && r.0 == LowerStr(url[..|r.0|]) && forall k :: 0 <= k < |r.0| ==> IsSchemeChar(url[k]))
  {
    match IndexOfChar(url, ':')
    case None => ("", url)
    case Some(i) =>
      if i > 0 && (IsUpper(url[0]) || IsLower(url[0])) && forall k :: 0 <= k < i ==> IsSchemeChar(url[k])
      then (LowerStr(url[..i]), url[i + 1..])
      else ("", url)
  }

  predicate EndsNetloc(c: char) { c == '/' || c == '?' || c == '#' }

  /** Where the network location that starts at `i` ends: the first `/`,
      `?` or `#` from `i` on, or the end of `s`. */
  function NetlocEnd(s: string, i: nat): (r: nat)
    requires i <= |s|
    ensures i <= r <= |s|
    ensures forall k :: i <= k < r ==> !EndsNetloc(s[k])
    ensures r < |s| ==> EndsNetloc(s[r])
    decreases |s| - i
  {
    if i == |s| || EndsNetloc(s[i]) then i else NetlocEnd(s, i + 1)
  }

  /** `s` up to its first `c`, or all of `s` when it has none. */
  function Before(s: string, c: char): (r: string)
    ensures c !in r
    ensures |r| <= |s| && r == s[..|r|]
    ensures |r| < |s| ==> s[|r|] == c
  {
    match IndexOfChar(s, c)
    case None => s
    case Some(i) => s[..i]
  }

  /** `_splitparams`: the path up to the first `;` after its last `/`, or
      up to its first `;` when it has no `/`. */
  function WithoutParams(path: string): (r: string)
    ensures |r| <= |path| && r == path[..|r|]
    ensures |r| < |path| ==> path[|r|] == ';'
    ensures forall k :: 0 <= k < |r| && r[k] == ';' ==> exists j :: k < j < |r| && r[j] == '/'
  {
    match LastIndexOfChar(path, '/')
    case None => Before(path, ';')
    case Some(j) =>
      var tail := Before(path[j..], ';');
      assert tail[0] == '/';
      assert forall k :: j <= k < j + |tail| ==> path[k] == tail[k - j];
      path[..j + |tail|]
  }

  /** The path part of a URL as `urlparse(url).path` gives it: after the
      scheme and the `//host` part, before the fragment and the query, and
      without `;params` for the schemes that take them. */
  function UrlPath(url: string): (r: string)
    ensures '#' !in r && '?' !in r
  {
    var (scheme, rest) := SplitScheme(url);
    var afterNetloc := if StartsWith(rest, "//") then rest[NetlocEnd(rest, 2)..] else rest;
    var path := Before(Before(afterNetloc, '#'), '?');
    if scheme in ParamSchemes then
      var r := WithoutParams(path);
      assert forall k :: 0 <= k < |r| ==> r[k] == path[k];
      r
    else path
  }

  /** A URL's base name carries no `;params` when its scheme takes them. */
  lemma BasenameWithoutParams(url: string)
    requires SplitScheme(url).0 in ParamSchemes
    ensures ';' !in Basename(UrlPath(url))
  {
  }

  /** The path of an absolute link `https://host/...` is its path after the
      host, with any `;params` of the last segment cut off. */
  lemma HttpsUrlPath(host: string, path: string)
    requires forall k :: 0 <= k < |host| ==> !EndsNetloc(host[k])
    requires |path| > 0 && path[0] == '/' && '#' !in path && '?' !in path
    ensures UrlPath("https://" + host + path) == WithoutParams(path)
  {
    var rest := "//" + host + path;
    assert "https://" + host + path == "https:" + rest;
    HttpsScheme(rest);
    AfterHost(host, path);
    BeforeAbsent(path, '#');
    BeforeAbsent(path, '?');
  }

  /** A URL whose text before any `:` holds a `/` has no scheme, so all
      of it is path: `files/a://b.pdf` is the path of itself. */
  lemma PathOnlyUrl(url: string)
    requires forall k :: 0 <= k < |url| && url[k] == ':' ==> '/' in url[..k]
    requires !StartsWith(url, "//") && '#' !in url && '?' !in url
    ensures UrlPath(url) == WithoutParams(url)
  {
    match IndexOfChar(url, ':') {
      case None =>
      case Some(i) =>
        var j :| 0 <= j < i && url[..i][j] == '/';
        assert !IsSchemeChar(url[j]);
    }
    BeforeAbsent(url, '#');
    BeforeAbsent(url, '?');
  }

  lemma HttpsScheme(rest: string)
    ensures SplitScheme("https:" + rest) == ("https", rest)
  {
    var url := "https:" + rest;
    assert url[..5] == "https" && url[5] == ':';
    assert IndexOfChar(url, ':') == Some(5);
    assert LowerStr("https") == "https";
  }

  lemma AfterHost(host: string, path: string)
    requires forall k :: 0 <= k < |host| ==> !EndsNetloc(host[k])
    requires |path| > 0 && path[0] == '/'
    ensures var rest := "//" + host + path; StartsWith(rest, "//") && rest[NetlocEnd(rest, 2)..] == path
  {
    var rest := "//" + host + path;
    assert forall k :: 2 <= k < 2 + |host| ==> rest[k] == host[k - 2];
    assert rest[2 + |host|] == '/';
    NetlocEndAt(rest, 2, 2 + |host|);
    assert rest[2 + |host|..] == path;
  }

  lemma BeforeAbsent(s: string, c: char)
    requires c !in s
    ensures Before(s, c) == s
  {
  }

  lemma {:induction false} NetlocEndAt(s: string, i: nat, e: nat)
    requires i <= e < |s| && EndsNetloc(s[e])
    requires forall k :: i <= k < e ==> !EndsNetloc(s[k])
    ensures NetlocEnd(s, i) == e
    decreases e - i
  {
    if i < e {
      NetlocEndAt(s, i + 1, e);
    }
  }

  /** The file name `download_pdf` saves a URL under: the URL's base name,
      with `.pdf` added when it lacks it, and `MOA_` for a URL of the
      mortgage schedule page or else `TOA_` for one of the Treasury page. */
  function DownloadFilename(url: string): (r: string)
    ensures forall i :: 0 <= i < |r| ==> r[i] != '/'
  {
    Prefixed(url, PdfFilename(Basename(UrlPath(url))))
  }

  /** `filename` with the source hint of `url` in front of it. */
  function Prefixed(url: string, filename: string): (r: string)
    requires forall i :: 0 <= i < |filename| ==> filename[i] != '/'
    ensures forall i :: 0 <= i < |r| ==> r[i] != '/'
  {
    var prefix := if Contains(url, "ambs_operation_schedule") then "MOA_"
      else if Contains(url, "treasury-securities") then "TOA_"
      else "";
    NoSlashAppend(prefix, filename);
    prefix + filename
  }

  lemma NoSlashAppend(a: string, b: string)
    requires a == "MOA_" || a == "TOA_" || a == ""
    requires forall i :: 0 <= i < |b| ==> b[i] != '/'
    ensures forall i :: 0 <= i < |a + b| ==> (a + b)[i] != '/'
  {
    assert forall i :: |a| <= i < |a + b| ==> (a + b)[i] == b[i - |a|];
  }

  /** A base name with `.pdf` added when it lacks it. */
  function PdfFilename(name: string): (r: string)
    requires forall i :: 0 <= i < |name| ==> name[i] != '/'
    ensures forall i :: 0 <= i < |r| ==> r[i] != '/'
    ensures EndsWith(r, ".pdf")
  {
    if EndsWith(name, ".pdf") then name
    else
      assert (name + ".pdf")[|name + ".pdf"| - 4..] == ".pdf";
      name + ".pdf"
  }

  /** A downloaded file's name ends in `.pdf`, and it carries `MOA_` or
      `TOA_` exactly when its URL names one of the two operation pages,
      with the mortgage page taking precedence. */
  lemma DownloadFilenameShape(url: string)
    ensures EndsWith(DownloadFilename(url), ".pdf")
    ensures Contains(url, "ambs_operation_schedule") ==> StartsWith(DownloadFilename(url), "MOA_")
    ensures !Contains(url, "ambs_operation_schedule") && Contains(url, "treasury-securities") ==>
      StartsWith(DownloadFilename(url), "TOA_")
  {
    PrefixedShape(url, PdfFilename(Basename(UrlPath(url))));
  }

  lemma PrefixedShape(url: string, filename: string)
    requires forall i :: 0 <= i < |filename| ==> filename[i] != '/'
    requires EndsWith(filename, ".pdf")
    ensures EndsWith(Prefixed(url, filename), ".pdf")
    ensures Contains(url, "ambs_operation_schedule") ==> StartsWith(Prefixed(url, filename), "MOA_")
    ensures !Contains(url, "ambs_operation_schedule") && Contains(url, "treasury-securities") ==>
      StartsWith(Prefixed(url, filename), "TOA_")
  {
    assert ("MOA_" + filename)[|"MOA_" + filename| - 4..] == filename[|filename| - 4..];
    assert ("TOA_" + filename)[|"TOA_" + filename| - 4..] == filename[|filename| - 4..];
    assert ("MOA_" + filename)[..4] == "MOA_";
    assert ("TOA_" + filename)[..4] == "TOA_";
  }

  /** The source hint `process_pdfs_with_dual_parsers` reads off a file name. */
  function SourceHint(filename: string): (r: Option<string>)
    ensures r.Some? <==> StartsWith(filename, "MOA_") || StartsWith(filename, "TOA_")
  {
    if StartsWith(filename, "MOA_") then Some("ambs_operation_schedule")
    else if StartsWith(filename, "TOA_") then Some("treasury-securities")
    else None
  }

  /** A link as the scraper stores it: an href starting with `/` is made
      absolute with the site's base URL, any other href is kept. */
  function NormalizeHref(baseUrl: string, href: string): (r: string)
    ensures EndsWith(r, href)
    ensures StartsWith(href, "/") ==> StartsWith(r, baseUrl)
    ensures !StartsWith(href, "/") ==> r == href
  {
    if StartsWith(href, "/") then
      assert (baseUrl + href)[..|baseUrl|] == baseUrl;
      assert (baseUrl + href)[|baseUrl + href| - |href|..] == href;
      baseUrl + href
    else href
  }

  /** With a base URL that does not itself start with `/`, normalising a
      normalised link changes nothing. */
  lemma NormalizeHrefIdempotent(baseUrl: string, href: string)
    requires !StartsWith(baseUrl, "/")
    ensures NormalizeHref(baseUrl, NormalizeHref(baseUrl, href)) == NormalizeHref(baseUrl, href)
  {
    if StartsWith(href, "/") && baseUrl != "" {
      var r := baseUrl + href;
      assert r[..1] == baseUrl[..1];
    }
  }

  // ---------------------------------------------------------------------------
  // detect_pdf_type

  datatype PdfType = MOA | TOA

  /** The type a source hint decides, if it decides one. */
  function HintType(hint: Option<string>): Option<PdfType> {
    if hint.None? || hint.value == "" then None
    else if Contains(hint.value, "ambs_operation_schedule") || Contains(LowerStr(hint.value), "mbs") then Some(MOA)
    else if Contains(hint.value, "treasury-securities") then Some(TOA)
    else None
  }

  const MoaIndicators: seq<string> := [
    "small value operations", "tba purchase", "ginnie mae", "mbs", "mortgage-backed securities",
    "fnci", "g2sf", "fedtrade", "agency mbs"
  ]

  const ToaIndicators: seq<string> := [
    "treasury securities", "treasury bills", "treasury coupons", "tips", "treasury frns",
    "nominal", "strips", "operation date", "settlement date", "maturity range"
  ]

  /** `sum(1 for indicator in indicators if indicator in text)` */
  function Score(indicators: seq<string>, text: string): (n: nat)
    ensures n <= |indicators|
    ensures n == 0 <==> forall i :: 0 <= i < |indicators| ==> !Contains(text, indicators[i])
    ensures n == |indicators| <==> forall i :: 0 <= i < |indicators| ==> Contains(text, indicators[i])
  {
    if |indicators| == 0 then 0
    else
      var rest := Score(indicators[1..], text);
      assert forall i :: 1 <= i < |indicators| ==> indicators[i] == indicators[1..][i - 1];
      (if Contains(text, indicators[0]) then 1 else 0) + rest
  }

  /** The text `detect_pdf_type` reads: each of the first three pages
      followed by a newline. */
  function PagesText(pages: seq<string>): string {
    if |pages| == 0 then "" else pages[0] + "\n" + PagesText(pages[1..])
  }

  function FirstPagesText(pages: seq<string>): string {
    PagesText(pages[..if |pages| < 3 then |pages| else 3])
  }

  /** The tie-break on the file's own name. */
  function FilenameType(pdfPath: string): PdfType {
    var filename := LowerStr(Basename(pdfPath));
    if Contains(filename, "mbs") || Contains(filename, "mortgage") || Contains(filename, "ambs")
       || Contains(filename, "small")
    then MOA
    else TOA
  }

  /** `detect_pdf_type`: a deciding hint first; then the PDF's text, where
      the strictly higher indicator count wins and a tie goes by the file
      name. `pages` is `None` when reading the PDF fails, which gives TOA. */
  function DetectPdfType(pdfPath: string, hint: Option<string>, pages: Option<seq<string>>): PdfType {
    match HintType(hint)
    case Some(t) => t
    case None =>
      if pages.None? then TOA
      else
        var text := LowerStr(FirstPagesText(pages.value));
        var moaScore := Score(MoaIndicators, text);
        var toaScore := Score(ToaIndicators, text);
        if moaScore > toaScore then MOA
        else if toaScore > moaScore then TOA
        else FilenameType(pdfPath)
  }

  /** Without a deciding hint, text that mentions no indicator of either
      kind is classified by the file name alone, and text that mentions
      every mortgage indicator and no Treasury one is MOA. */
  lemma DetectByContent(pdfPath: string, hint: Option<string>, pages: seq<string>)
    requires HintType(hint).None?
    ensures var text := LowerStr(FirstPagesText(pages));
      ((forall i :: 0 <= i < |MoaIndicators| ==> !Contains(text, MoaIndicators[i]))
       && (forall i :: 0 <= i < |ToaIndicators| ==> !Contains(text, ToaIndicators[i]))
       ==> DetectPdfType(pdfPath, hint, Some(pages)) == FilenameType(pdfPath))
      && ((forall i :: 0 <= i < |MoaIndicators| ==> Contains(text, MoaIndicators[i]))
          && (forall i :: 0 <= i < |ToaIndicators| ==> !Contains(text, ToaIndicators[i]))
          ==> DetectPdfType(pdfPath, hint, Some(pages)) == MOA)
  {
  }

  /** Any hint that mentions `mbs` in any letter case decides MOA, whatever
      the PDF says. */
  lemma MbsHintIsMoa(pdfPath: string, hint: string, pages: Option<seq<string>>)
    requires Contains(LowerStr(hint), "mbs")
    ensures DetectPdfType(pdfPath, Some(hint), pages) == MOA
  {
    var i: int :| 0 <= i <= |LowerStr(hint)| && OccursAt(LowerStr(hint), "mbs", i);
    assert |hint| >= 3;
  }

  /** A string that lacks one of the characters of `sub` does not contain it. */
  lemma MissingChar(s: string, sub: string, k: nat)
    requires k < |sub| && forall i :: 0 <= i < |s| ==> s[i] != sub[k]
    ensures !Contains(s, sub)
  {
    forall i | 0 <= i <= |s|
      ensures !OccursAt(s, sub, i)
    {
      if i + |sub| <= |s| {
        assert s[i..i + |sub|][k] == s[i + k];
      }
    }
  }

  /** The two hints a file name can carry decide MOA and TOA. */
  lemma FilenameHints()
    ensures HintType(Some("ambs_operation_schedule")) == Some(MOA)
    ensures HintType(Some("treasury-securities")) == Some(TOA)
  {
    var a := "ambs_operation_schedule";
    var t := "treasury-securities";
    assert OccursAt(a, a, 0);
    assert OccursAt(t, t, 0);
    MissingChar(t, a, 2);
    assert LowerStr(t) == t;
    MissingChar(t, "mbs", 0);
  }

  /** The hint read back off a downloaded file's name is the page its URL
      names. */
  lemma DownloadedHint(url: string)
    ensures Contains(url, "ambs_operation_schedule") ==>
      SourceHint(DownloadFilename(url)) == Some("ambs_operation_schedule")
    ensures !Contains(url, "ambs_operation_schedule") && Contains(url, "treasury-securities") ==>
      SourceHint(DownloadFilename(url)) == Some("treasury-securities")
  {
    var filename := DownloadFilename(url);
    DownloadFilenameShape(url);
    if !Contains(url, "ambs_operation_schedule") && Contains(url, "treasury-securities") {
      assert filename[..4] == "TOA_";
    }
  }

  /** A PDF downloaded from the mortgage schedule page is parsed as MOA,
      and one downloaded from the Treasury page (and not the mortgage page)
      as TOA, whatever its content: the download names the file, and the
      name gives the hint back. */
  lemma DownloadedFileType(url: string, directory: string, pages: Option<seq<string>>)
    ensures Contains(url, "ambs_operation_schedule") ==>
      DetectPdfType(JoinPath(directory, DownloadFilename(url)),
                    SourceHint(Basename(JoinPath(directory, DownloadFilename(url)))), pages) == MOA
    ensures !Contains(url, "ambs_operation_schedule") && Contains(url, "treasury-securities") ==>
      DetectPdfType(JoinPath(directory, DownloadFilename(url)),
                    SourceHint(Basename(JoinPath(directory, DownloadFilename(url)))), pages) == TOA
  {
    BasenameOfJoin(directory, DownloadFilename(url));
    DownloadedHint(url);
    FilenameHints();
  }

  // ---------------------------------------------------------------------------
  // URL collection

  /** Which hrefs a collecting loop keeps: any, those ending in `.pdf`,
      those in the AMBS directory ending in `.pdf`, or those naming a
      mortgage keyword. */
  datatype LinkFilter = AnyHref | PdfHref | AmbsPdfHref | MortgageHref

  predicate Keeps(filter: LinkFilter, href: string) {
    match filter
    case AnyHref => true
    case PdfHref => EndsWith(href, ".pdf")
    case AmbsPdfHref => (Contains(href, "/ambs/") || Contains(href, "AMBS")) && EndsWith(href, ".pdf")
    case MortgageHref =>
      var l := LowerStr(href);
      Contains(l, "ambs") || Contains(l, "mbs") || Contains(l, "mortgage")
  }

  /** The absolute URLs of the links a loop keeps; a link without an href
      (`None` or empty) is skipped. */
  function Collected(baseUrl: string, links: seq<Option<string>>, filter: LinkFilter): set<string> {
    if |links| == 0 then {}
    else
      var href := links[|links| - 1];
      Collected(baseUrl, links[..|links| - 1], filter)
      + (if href.Some? && href.value != "" && Keeps(filter, href.value) then {NormalizeHref(baseUrl, href.value)} else {})
  }

  /** `link` has an href, the filter keeps it, and it normalises to `url`. */
  predicate Gives(baseUrl: string, link: Option<string>, filter: LinkFilter, url: string) {
    link.Some? && link.value != "" && Keeps(filter, link.value) && url == NormalizeHref(baseUrl, link.value)
  }

  /** A URL is collected exactly when some kept link normalises to it. */
  lemma {:induction false} CollectedMembers(baseUrl: string, links: seq<Option<string>>, filter: LinkFilter, url: string)
    ensures url in Collected(baseUrl, links, filter) <==>
      exists i :: 0 <= i < |links| && Gives(baseUrl, links[i], filter, url)
  {
    if |links| > 0 {
      var init := links[..|links| - 1];
      CollectedMembers(baseUrl, init, filter, url);
      if url in Collected(baseUrl, init, filter) {
        var i :| 0 <= i < |init| && Gives(baseUrl, init[i], filter, url);
        assert links[i] == init[i];
      }
      if exists i :: 0 <= i < |links| && Gives(baseUrl, links[i], filter, url) {
        var i :| 0 <= i < |links| && Gives(baseUrl, links[i], filter, url);
        if i < |links| - 1 {
          assert init[i] == links[i];
        }
      }
    }
  }

  /** The links of one Treasury results page: the `a.pdf` links, then every
      link whose href mentions `.pdf`. */
  datatype PageLinks = PageLinks(pdfLinks: seq<Option<string>>, pdfHrefLinks: seq<Option<string>>)

  function PageUrls(baseUrl: string, page: PageLinks): set<string> {
    Collected(baseUrl, page.pdfLinks, AnyHref) + Collected(baseUrl, page.pdfHrefLinks, PdfHref)
  }

  function PagesUrls(baseUrl: string, pages: seq<PageLinks>): set<string> {
    if |pages| == 0 then {} else PagesUrls(baseUrl, pages[..|pages| - 1]) + PageUrls(baseUrl, pages[|pages| - 1])
  }

  /** The links of the mortgage schedule page: those of the `all-schedules`
      table (its `a.pdf` links, its `AMBS-Schedule` links and all its
      links), or, when the table does not appear, every link whose href
      mentions `.pdf`. */
  datatype MoaPage =
    | Schedules(pdfLinks: seq<Option<string>>, scheduleLinks: seq<Option<string>>, allLinks: seq<Option<string>>)
    | NoSchedules(pdfHrefLinks: seq<Option<string>>)

  function MoaPageUrls(baseUrl: string, page: MoaPage): set<string> {
    match page
    case Schedules(pdfLinks, scheduleLinks, allLinks) =>
      Collected(baseUrl, pdfLinks, AnyHref) + Collected(baseUrl, scheduleLinks, PdfHref)
      + Collected(baseUrl, allLinks, AmbsPdfHref)
    case NoSchedules(pdfHrefLinks) => Collected(baseUrl, pdfHrefLinks, MortgageHref)
  }

  /** One collecting loop: each kept link's absolute URL added to the set. */
  method CollectLinks(baseUrl: string, links: seq<Option<string>>, filter: LinkFilter, urls: set<string>)
    returns (urls': set<string>)
    ensures urls' == urls + Collected(baseUrl, links, filter)
  {
    urls' := urls;
    for i := 0 to |links|
      invariant urls' == urls + Collected(baseUrl, links[..i], filter)
    {
      assert links[..i + 1][..i] == links[..i];
      var href := links[i];
      if href.Some? && href.value != "" && Keeps(filter, href.value) {
        var fullUrl := if StartsWith(href.value, "/") then baseUrl + href.value else href.value;
        urls' := urls' + {fullUrl};
      }
    }
    assert links[..|links|] == links;
  }

  /** `IntegratedFRBNYScraper`: the URL sets it collects. */
  class IntegratedScraper {
    var baseUrl: string
    var moaPdfUrls: set<string>
    var toaPdfUrls: set<string>
    var pdfUrls: set<string>

    constructor()
      ensures baseUrl == "https://www.newyorkfed.org"
      ensures moaPdfUrls == {} && toaPdfUrls == {} && pdfUrls == {}
    {
      baseUrl := "https://www.newyorkfed.org";
      moaPdfUrls := {};
      toaPdfUrls := {};
      pdfUrls := {};
    }

    /** `extract_pdf_urls_from_page` */
    method ExtractPdfUrlsFromPage(page: PageLinks) returns (urls: set<string>)
      ensures urls == PageUrls(baseUrl, page)
    {
      urls := CollectLinks(baseUrl, page.pdfLinks, AnyHref, {});
      urls := CollectLinks(baseUrl, page.pdfHrefLinks, PdfHref, urls);
    }

    /** `scrape_moa_pdf_urls` */
    method ScrapeMoaPdfUrls(page: MoaPage) returns (moaPdfs: set<string>)
      modifies this
      ensures moaPdfs == MoaPageUrls(baseUrl, page) && moaPdfUrls == moaPdfs
      ensures baseUrl == old(baseUrl) && toaPdfUrls == old(toaPdfUrls) && pdfUrls == old(pdfUrls)
    {
      match page {
        case Schedules(pdfLinks, scheduleLinks, allLinks) =>
          moaPdfs := CollectLinks(baseUrl, pdfLinks, AnyHref, {});
          moaPdfs := CollectLinks(baseUrl, scheduleLinks, PdfHref, moaPdfs);
          moaPdfs := CollectLinks(baseUrl, allLinks, AmbsPdfHref, moaPdfs);
        case NoSchedules(pdfHrefLinks) =>
          moaPdfs := CollectLinks(baseUrl, pdfHrefLinks, MortgageHref, {});
      }
      moaPdfUrls := moaPdfs;
    }

    /** `scrape_toa_pdf_urls`: the pages the pagination reached, in order. */
    method ScrapeToaPdfUrls(pages: seq<PageLinks>) returns (toaPdfs: set<string>)
      modifies this
      ensures toaPdfs == PagesUrls(baseUrl, pages) && toaPdfUrls == toaPdfs
      ensures baseUrl == old(baseUrl) && moaPdfUrls == old(moaPdfUrls) && pdfUrls == old(pdfUrls)
    {
      toaPdfs := {};
      var currentPage := 1;
      while currentPage <= |pages|
        invariant 1 <= currentPage <= |pages| + 1
        invariant toaPdfs == PagesUrls(baseUrl, pages[..currentPage - 1])
        invariant unchanged(this)
      {
        assert pages[..currentPage][..currentPage - 1] == pages[..currentPage - 1];
        var pagePdfs := ExtractPdfUrlsFromPage(pages[currentPage - 1]);
        toaPdfs := toaPdfs + pagePdfs;
        currentPage := currentPage + 1;
      }
      assert pages[..|pages|] == pages;
      toaPdfUrls := toaPdfs;
    }

    /** `scrape_all_pdf_urls` */
    method ScrapeAllPdfUrls(moaPage: MoaPage, toaPages: seq<PageLinks>) returns (allPdfs: set<string>)
      modifies this
      ensures moaPdfUrls == MoaPageUrls(baseUrl, moaPage) && toaPdfUrls == PagesUrls(baseUrl, toaPages)
      ensures allPdfs == moaPdfUrls + toaPdfUrls && pdfUrls == allPdfs
      ensures baseUrl == old(baseUrl)
    {
      var moaPdfs := ScrapeMoaPdfUrls(moaPage);
      var toaPdfs := ScrapeToaPdfUrls(toaPages);
      allPdfs := moaPdfs + toaPdfs;
      pdfUrls := allPdfs;
    }
  }

  // ---------------------------------------------------------------------------
  // The CSV outputs

  /** The sort key of `save_moa_operations_to_csv`. */
  function MoaKey(r: MoaRecord): seq<string> {
    [MoaGet(r, MoaSourceDate), MoaGet(r, MoaOperationDate), MoaGet(r, MoaOperationTime)]
  }

  /** The sort key of `save_toa_operations_to_csv`. */
  function ToaKey(r: Record): seq<string> {
    [GetStr(r, "operation_date"), GetStr(r, "operation_time")]
  }

  const MoaFieldnames: seq<string> := [
    "OperationDate", "OperationTime", "Operation Type", "Settlement Date", "Securities Included (CUSP)",
    "Security Maximums (Millions)", "OperationMaximum", "Source_Date"
  ]

  const ToaFieldnames: seq<string> := OutputKeys

  function MoaRowOf(r: MoaRecord): (row: seq<string>)
    ensures |row| == |MoaFieldnames| && forall j :: 0 <= j < |row| ==> row[j] == MoaGet(r, MoaFieldnames[j])
  {
    seq(|MoaFieldnames|, j requires 0 <= j < |MoaFieldnames| => MoaGet(r, MoaFieldnames[j]))
  }

  function ToaRowOf(r: Record): (row: seq<Value>)
    ensures |row| == |ToaFieldnames| && forall j :: 0 <= j < |row| ==> row[j] == Get(r, ToaFieldnames[j])
  {
    seq(|ToaFieldnames|, j requires 0 <= j < |ToaFieldnames| => Get(r, ToaFieldnames[j]))
  }

  /** The data rows `save_moa_operations_to_csv` writes, or `None` when there
      are no operations and no file is written. */
  function MoaCsvRows(operations: seq<MoaRecord>): Option<seq<seq<string>>> {
    if |operations| == 0 then None
    else
      var sorted := SortBy(operations, MoaKey);
      Some(seq(|sorted|, i requires 0 <= i < |sorted| => MoaRowOf(sorted[i])))
  }

  /** The data rows `save_toa_operations_to_csv` writes, or `None`. */
  function ToaCsvRows(operations: seq<Record>): Option<seq<seq<Value>>> {
    if |operations| == 0 then None
    else
      var sorted := SortBy(operations, ToaKey);
      Some(seq(|sorted|, i requires 0 <= i < |sorted| => ToaRowOf(sorted[i])))
  }

  /** The mortgage CSV has one row per operation, the rows are the sorted
      operations (the same records, each once), ordered by source date,
      then operation date, then operation time, with equal keys kept in
      input order. */
  lemma MoaCsvOrder(operations: seq<MoaRecord>)
    requires |operations| > 0
    ensures var sorted := SortBy(operations, MoaKey);
      MoaCsvRows(operations) == Some(seq(|sorted|, i requires 0 <= i < |sorted| => MoaRowOf(sorted[i])))
      && |sorted| == |operations| && multiset(sorted) == multiset(operations)
      && Sorted(sorted, MoaKey)
      && forall k :: WithKey(sorted, MoaKey, k) == WithKey(operations, MoaKey, k)
  {
    SortBySorted(operations, MoaKey);
    forall k ensures WithKey(SortBy(operations, MoaKey), MoaKey, k) == WithKey(operations, MoaKey, k) {
      SortByStable(operations, MoaKey, k);
    }
  }

  /** The Treasury CSV: one row per operation, ordered by operation date
      then time, equal keys in input order. */
  lemma ToaCsvOrder(operations: seq<Record>)
    requires |operations| > 0
    ensures var sorted := SortBy(operations, ToaKey);
      ToaCsvRows(operations) == Some(seq(|sorted|, i requires 0 <= i < |sorted| => ToaRowOf(sorted[i])))
      && |sorted| == |operations| && multiset(sorted) == multiset(operations)
      && Sorted(sorted, ToaKey)
      && forall k :: WithKey(sorted, ToaKey, k) == WithKey(operations, ToaKey, k)
  {
    SortBySorted(operations, ToaKey);
    forall k ensures WithKey(SortBy(operations, ToaKey), ToaKey, k) == WithKey(operations, ToaKey, k) {
      SortByStable(operations, ToaKey, k);
    }
  }

  /** The mortgage records carry no settlement date, so the `Settlement Date`
      column of the mortgage CSV is empty in every row. */
  lemma MoaSettlementColumnEmpty(operations: seq<MoaRecord>)
    requires forall i :: 0 <= i < |operations| ==> forall k :: k in operations[i] ==> k in MoaColumns
    ensures MoaCsvRows(operations).Some? ==>
      forall i :: 0 <= i < |MoaCsvRows(operations).value| ==> MoaCsvRows(operations).value[i][3] == ""
  {
    if |operations| > 0 {
      var sorted := SortBy(operations, MoaKey);
      forall i | 0 <= i < |sorted|
        ensures "Settlement Date" !in sorted[i]
      {
        assert sorted[i] in multiset(operations);
        var j :| 0 <= j < |operations| && operations[j] == sorted[i];
      }
    }
  }
}
