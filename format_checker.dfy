/**
  The per-document format-checking session (`Formatter` in
  aclpubcheck/formatchecker.py). A session owns a log that maps each
  category to the list of its messages and the set of excluded page numbers;
  the five checks run in a fixed order and each reads and extends that state.

  Every check is a method of the class `Formatter` whose postcondition ties
  the new state to a pure step function of the old state (`AfterPageSize`,
  `AfterMargin`, `AfterPageNum`, `AfterFont`, `AfterReferences`); the
  properties of the checker are proved about those functions in the module
  FormatProperties.
 */
module FormatChecker {
  import opened Optional
  import opened Text
  import opened PageGeometry
  import NameCheck

  /** The log categories. All but Bibliography are errors; Bibliography is a warning. */
  datatype Category = Size | Parsing | Margin | Spelling | Font | PageLimit | Bibliography

  predicate IsError(c: Category) { c != Bibliography }

  /** Errors that are counted against the paper: every error category except Parsing. */
  predicate IsBlocking(c: Category) { IsError(c) && c != Parsing }

  const AllCategories: seq<Category> := [Size, Parsing, Margin, Spelling, Font, PageLimit, Bibliography]

  /** The messages a session can log; `Wording` gives their text. */
  datatype Message =
    | NotA4(page: nat)
    | ParseFailure(pages: seq<nat>)
    | TextBleeds(page: nat, side: Side)
    | ImageBleeds(page: nat)
    | ExceedsPageLimit(page: nat, line: nat)
    | CantParsePage(page: nat)
    | NoMainFont
    | WrongFont(name: string)
    | FewDois(doiCount: nat)
    | TooManyArxivLinks(arxivCount: nat, urlCount: nat)
    | FewLinks(urlCount: nat)
    | TooManyArxivWords(wordCount: nat)
    | NoReferences
    | NameCheckWarning(text: string)

  const AllowedFonts: seq<string> := ["NimbusRomNo9L-Regu", "TeXGyreTermesX-Regular", "TimesNewRomanPSMT"]

  function SideName(s: Side): string {
    match s
    case Top => "top"
    case Left => "left"
    case Right => "right"
  }

  function NumberStrings(ps: seq<nat>): seq<string> {
    seq(|ps|, k requires 0 <= k < |ps| => NatToString(ps[k]))
  }

  function QuotedList(xs: seq<string>): seq<string> {
    seq(|xs|, k requires 0 <= k < |xs| => "'" + xs[k] + "'")
  }

  function Wording(m: Message): string {
    match m
    case NotA4(p) => "Page #" + NatToString(p) + " is not A4."
    case ParseFailure(ps) => "Error occurs when parsing page [" + Join(", ", NumberStrings(ps)) + "]."
    case TextBleeds(p, side) => "Text on page " + NatToString(p) + " bleeds into the " + SideName(side) + " margin."
    case ImageBleeds(p) => "An image on page " + NatToString(p) + " bleeds into the margin."
    case ExceedsPageLimit(p, l) =>
      "Paper exceeds the page limit because first (References, Acknowledgments, Ethics Statement) was found on page "
      + NatToString(p) + ", line " + NatToString(l) + "."
    case CantParsePage(p) => "Can't parse page #" + NatToString(p)
    case NoMainFont => "Can't find the main font"
    case WrongFont(name) =>
      "Wrong font. The main font used is " + name + " when it should a font in {" + Join(", ", QuotedList(AllowedFonts)) + "}."
    case FewDois(n) =>
      "Bibliography should use ACL Anthology DOIs whenever possible. Only " + NatToString(n) + " references do."
    case TooManyArxivLinks(a, n) =>
      "It appears you are using arXiv links more than you should (" + NatToString(a) + "/" + NatToString(n)
      + "). Consider using ACL Anthology DOIs instead."
    case FewLinks(n) =>
      "It appears most of the references are not using paper links. Only " + NatToString(n) + " links found."
    case TooManyArxivWords(n) =>
      "It appears you are using arXiv references more than you should (" + NatToString(n)
      + " found). Consider using ACL Anthology references instead."
    case NoReferences => "Couldn't find any references."
    case NameCheckWarning(text) => text
  }

  // ---------------------------------------------------------------------------
  // The session state and the log operations

  type Logs = map<Category, seq<Message>>

  /** Reading an entry of the defaultdict: an absent category has no messages. */
  function Get(l: Logs, c: Category): seq<Message> {
    if c in l then l[c] else []
  }

  /** `logs[c] += ms` on the defaultdict: the entry exists afterwards, even when `ms` is empty. */
  function Extend(l: Logs, c: Category, ms: seq<Message>): Logs {
    l[c := Get(l, c) + ms]
  }

  /** `for m in ms: logs[c] += [m]`: the entry is created only when something is appended. */
  function AppendEach(l: Logs, c: Category, ms: seq<Message>): Logs {
    if ms == [] then l else Extend(l, c, ms)
  }

  lemma AppendEachStep(l: Logs, c: Category, ms: seq<Message>, m: Message)
    ensures AppendEach(l, c, ms + [m]) == Extend(AppendEach(l, c, ms), c, [m])
  {
    if ms == [] {
      assert ms + [m] == [m];
    } else {
      var l' := Extend(l, c, ms);
      assert Get(l', c) == Get(l, c) + ms;
      assert Get(l, c) + ms + [m] == Get(l, c) + (ms + [m]);
      assert l'[c := Get(l', c) + [m]] == l[c := Get(l, c) + (ms + [m])];
    }
  }

  datatype Session = Session(logs: Logs, pageErrors: set<nat>)

  /** The state after a check, and whether the check raised an exception out of `format_check`. */
  datatype StepResult = StepResult(session: Session, raised: bool)

  // ---------------------------------------------------------------------------
  // check_page_size

  /** The 1-based numbers of the pages among the first `n` whose size is not A4, in page order. */
  function NonA4Pages(pages: seq<Page>, n: nat): seq<nat>
    requires n <= |pages|
    decreases n
  {
    if n == 0 then [] else NonA4Pages(pages, n - 1) + (if IsA4(pages[n - 1]) then [] else [n])
  }

  function SizeMessages(bad: seq<nat>): seq<Message> {
    seq(|bad|, k requires 0 <= k < |bad| => NotA4(bad[k]))
  }

  function AfterPageSize(s: Session, pages: seq<Page>): Session {
    var bad := NonA4Pages(pages, |pages|);
    Session(AppendEach(s.logs, Size, SizeMessages(bad)), s.pageErrors + (set p | p in bad))
  }

  // ---------------------------------------------------------------------------
  // check_page_margin

  datatype ImageScan = ImageScan(hits: seq<Hit>, aborted: bool)
  datatype WordScan = WordScan(text: seq<Hit>, image: seq<Hit>)

  /** What the margin scan of one page leaves behind: its `pages_text` and `pages_image` entries and whether it raised. */
  datatype PageScan = PageScan(text: seq<Hit>, image: seq<Hit>, failed: bool)

  /** The images of page `i`, one after the other, until a crop raises. */
  function ScanImages(i: nat, images: seq<Box>, o: Offsets, background: real, raster: (nat, Rect) -> Sample): ImageScan
    decreases |images|
  {
    if images == [] then ImageScan([], false)
    else
      var prev := ScanImages(i, images[..|images| - 1], o, background, raster);
      if prev.aborted then prev
      else
        match ExamineImage(i, images[|images| - 1], o, background, raster)
        case ImageSkip => prev
        case ImageRecord(h) => ImageScan(prev.hits + [h], false)
        case ImageAbort => ImageScan(prev.hits, true)
  }

  /** The words of page `i`, one after the other. */
  function ScanWords(i: nat, words: seq<Word>, o: Offsets, background: real, raster: (nat, Rect) -> Sample): WordScan
    decreases |words|
  {
    if words == [] then WordScan([], [])
    else
      var prev := ScanWords(i, words[..|words| - 1], o, background, raster);
      match ExamineWord(i, words[|words| - 1], o, background, raster)
      case WordSkip => prev
      case TextHit(h) => WordScan(prev.text + [h], prev.image)
      case ImageListHit(h) => WordScan(prev.text, prev.image + [h])
  }

  /**
    The guarded body of the page loop: the images, then the words. An
    exception keeps the image hits found before it.
   */
  function ScanPage(i: nat, page: Page, o: Offsets, background: real, raster: (nat, Rect) -> Sample): PageScan {
    match page.images
    case None => PageScan([], [], true)
    case Some(images) =>
      var im := ScanImages(i, images, o, background, raster);
      if im.aborted then PageScan([], im.hits, true)
      else
        match page.words
        case None => PageScan([], im.hits, true)
        case Some(words) =>
          var ws := ScanWords(i, words, o, background, raster);
          PageScan(ws.text, im.hits + ws.image, false)
  }

  /** The scan of every page; a page in `excluded` is skipped and leaves nothing. */
  function MarginScans(pages: seq<Page>, excluded: set<nat>, o: Offsets, background: real, raster: (nat, Rect) -> Sample): (scans: seq<PageScan>)
    ensures |scans| == |pages|
  {
    seq(|pages|, i requires 0 <= i < |pages| => ScanUnlessExcluded(i, pages[i], excluded, o, background, raster))
  }

  function ScanUnlessExcluded(i: nat, page: Page, excluded: set<nat>, o: Offsets, background: real, raster: (nat, Rect) -> Sample): PageScan {
    if i + 1 in excluded then PageScan([], [], false) else ScanPage(i, page, o, background, raster)
  }

  /** The 1-based numbers of the pages among the first `n` whose scan raised (`perror`). */
  function FailedPages(scans: seq<PageScan>, n: nat): seq<nat>
    requires n <= |scans|
    decreases n
  {
    if n == 0 then [] else FailedPages(scans, n - 1) + (if scans[n - 1].failed then [n] else [])
  }

  /** One TextBleeds message per hit, naming the hit's side. */
  function TextMessages(page: nat, hits: seq<Hit>): seq<Message>
    decreases |hits|
  {
    if hits == [] then [] else TextMessages(page, hits[..|hits| - 1]) + [TextBleeds(page, hits[|hits| - 1].side)]
  }

  /** One ImageBleeds message per hit. */
  function ImageMessages(page: nat, hits: seq<Hit>): seq<Message>
    decreases |hits|
  {
    if hits == [] then [] else ImageMessages(page, hits[..|hits| - 1]) + [ImageBleeds(page)]
  }

  /** The Margin messages of page index `i`: its text hits, then its image-list hits. */
  function PageMessages(i: nat, scan: PageScan): seq<Message> {
    TextMessages(i + 1, scan.text) + ImageMessages(i + 1, scan.image)
  }

  /** The Margin messages of the first `n` pages, in ascending page order. */
  function MarginMessages(scans: seq<PageScan>, n: nat): seq<Message>
    requires n <= |scans|
    decreases n
  {
    if n == 0 then [] else MarginMessages(scans, n - 1) + PageMessages(n - 1, scans[n - 1])
  }

  /** The Margin messages logged from the hit maps for the page indices below `n`. */
  function HitMessages(pagesText: map<nat, seq<Hit>>, pagesImage: map<nat, seq<Hit>>, n: nat): seq<Message>
    decreases n
  {
    if n == 0 then []
    else HitMessages(pagesText, pagesImage, n - 1) + (TextMessages(n, Lookup(pagesText, n - 1)) + ImageMessages(n, Lookup(pagesImage, n - 1)))
  }

  function AfterMargin(s: Session, pages: seq<Page>, o: Offsets, background: real, raster: (nat, Rect) -> Sample): Session {
    var scans := MarginScans(pages, s.pageErrors, o, background, raster);
    var failed := FailedPages(scans, |scans|);
    var logs := if failed != [] then s.logs[Parsing := [ParseFailure(failed)]] else s.logs;
    var pageErrors := if failed != [] then s.pageErrors + (set p | p in failed) else s.pageErrors;
    Session(AppendEach(logs, Margin, MarginMessages(scans, |scans|)), pageErrors)
  }

  // ---------------------------------------------------------------------------
  // check_page_num

  datatype Limit = Pages(n: nat) | Unlimited

  /** The page threshold of a paper type (looked up lower-cased); an unknown type is a KeyError. */
  function PageThreshold(paperType: string): (t: Option<Limit>)
    ensures Lower(paperType) == "short" ==> t == Some(Pages(5))
    ensures Lower(paperType) == "long" ==> t == Some(Pages(9))
    ensures Lower(paperType) == "other" ==> t == Some(Unlimited)
    ensures t.None? <==> Lower(paperType) !in {"short", "long", "other"}
  {
    var key := Lower(paperType);
    if key == "short" then Some(Pages(5))
    else if key == "long" then Some(Pages(9))
    else if key == "other" then Some(Unlimited)
    else None
  }

  /** Section headings that mark the end of the main text (matched case-sensitively). */
  const MarkerCandidates: seq<string> := [
    "References", "Acknowledgments", "Acknowledgement", "Acknowledgment", "EthicsStatement",
    "EthicalConsiderations", "Ethicalconsiderations", "BroaderImpact", "EthicalConcerns"]

  predicate HasMarker(line: string) {
    exists k :: 0 <= k < |MarkerCandidates| && Contains(line, MarkerCandidates[k])
  }

  /** The index of the first of the first `n` lines that contains a marker. */
  function FirstMarkerLine(lines: seq<string>, n: nat): (j: Option<nat>)
    requires n <= |lines|
    ensures j.Some? ==> j.value < n && HasMarker(lines[j.value])
    ensures j.Some? ==> forall k :: 0 <= k < j.value ==> !HasMarker(lines[k])
    ensures j.None? ==> forall k :: 0 <= k < n ==> !HasMarker(lines[k])
    decreases n
  {
    if n == 0 then None
    else
      var prev := FirstMarkerLine(lines, n - 1);
      if prev.Some? then prev
      else if HasMarker(lines[n - 1]) then Some(n - 1)
      else None
  }

  /** The 1-based (page, line) of the first marker line on page number `page`, if any. */
  function PageMarker(page: nat, text: string): Option<(nat, nat)> {
    var lines := SplitOn(text, '\n');
    match FirstMarkerLine(lines, |lines|)
    case None => None
    case Some(j) => Some((page, j + 1))
  }

  datatype MarkerScan = MarkerScan(marker: Option<(nat, nat)>, raised: bool)

  /**
    The marker search over the first `n` pages, skipping excluded pages. It
    does not stop at the first marker: every later page's text is still
    extracted, and an extraction that raises ends the check.
   */
  function ScanMarkers(pages: seq<Page>, excluded: set<nat>, n: nat): MarkerScan
    requires n <= |pages|
    decreases n
  {
    if n == 0 then MarkerScan(None, false)
    else
      var prev := ScanMarkers(pages, excluded, n - 1);
      if prev.raised || n in excluded then prev
      else
        match pages[n - 1].text
        case None => MarkerScan(prev.marker, true)
        case Some(text) => if prev.marker.Some? then prev else MarkerScan(PageMarker(n, text), false)
  }

  /** `marker > (limit + 1, 1)` on tuples. */
  predicate Beyond(marker: (nat, nat), limit: nat) {
    marker.0 > limit + 1 || (marker.0 == limit + 1 && marker.1 > 1)
  }

  function AfterPageNum(s: Session, pages: seq<Page>, paperType: string): StepResult {
    match PageThreshold(paperType)
    case None => StepResult(s, true)
    case Some(Unlimited) => StepResult(s, false)
    case Some(Pages(limit)) =>
      if |pages| <= limit then StepResult(s, false)
      else
        var scan := ScanMarkers(pages, s.pageErrors, |pages|);
        if scan.raised || scan.marker.None? then StepResult(s, true)
        else if Beyond(scan.marker.value, limit) then
          StepResult(Session(s.logs[PageLimit := [ExceedsPageLimit(scan.marker.value.0, scan.marker.value.1)]], s.pageErrors), false)
        else StepResult(s, false)
  }

  // ---------------------------------------------------------------------------
  // check_font

  /** The `fonts` dictionary: counts per font name and the names in insertion order. */
  datatype Tally = Tally(counts: map<string, nat>, order: seq<string>)

  predicate ValidTally(t: Tally) {
    && (forall k :: 0 <= k < |t.order| ==> t.order[k] in t.counts)
    && (forall name :: name in t.counts ==> name in t.order)
    && (forall j, k :: 0 <= j < k < |t.order| ==> t.order[j] != t.order[k])
  }

  /** `fonts[name]` on the defaultdict: an absent name counts zero. */
  function Count(t: Tally, name: string): nat {
    if name in t.counts then t.counts[name] else 0
  }

  /** `fonts[name] += 1` on a defaultdict(int). */
  function Bump(t: Tally, name: string): (r: Tally)
    ensures r.counts.Keys == t.counts.Keys + {name}
    ensures Count(r, name) == Count(t, name) + 1
    ensures forall other :: other != name ==> Count(r, other) == Count(t, other)
  {
    if name in t.counts then Tally(t.counts[name := t.counts[name] + 1], t.order)
    else Tally(t.counts[name := 1], t.order + [name])
  }

  lemma BumpValid(t: Tally, name: string)
    requires ValidTally(t)
    ensures ValidTally(Bump(t, name))
  {
  }

  function TallyChars(t: Tally, chars: seq<string>): (r: Tally)
    decreases |chars|
  {
    if chars == [] then t else Bump(TallyChars(t, chars[..|chars| - 1]), chars[|chars| - 1])
  }

  lemma {:induction false} TallyCharsValid(t: Tally, chars: seq<string>)
    requires ValidTally(t)
    ensures ValidTally(TallyChars(t, chars))
    decreases |chars|
  {
    if chars != [] {
      TallyCharsValid(t, chars[..|chars| - 1]);
      BumpValid(TallyChars(t, chars[..|chars| - 1]), chars[|chars| - 1]);
    }
  }

  /** The font tally over the first `n` pages; a page whose characters cannot be read adds nothing. */
  function FontTally(pages: seq<Page>, n: nat): (t: Tally)
    requires n <= |pages|
    decreases n
  {
    if n == 0 then Tally(map[], [])
    else
      match pages[n - 1].chars
      case None => FontTally(pages, n - 1)
      case Some(chars) => TallyChars(FontTally(pages, n - 1), chars)
  }

  lemma {:induction false} FontTallyValid(pages: seq<Page>, n: nat)
    requires n <= |pages|
    ensures ValidTally(FontTally(pages, n))
    decreases n
  {
    if n > 0 {
      FontTallyValid(pages, n - 1);
      if pages[n - 1].chars.Some? {
        TallyCharsValid(FontTally(pages, n - 1), pages[n - 1].chars.value);
      }
    }
  }

  /** The Font messages for the pages among the first `n` whose characters cannot be read. */
  function FontParseMessages(pages: seq<Page>, n: nat): seq<Message>
    requires n <= |pages|
    decreases n
  {
    if n == 0 then [] else FontParseMessages(pages, n - 1) + (if pages[n - 1].chars.None? then [CantParsePage(n)] else [])
  }

  /** Python's `<` on `(count, name)` tuples. */
  predicate PairLess(a: (nat, string), b: (nat, string)) {
    a.0 < b.0 || (a.0 == b.0 && LexLess(a.1, b.1))
  }

  /** `max((count, name) for name, count in fonts.items())` over the first `n` entries. */
  function MaxEntry(t: Tally, n: nat): (nat, string)
    requires 1 <= n <= |t.order|
    decreases n
  {
    var name := t.order[n - 1];
    if n == 1 then (Count(t, name), name)
    else
      var best := MaxEntry(t, n - 1);
      if PairLess(best, (Count(t, name), name)) then (Count(t, name), name) else best
  }

  /** `sum(fonts.values())` over the first `n` entries. */
  function SumCounts(t: Tally, n: nat): nat
    requires n <= |t.order|
    decreases n
  {
    if n == 0 then 0 else SumCounts(t, n - 1) + Count(t, t.order[n - 1])
  }

  predicate AllowedFont(name: string) {
    exists k :: 0 <= k < |AllowedFonts| && EndsWith(name, AllowedFonts[k])
  }

  /** `count / total < 0.35`, cross-multiplied. */
  predicate TooFewInMainFont(count: nat, total: nat) {
    20 * count < 7 * total
  }

  /** The two verdicts on the dominant `(count, name)` pair. */
  function FontVerdicts(t: Tally): seq<Message>
    requires t.order != []
  {
    var best := MaxEntry(t, |t.order|);
    (if TooFewInMainFont(best.0, SumCounts(t, |t.order|)) then [NoMainFont] else [])
    + (if !AllowedFont(best.1) then [WrongFont(best.1)] else [])
  }

  /** The font check; `max()` of the empty tally raises. */
  function AfterFont(s: Session, pages: seq<Page>): StepResult {
    var logs := AppendEach(s.logs, Font, FontParseMessages(pages, |pages|));
    var t := FontTally(pages, |pages|);
    if t.order == [] then StepResult(Session(logs, s.pageErrors), true)
    else StepResult(Session(AppendEach(logs, Font, FontVerdicts(t)), s.pageErrors), false)
  }

  // ---------------------------------------------------------------------------
  // check_references

  predicate IsDoiUrl(url: string) { Contains(url, "doi.org") }

  /** arxiv.org is only tested when doi.org is absent. */
  predicate IsArxivUrl(url: string) { !IsDoiUrl(url) && Contains(url, "arxiv.org") }

  /** `set(links)`. */
  function UrlSet(links: seq<string>): set<string> {
    set u | u in links
  }

  function DoiCount(urls: set<string>): nat { |set u | u in urls && IsDoiUrl(u)| }

  function ArxivCount(urls: set<string>): nat { |set u | u in urls && IsArxivUrl(u)| }

  predicate HasReferencesLine(lines: seq<string>) {
    exists k :: 0 <= k < |lines| && Contains(lines[k], "References")
  }

  /** The page's text, or "" when extraction raises. */
  function PageText(p: Page): string {
    if p.text.Some? then p.text.value else ""
  }

  datatype RefScan = RefScan(found: bool, arxivWords: nat, doiUrls: nat, arxivUrls: nat, allUrls: nat)

  /**
    The four counters and the flag after the first `n` pages. The flag stays
    set once a page has a line containing "References"; from that page on,
    every page is counted.
   */
  function ScanReferences(pages: seq<Page>, n: nat): RefScan
    requires n <= |pages|
    decreases n
  {
    if n == 0 then RefScan(false, 0, 0, 0, 0)
    else
      var prev := ScanReferences(pages, n - 1);
      var text := PageText(pages[n - 1]);
      var found := prev.found || HasReferencesLine(SplitOn(text, '\n'));
      if !found then prev
      else
        var urls := UrlSet(pages[n - 1].hyperlinks);
        RefScan(true, prev.arxivWords + CountOf(Lower(text), "arxiv"),
                prev.doiUrls + DoiCount(urls), prev.arxivUrls + ArxivCount(urls), prev.allUrls + |urls|)
  }

  /** The Bibliography messages for the pages among the first `n` whose text cannot be extracted. */
  function TextParseMessages(pages: seq<Page>, n: nat): seq<Message>
    requires n <= |pages|
    decreases n
  {
    if n == 0 then [] else TextParseMessages(pages, n - 1) + (if pages[n - 1].text.None? then [CantParsePage(n)] else [])
  }

  /** The five bibliography heuristics, in the order they are tested. */
  function BibWarnings(r: RefScan): seq<Message> {
    Warn(r.doiUrls < 3, FewDois(r.doiUrls))
    + Warn(5 * r.arxivUrls > r.allUrls, TooManyArxivLinks(r.arxivUrls, r.allUrls))
    + Warn(r.allUrls < 5, FewLinks(r.allUrls))
    + Warn(r.arxivWords > 10, TooManyArxivWords(r.arxivWords))
    + Warn(!r.found, NoReferences)
  }

  function Warn(condition: bool, m: Message): seq<Message> {
    if condition then [m] else []
  }

  function NameWarnings(texts: seq<string>): seq<Message> {
    seq(|texts|, k requires 0 <= k < |texts| => NameCheckWarning(texts[k]))
  }

  /** `make_name_check_config`: first and last names compared separately, initials allowed, names not shown. */
  const NameCheckConfig := NameCheck.Config(wholeName := false, firstName := true, lastName := true, initials := true, showNames := false)

  /**
    `check_references`. `nameCheckFlag` is the module's `args.disable_name_check`
    (a `store_false` option, so `true` runs the name check), `None` while
    `args` is still `None` and reading it raises. `nameCheck` is what the name
    check's `execute` returns, `None` when it raises.
   */
  function AfterReferences(s: Session, pages: seq<Page>, nameCheckFlag: Option<bool>, nameCheck: Option<seq<string>>): StepResult {
    var logs := AppendEach(s.logs, Bibliography, TextParseMessages(pages, |pages|));
    if nameCheckFlag.None? || (nameCheckFlag.value && nameCheck.None?) then StepResult(Session(logs, s.pageErrors), true)
    else
      var logs := if nameCheckFlag.value then Extend(logs, Bibliography, NameWarnings(nameCheck.value)) else logs;
      StepResult(Session(AppendEach(logs, Bibliography, BibWarnings(ScanReferences(pages, |pages|))), s.pageErrors), false)
  }

  // ---------------------------------------------------------------------------
  // format_check

  /** The numbers of blocking errors and of warnings among the categories `cats`; Parsing counts as neither. */
  function Tallied(l: Logs, cats: seq<Category>): (nat, nat)
    decreases |cats|
  {
    if cats == [] then (0, 0)
    else
      var (e, w) := Tallied(l, cats[..|cats| - 1]);
      var c := cats[|cats| - 1];
      var n := |Get(l, c)|;
      if IsBlocking(c) then (e + n, w) else if c == Parsing then (e, w) else (e, w + n)
  }

  function ErrorCount(l: Logs): nat { Tallied(l, AllCategories).0 }

  function WarningCount(l: Logs): nat { Tallied(l, AllCategories).1 }

  /** What `format_check` gives back: an exception, or the returned log with the two counts. */
  datatype Report = Raised | Checked(log: Logs, errors: nat, warnings: nat)

  /** The counts of a finished log, and the log itself when it holds an error. */
  function Verdict(l: Logs): Report {
    var errors := ErrorCount(l);
    Checked(if errors >= 1 then l else map[], errors, WarningCount(l))
  }

  /** The whole session: the five checks in order, then the counts and the returned log. */
  function Check(pages: seq<Page>, paperType: string, o: Offsets, background: real, raster: (nat, Rect) -> Sample,
                 nameCheckFlag: Option<bool>, nameCheck: Option<seq<string>>): Report
  {
    var s1 := AfterPageSize(Session(map[], {}), pages);
    var s2 := AfterMargin(s1, pages, o, background, raster);
    var r3 := AfterPageNum(s2, pages, paperType);
    if r3.raised then Raised
    else
      var r4 := AfterFont(r3.session, pages);
      if r4.raised then Raised
      else
        var r5 := AfterReferences(r4.session, pages, nameCheckFlag, nameCheck);
        if r5.raised then Raised else Verdict(r5.session.logs)
  }

  /** English nominal morphology: the singular exactly when the count is one. */
  function Noun(count: nat, singular: string): (word: string)
    ensures word == singular <==> count == 1
    ensures word == singular || word == singular + "s"
  {
    if count == 1 then singular
    else
      assert |singular + "s"| != |singular|;
      singular + "s"
  }

  /** The summary line printed after the messages. */
  function Summary(errors: nat, warnings: nat): string {
    "We detected " + NatToString(errors) + " " + Noun(errors, "error") + " and "
    + NatToString(warnings) + " " + Noun(warnings, "warning") + " in your paper."
  }

  /**
    The paper type used by the batch driver: the declared type, or for
    "auto" the one derived from the paper's own attribute, where "short"
    wins over "long" and anything else stays "auto".
   */
  function DriverPaperType(declared: string, attribute: string): (t: string)
    ensures declared != "auto" ==> t == declared
    ensures declared == "auto" && Contains(attribute, "short") ==> t == "short"
    ensures declared == "auto" && !Contains(attribute, "short") && Contains(attribute, "long") ==> t == "long"
    ensures declared == "auto" && !Contains(attribute, "short") && !Contains(attribute, "long") ==> t == "auto"
  {
    if declared != "auto" then declared
    else
      var t := if Contains(attribute, "long") then "long" else declared;
      if Contains(attribute, "short") then "short" else t
  }

  /** The batch driver's verdict: the returned log is empty. An exception gives no verdict. */
  function IsCorrect(report: Report): (correct: Option<bool>)
    ensures report.Raised? <==> correct.None?
    ensures report.Checked? ==> (correct == Some(true) <==> report.log == map[])
  {
    match report
    case Raised => None
    case Checked(log, _, _) => Some(log == map[])
  }

  /** The submission number: the file name up to its first '_', with ".pdf" removed. */
  function SubmissionNumber(path: string): (number: string)
    ensures '/' !in number && '_' !in number
  {
    var parts := SplitOn(path, '/');
    var name := parts[|parts| - 1];
    var stem := SplitOn(name, '_')[0];
    ReplaceAllKeepsChars(stem, ".pdf");
    ReplaceAll(stem, ".pdf", "")
  }

  /** Removing a pattern never introduces a character. */
  lemma {:induction false} ReplaceAllKeepsChars(s: string, pat: string)
    requires pat != []
    ensures forall c :: c in ReplaceAll(s, pat, "") ==> c in s
    decreases |s|
  {
    if |s| >= |pat| {
      if s[..|pat|] == pat {
        ReplaceAllKeepsChars(s[|pat|..], pat);
      } else {
        ReplaceAllKeepsChars(s[1..], pat);
      }
    }
  }

  // ---------------------------------------------------------------------------
  // The session object

  class Formatter {
    var rightOffset: real
    var leftOffset: real
    var topOffset: real
    /** The grey value of the page background; a sampled crop whose mean equals it is invisible. */
    var backgroundColor: real
    var number: string
    var pdf: seq<Page>
    var logs: Logs
    var pageErrors: set<nat>

    constructor ()
      ensures rightOffset == 4.5 && leftOffset == 2.0 && topOffset == 1.0 && backgroundColor == 255.0
      ensures pdf == [] && logs == map[] && pageErrors == {}
    {
      rightOffset, leftOffset, topOffset := 4.5, 2.0, 1.0;
      backgroundColor := 255.0;
      number, pdf, logs, pageErrors := "", [], map[], {};
    }

    function Offs(): Offsets
      reads this
    {
      Offsets(topOffset, leftOffset, rightOffset)
    }

    function State(): Session
      reads this
    {
      Session(logs, pageErrors)
    }

    /** Runs the five checks on `pages` and returns what `format_check` returns. */
    method FormatCheck(submission: string, pages: seq<Page>, paperType: string, raster: (nat, Rect) -> Sample,
                       nameCheckFlag: Option<bool>, nameCheck: Option<seq<string>>) returns (report: Report)
      modifies this`number, this`pdf, this`logs, this`pageErrors
      ensures number == SubmissionNumber(submission) && pdf == pages
      ensures report == Check(pages, paperType, Offs(), backgroundColor, raster, nameCheckFlag, nameCheck)
    {
      number := SubmissionNumber(submission);
      pdf := pages;
      logs := map[];
      pageErrors := {};
      CheckPageSize();
      CheckPageMargin(raster);
      var raised := CheckPageNum(paperType);
      if raised {
        return Raised;
      }
      raised := CheckFont();
      if raised {
        return Raised;
      }
      raised := CheckReferences(nameCheckFlag, nameCheck);
      if raised {
        return Raised;
      }
      report := Finish();
    }

    /** The end of `format_check`: the counts, and the log only when it holds an error. */
    method Finish() returns (report: Report)
      ensures report == Verdict(logs)
    {
      if logs != map[] {
        var errors, warnings := CountFindings();
        if errors >= 1 {
          report := Checked(logs, errors, warnings);
        } else {
          report := Checked(map[], errors, warnings);
        }
      } else {
        TalliedNothing(logs, AllCategories);
        report := Checked(logs, 0, 0);
      }
    }

    /** Every page whose rounded size is not 595 x 842 gets a Size message and is excluded. */
    method CheckPageSize()
      modifies this`logs, this`pageErrors
      ensures State() == AfterPageSize(old(State()), pdf)
    {
      var bad: seq<nat> := [];
      for i := 0 to |pdf|
        invariant logs == old(logs) && pageErrors == old(pageErrors)
        invariant bad == NonA4Pages(pdf, i)
      {
        if (RoundHalfEven(pdf[i].width), RoundHalfEven(pdf[i].height)) != (PageWidth, PageHeight) {
          bad := bad + [i + 1];
        }
      }
      for k := 0 to |bad|
        invariant pageErrors == old(pageErrors)
        invariant logs == AppendEach(old(logs), Size, SizeMessages(bad[..k]))
      {
        AppendEachStep(old(logs), Size, SizeMessages(bad[..k]), NotA4(bad[k]));
        assert SizeMessages(bad[..k + 1]) == SizeMessages(bad[..k]) + [NotA4(bad[k])];
        logs := logs[Size := Get(logs, Size) + [NotA4(bad[k])]];
      }
      assert bad[..|bad|] == bad;
      pageErrors := pageErrors + (set p | p in bad);
    }

    /** The images of page `i` in order, until a crop raises. */
    method ScanImagesOf(i: nat, images: seq<Box>, raster: (nat, Rect) -> Sample) returns (hits: seq<Hit>, aborted: bool)
      ensures ImageScan(hits, aborted) == ScanImages(i, images, Offs(), backgroundColor, raster)
    {
      hits, aborted := [], false;
      var k := 0;
      while k < |images| && !aborted
        invariant 0 <= k <= |images|
        invariant ImageScan(hits, aborted) == ScanImages(i, images[..k], Offs(), backgroundColor, raster)
      {
        var b := images[k];
        var violation := Classify(b, Offs());
        if violation.Some? {
          var r := VisibleOverflow(b, violation.value, Offs());
          if !IsSliver(r) {
            match raster(i, r)
            case CropRaised =>
              aborted := true;
            case RenderRaised =>
              hits := hits + [Hit(b, violation.value)];
            case Mean(m) =>
              if m != backgroundColor {
                hits := hits + [Hit(b, violation.value)];
              }
          }
        }
        assert images[..k + 1][..k] == images[..k];
        k := k + 1;
      }
      if aborted {
        AbortedStaysAborted(i, images, k, Offs(), backgroundColor, raster);
      } else {
        assert images[..k] == images;
      }
    }

    /** The words of page `i` in order. */
    method ScanWordsOf(i: nat, words: seq<Word>, raster: (nat, Rect) -> Sample) returns (text: seq<Hit>, image: seq<Hit>)
      ensures WordScan(text, image) == ScanWords(i, words, Offs(), backgroundColor, raster)
    {
      text, image := [], [];
      for k := 0 to |words|
        invariant WordScan(text, image) == ScanWords(i, words[..k], Offs(), backgroundColor, raster)
      {
        var w := words[k];
        if !IsPlainText(w) {
          var violation := Classify(w.box, Offs());
          if violation.Some? && OnPage(w.box) {
            var r := VisibleOverflow(w.box, violation.value, Offs());
            if !IsSliver(r) {
              match raster(i, r)
              case Mean(m) =>
                if m != backgroundColor {
                  text := text + [Hit(w.box, violation.value)];
                }
              case _ =>
                image := image + [Hit(w.box, violation.value)];
            }
          }
        }
        assert words[..k + 1][..k] == words[..k];
      }
      assert words[..|words|] == words;
    }

    /** The guarded body of the margin loop for page index `i`. */
    method ScanPageOf(i: nat, page: Page, raster: (nat, Rect) -> Sample) returns (scan: PageScan)
      ensures scan == ScanPage(i, page, Offs(), backgroundColor, raster)
    {
      if page.images.None? {
        return PageScan([], [], true);
      }
      var imageHits, aborted := ScanImagesOf(i, page.images.value, raster);
      if aborted {
        return PageScan([], imageHits, true);
      }
      if page.words.None? {
        return PageScan([], imageHits, true);
      }
      var textHits, moreImageHits := ScanWordsOf(i, page.words.value, raster);
      return PageScan(textHits, imageHits + moreImageHits, false);
    }

    /** The margin scans of the current document, with the current exclusions. */
    ghost function Scans(raster: (nat, Rect) -> Sample): seq<PageScan>
      reads this
    {
      MarginScans(pdf, pageErrors, Offs(), backgroundColor, raster)
    }

    /**
      The page loop of the margin check: the hits of every page not yet
      excluded, by page index, and the pages whose scan raised. Read back
      page by page, the hit maps give the Margin messages of the scans.
     */
    method ScanMargins(raster: (nat, Rect) -> Sample)
      returns (pagesText: map<nat, seq<Hit>>, pagesImage: map<nat, seq<Hit>>, perror: seq<nat>)
      ensures perror == FailedPages(Scans(raster), |pdf|)
      ensures HitMessages(pagesText, pagesImage, |pdf|) == MarginMessages(Scans(raster), |pdf|)
    {
      ghost var scans := Scans(raster);
      pagesText, pagesImage, perror := map[], map[], [];
      for i := 0 to |pdf|
        invariant perror == FailedPages(scans, i)
        invariant HitsSoFar(scans, i, pagesText, pagesImage)
      {
        pagesText, pagesImage, perror := ScanMarginPage(i, raster, pagesText, pagesImage, perror);
      }
      HitMessagesAgree(scans, |pdf|, pagesText, pagesImage, |pdf|);
    }

    /** One turn of the page loop: page `i` is scanned unless excluded, and its hits and failure recorded. */
    method ScanMarginPage(i: nat, raster: (nat, Rect) -> Sample, pagesText: map<nat, seq<Hit>>, pagesImage: map<nat, seq<Hit>>, perror: seq<nat>)
      returns (pagesText': map<nat, seq<Hit>>, pagesImage': map<nat, seq<Hit>>, perror': seq<nat>)
      requires i < |pdf|
      requires perror == FailedPages(Scans(raster), i) && HitsSoFar(Scans(raster), i, pagesText, pagesImage)
      ensures perror' == FailedPages(Scans(raster), i + 1) && HitsSoFar(Scans(raster), i + 1, pagesText', pagesImage')
    {
      ghost var scans := Scans(raster);
      MarginScansAt(pdf, pageErrors, Offs(), backgroundColor, raster, i);
      HitsStep(scans, i, pagesText, pagesImage);
      pagesText', pagesImage', perror' := pagesText, pagesImage, perror;
      if i + 1 !in pageErrors {
        var scan := ScanPageOf(i, pdf[i], raster);
        if scan.text != [] {
          pagesText' := pagesText'[i := scan.text];
        }
        if scan.image != [] {
          pagesImage' := pagesImage'[i := scan.image];
        }
        if scan.failed {
          perror' := perror' + [i + 1];
        }
      } else {
        assert FailedPages(scans, i + 1) == FailedPages(scans, i) + [];
      }
    }

    /** `for b in hits: logs[Error.MARGIN] += [<text message>]` for page number `page`. */
    method LogTextHits(page: nat, hits: seq<Hit>, ghost base: Logs, ghost prefix: seq<Message>)
      requires logs == AppendEach(base, Margin, prefix)
      modifies this`logs
      ensures logs == AppendEach(base, Margin, prefix + TextMessages(page, hits))
    {
      assert prefix + TextMessages(page, hits[..0]) == prefix;
      for j := 0 to |hits|
        invariant logs == AppendEach(base, Margin, prefix + TextMessages(page, hits[..j]))
      {
        AppendEachStep(base, Margin, prefix + TextMessages(page, hits[..j]), TextBleeds(page, hits[j].side));
        assert hits[..j + 1][..j] == hits[..j];
        assert TextMessages(page, hits[..j + 1]) == TextMessages(page, hits[..j]) + [TextBleeds(page, hits[j].side)];
        assert prefix + TextMessages(page, hits[..j + 1]) == prefix + TextMessages(page, hits[..j]) + [TextBleeds(page, hits[j].side)];
        logs := logs[Margin := Get(logs, Margin) + [TextBleeds(page, hits[j].side)]];
      }
      assert hits[..|hits|] == hits;
    }

    /** `for b in hits: logs[Error.MARGIN] += [<image message>]` for page number `page`. */
    method LogImageHits(page: nat, hits: seq<Hit>, ghost base: Logs, ghost prefix: seq<Message>)
      requires logs == AppendEach(base, Margin, prefix)
      modifies this`logs
      ensures logs == AppendEach(base, Margin, prefix + ImageMessages(page, hits))
    {
      assert prefix + ImageMessages(page, hits[..0]) == prefix;
      for j := 0 to |hits|
        invariant logs == AppendEach(base, Margin, prefix + ImageMessages(page, hits[..j]))
      {
        AppendEachStep(base, Margin, prefix + ImageMessages(page, hits[..j]), ImageBleeds(page));
        assert hits[..j + 1][..j] == hits[..j];
        assert ImageMessages(page, hits[..j + 1]) == ImageMessages(page, hits[..j]) + [ImageBleeds(page)];
        assert prefix + ImageMessages(page, hits[..j + 1]) == prefix + ImageMessages(page, hits[..j]) + [ImageBleeds(page)];
        logs := logs[Margin := Get(logs, Margin) + [ImageBleeds(page)]];
      }
      assert hits[..|hits|] == hits;
    }

    /** The messages of one page that has hits: its text hits, then its image-list hits. */
    method LogPageHits(page: nat, texts: seq<Hit>, images: seq<Hit>, ghost base: Logs, ghost prefix: seq<Message>)
      requires logs == AppendEach(base, Margin, prefix)
      modifies this`logs
      ensures logs == AppendEach(base, Margin, prefix + (TextMessages(page, texts) + ImageMessages(page, images)))
    {
      LogTextHits(page, texts, base, prefix);
      LogImageHits(page, images, base, prefix + TextMessages(page, texts));
      assert prefix + TextMessages(page, texts) + ImageMessages(page, images) == prefix + (TextMessages(page, texts) + ImageMessages(page, images));
    }

    /**
      The message loop of the margin check: for each page with an entry in
      either map, in ascending order, one Margin message per text hit and
      then one per image hit.
     */
    method LogMarginHits(pagesText: map<nat, seq<Hit>>, pagesImage: map<nat, seq<Hit>>)
      modifies this`logs
      ensures logs == AppendEach(old(logs), Margin, HitMessages(pagesText, pagesImage, |pdf|))
    {
      ghost var base := logs;
      for page := 0 to |pdf|
        invariant logs == AppendEach(base, Margin, HitMessages(pagesText, pagesImage, page))
      {
        LogPageOf(page, pagesText, pagesImage, base);
      }
    }

    /** The messages of page index `page`: none when it has no entry in either map. */
    method LogPageOf(page: nat, pagesText: map<nat, seq<Hit>>, pagesImage: map<nat, seq<Hit>>, ghost base: Logs)
      requires logs == AppendEach(base, Margin, HitMessages(pagesText, pagesImage, page))
      modifies this`logs
      ensures logs == AppendEach(base, Margin, HitMessages(pagesText, pagesImage, page + 1))
    {
      if page in pagesText || page in pagesImage {
        LogPageHits(page + 1, Lookup(pagesText, page), Lookup(pagesImage, page), base, HitMessages(pagesText, pagesImage, page));
      } else {
        NoHitsNoMessages(pagesText, pagesImage, page);
      }
    }

    /**
      Scans every page not yet excluded, excludes the pages whose scan raised
      (one Parsing message lists them), then logs one Margin message per
      recorded violation, page by page.
     */
    method CheckPageMargin(raster: (nat, Rect) -> Sample)
      modifies this`logs, this`pageErrors
      ensures State() == AfterMargin(old(State()), pdf, Offs(), backgroundColor, raster)
    {
      ghost var scans := Scans(raster);
      var pagesText, pagesImage, perror := ScanMargins(raster);
      ExcludeFailed(perror);
      LogMarginHits(pagesText, pagesImage);
    }

    /** The pages whose scan raised join the exclusions, and ONE Parsing message (assigned, not appended) lists them. */
    method ExcludeFailed(perror: seq<nat>)
      modifies this`logs, this`pageErrors
      ensures logs == if perror != [] then old(logs)[Parsing := [ParseFailure(perror)]] else old(logs)
      ensures pageErrors == if perror != [] then old(pageErrors) + (set p | p in perror) else old(pageErrors)
    {
      if perror != [] {
        pageErrors := pageErrors + (set p | p in perror);
        logs := logs[Parsing := [ParseFailure(perror)]];
      }
    }

    /**
      The page-limit heuristic. Returns whether it raised: for an unknown
      paper type, for a page whose text cannot be extracted, and when no
      marker is found in a paper longer than its threshold.
     */
    method CheckPageNum(paperType: string) returns (raised: bool)
      modifies this`logs
      ensures raised == AfterPageNum(old(State()), pdf, paperType).raised
      ensures State() == AfterPageNum(old(State()), pdf, paperType).session
    {
      var threshold := PageThreshold(paperType);
      if threshold.None? {
        return true;
      }
      var marker: Option<(nat, nat)> := None;
      if threshold.value.Unlimited? || |pdf| <= threshold.value.n {
        return false;
      }
      var limit := threshold.value.n;
      for i := 0 to |pdf|
        invariant ScanMarkers(pdf, pageErrors, i) == MarkerScan(marker, false)
      {
        if i + 1 !in pageErrors {
          if pdf[i].text.None? {
            MarkerRaisedStaysRaised(pdf, pageErrors, i + 1);
            return true;
          }
          var lines := SplitOn(pdf[i].text.value, '\n');
          ghost var before := marker;
          for j := 0 to |lines|
            invariant marker == if before.Some? then before
                                else if FirstMarkerLine(lines, j).Some? then Some((i + 1, FirstMarkerLine(lines, j).value + 1))
                                else None
          {
            if marker.None? && HasMarker(lines[j]) {
              marker := Some((i + 1, j + 1));
            }
          }
        }
      }
      if marker.None? {
        return true;
      }
      if Beyond(marker.value, limit) {
        logs := logs[PageLimit := [ExceedsPageLimit(marker.value.0, marker.value.1)]];
      }
      return false;
    }

    /** `max((count, name) for name, count in fonts.items())`. */
    method DominantFont(t: Tally) returns (count: nat, name: string)
      requires t.order != []
      ensures (count, name) == MaxEntry(t, |t.order|)
    {
      count, name := Count(t, t.order[0]), t.order[0];
      for k := 1 to |t.order|
        invariant (count, name) == MaxEntry(t, k)
      {
        var next := t.order[k];
        if PairLess((count, name), (Count(t, next), next)) {
          count, name := Count(t, next), next;
        }
      }
    }

    /** `sum(fonts.values())`. */
    method SumOfCounts(t: Tally) returns (total: nat)
      ensures total == SumCounts(t, |t.order|)
    {
      total := 0;
      for k := 0 to |t.order|
        invariant total == SumCounts(t, k)
      {
        total := total + Count(t, t.order[k]);
      }
    }

    /** `for char in page.chars: fonts[char["fontname"]] += 1`. */
    method TallyPage(start: Tally, chars: seq<string>) returns (fonts: Tally)
      ensures fonts == TallyChars(start, chars)
    {
      fonts := start;
      for k := 0 to |chars|
        invariant fonts == TallyChars(start, chars[..k])
      {
        assert chars[..k + 1][..k] == chars[..k];
        fonts := Bump(fonts, chars[k]);
      }
      assert chars[..|chars|] == chars;
    }

    /**
      The tally loop of the font check: counts the font of every character,
      logging the pages whose characters cannot be read.
     */
    method TallyFonts() returns (fonts: Tally)
      modifies this`logs
      ensures fonts == FontTally(pdf, |pdf|)
      ensures logs == AppendEach(old(logs), Font, FontParseMessages(pdf, |pdf|))
    {
      fonts := Tally(map[], []);
      for i := 0 to |pdf|
        invariant fonts == FontTally(pdf, i)
        invariant logs == AppendEach(old(logs), Font, FontParseMessages(pdf, i))
      {
        fonts := TallyPageOf(i, fonts, old(logs));
      }
    }

    /** The body of the tally loop for page index `i`. */
    method TallyPageOf(i: nat, fonts: Tally, ghost base: Logs) returns (fonts': Tally)
      requires i < |pdf| && fonts == FontTally(pdf, i)
      requires logs == AppendEach(base, Font, FontParseMessages(pdf, i))
      modifies this`logs
      ensures fonts' == FontTally(pdf, i + 1)
      ensures logs == AppendEach(base, Font, FontParseMessages(pdf, i + 1))
    {
      FontStep(pdf, i);
      fonts' := fonts;
      if pdf[i].chars.None? {
        AppendEachStep(base, Font, FontParseMessages(pdf, i), CantParsePage(i + 1));
        logs := logs[Font := Get(logs, Font) + [CantParsePage(i + 1)]];
      } else {
        assert FontParseMessages(pdf, i) + [] == FontParseMessages(pdf, i);
        fonts' := TallyPage(fonts, pdf[i].chars.value);
      }
    }

    /** The font check. Returns whether it raised, which happens when no character was tallied. */
    method CheckFont() returns (raised: bool)
      modifies this`logs
      ensures raised == AfterFont(old(State()), pdf).raised
      ensures State() == AfterFont(old(State()), pdf).session
    {
      var fonts := TallyFonts();
      if fonts.order == [] {
        return true;
      }
      var count, name := DominantFont(fonts);
      var total := SumOfCounts(fonts);
      ghost var base := logs;
      ghost var added: seq<Message> := [];
      if 20 * count < 7 * total {
        AppendEachStep(base, Font, added, NoMainFont);
        logs := logs[Font := Get(logs, Font) + [NoMainFont]];
        added := added + [NoMainFont];
      }
      if !AllowedFont(name) {
        AppendEachStep(base, Font, added, WrongFont(name));
        logs := logs[Font := Get(logs, Font) + [WrongFont(name)]];
        added := added + [WrongFont(name)];
      }
      assert added == FontVerdicts(fonts);
      return false;
    }

    /** Counts the unique URLs of one page: DOI links, arXiv links and all of them. */
    method CountUrls(hyperlinks: seq<string>) returns (doi: nat, arxiv: nat, all: nat)
      ensures doi == DoiCount(UrlSet(hyperlinks)) && arxiv == ArxivCount(UrlSet(hyperlinks)) && all == |UrlSet(hyperlinks)|
    {
      var urls := UrlSet(hyperlinks);
      var rest := urls;
      doi, arxiv, all := 0, 0, 0;
      while rest != {}
        invariant rest <= urls
        invariant doi == DoiCount(urls - rest) && arxiv == ArxivCount(urls - rest) && all == |urls - rest|
        decreases |rest|
      {
        var url :| url in rest;
        var done := urls - rest;
        assert urls - (rest - {url}) == done + {url};
        CountOneMore(done, url);
        if Contains(url, "doi.org") {
          doi := doi + 1;
        } else if Contains(url, "arxiv.org") {
          arxiv := arxiv + 1;
        }
        all := all + 1;
        rest := rest - {url};
      }
      assert urls - rest == urls;
    }

    /** Whether some line contains "References"; the search stops at the first one. */
    method FindReferencesLine(lines: seq<string>) returns (found: bool)
      ensures found == HasReferencesLine(lines)
    {
      found := false;
      var j := 0;
      while j < |lines|
        invariant 0 <= j <= |lines|
        invariant forall k :: 0 <= k < j ==> !Contains(lines[k], "References")
      {
        if Contains(lines[j], "References") {
          found := true;
          break;
        }
        j := j + 1;
      }
    }

    /**
      The page loop of the reference check: the counters of `ScanReferences`,
      logging the pages whose text cannot be extracted.
     */
    method ScanReferencePages() returns (scan: RefScan)
      modifies this`logs
      ensures scan == ScanReferences(pdf, |pdf|)
      ensures logs == AppendEach(old(logs), Bibliography, TextParseMessages(pdf, |pdf|))
    {
      scan := RefScan(false, 0, 0, 0, 0);
      for i := 0 to |pdf|
        invariant scan == ScanReferences(pdf, i)
        invariant logs == AppendEach(old(logs), Bibliography, TextParseMessages(pdf, i))
      {
        scan := ScanReferencePage(i, scan, old(logs));
      }
    }

    /** One turn of the page loop: page `i`'s text, its References line, and its counts once the flag is set. */
    method ScanReferencePage(i: nat, prev: RefScan, ghost base: Logs) returns (next: RefScan)
      requires i < |pdf| && prev == ScanReferences(pdf, i)
      requires logs == AppendEach(base, Bibliography, TextParseMessages(pdf, i))
      modifies this`logs
      ensures next == ScanReferences(pdf, i + 1)
      ensures logs == AppendEach(base, Bibliography, TextParseMessages(pdf, i + 1))
    {
      var found, arxivWordCount, doiUrlCount, arxivUrlCount, allUrlCount :=
        prev.found, prev.arxivWords, prev.doiUrls, prev.arxivUrls, prev.allUrls;
      var pageText := ReadPageText(i, base);
      var lines := SplitOn(pageText, '\n');
      var present := FindReferencesLine(lines);
      found := found || present;
      if found {
        arxivWordCount := arxivWordCount + CountOf(Lower(pageText), "arxiv");
        var doi, arxiv, all := CountUrls(pdf[i].hyperlinks);
        doiUrlCount, arxivUrlCount, allUrlCount := doiUrlCount + doi, arxivUrlCount + arxiv, allUrlCount + all;
      }
      next := RefScan(found, arxivWordCount, doiUrlCount, arxivUrlCount, allUrlCount);
    }

    /** Page `i`'s text, or "" with a Bibliography message when it cannot be extracted. */
    method ReadPageText(i: nat, ghost base: Logs) returns (pageText: string)
      requires i < |pdf|
      requires logs == AppendEach(base, Bibliography, TextParseMessages(pdf, i))
      modifies this`logs
      ensures pageText == PageText(pdf[i])
      ensures logs == AppendEach(base, Bibliography, TextParseMessages(pdf, i + 1))
    {
      if pdf[i].text.Some? {
        assert TextParseMessages(pdf, i + 1) == TextParseMessages(pdf, i) + [];
        assert TextParseMessages(pdf, i) + [] == TextParseMessages(pdf, i);
        pageText := pdf[i].text.value;
      } else {
        pageText := "";
        AppendEachStep(base, Bibliography, TextParseMessages(pdf, i), CantParsePage(i + 1));
        logs := logs[Bibliography := Get(logs, Bibliography) + [CantParsePage(i + 1)]];
      }
    }

    /** The bibliography heuristics, after the name check's output when `args.disable_name_check` is set. */
    method CheckReferences(nameCheckFlag: Option<bool>, nameCheck: Option<seq<string>>) returns (raised: bool)
      modifies this`logs
      ensures raised == AfterReferences(old(State()), pdf, nameCheckFlag, nameCheck).raised
      ensures State() == AfterReferences(old(State()), pdf, nameCheckFlag, nameCheck).session
    {
      var scan := ScanReferencePages();
      if nameCheckFlag.None? {
        return true;
      }
      if nameCheckFlag.value {
        if nameCheck.None? {
          return true;
        }
        logs := logs[Bibliography := Get(logs, Bibliography) + NameWarnings(nameCheck.value)];
      }
      LogBibWarnings(scan);
      raised := false;
    }

    /** The five heuristics on the counts of the bibliography scan, each appending its warning when it fires. */
    method LogBibWarnings(scan: RefScan)
      modifies this`logs
      ensures logs == AppendEach(old(logs), Bibliography, BibWarnings(scan))
    {
      var found, arxivWordCount, doiUrlCount, arxivUrlCount, allUrlCount :=
        scan.found, scan.arxivWords, scan.doiUrls, scan.arxivUrls, scan.allUrls;
      ghost var base := logs;
      ghost var added: seq<Message> := [];
      LogWarning(doiUrlCount < 3, FewDois(doiUrlCount), base, added);
      added := added + Warn(doiUrlCount < 3, FewDois(doiUrlCount));
      assert added == Warn(doiUrlCount < 3, FewDois(doiUrlCount));
      LogWarning(5 * arxivUrlCount > allUrlCount, TooManyArxivLinks(arxivUrlCount, allUrlCount), base, added);
      added := added + Warn(5 * arxivUrlCount > allUrlCount, TooManyArxivLinks(arxivUrlCount, allUrlCount));
      LogWarning(allUrlCount < 5, FewLinks(allUrlCount), base, added);
      added := added + Warn(allUrlCount < 5, FewLinks(allUrlCount));
      LogWarning(arxivWordCount > 10, TooManyArxivWords(arxivWordCount), base, added);
      added := added + Warn(arxivWordCount > 10, TooManyArxivWords(arxivWordCount));
      LogWarning(!found, NoReferences, base, added);
    }

    /** `if condition: logs[Warn.BIB] += [m]`, one of the five heuristics. */
    method LogWarning(condition: bool, m: Message, ghost base: Logs, ghost added: seq<Message>)
      requires logs == AppendEach(base, Bibliography, added)
      modifies this`logs
      ensures logs == AppendEach(base, Bibliography, added + Warn(condition, m))
    {
      if condition {
        AppendEachStep(base, Bibliography, added, m);
        logs := logs[Bibliography := Get(logs, Bibliography) + [m]];
      } else {
        assert added + [] == added;
      }
    }

    /** Counts the logged messages: blocking errors, and warnings; Parsing messages count as neither. */
    method CountFindings() returns (errors: nat, warnings: nat)
      ensures errors == ErrorCount(logs) && warnings == WarningCount(logs)
    {
      errors, warnings := 0, 0;
      for k := 0 to |AllCategories|
        invariant (errors, warnings) == Tallied(logs, AllCategories[..k])
      {
        var c := AllCategories[k];
        assert AllCategories[..k + 1][..k] == AllCategories[..k];
        if c in logs {
          var ms := logs[c];
          ghost var e0, w0 := errors, warnings;
          for j := 0 to |ms|
            invariant IsBlocking(c) ==> errors == e0 + j && warnings == w0
            invariant c == Parsing ==> errors == e0 && warnings == w0
            invariant !IsError(c) ==> errors == e0 && warnings == w0 + j
          {
            if IsError(c) && c != Parsing {
              errors := errors + 1;
            } else if c == Parsing {
            } else {
              warnings := warnings + 1;
            }
          }
        }
      }
      assert AllCategories[..|AllCategories|] == AllCategories;
    }
  }

  /** `defaultdict` reads: an absent page has no hits. */
  function Lookup(m: map<nat, seq<Hit>>, k: nat): seq<Hit> {
    if k in m then m[k] else []
  }

  /** The hit maps hold the scans of the pages before `i`, and nothing else. */
  ghost predicate HitsSoFar(scans: seq<PageScan>, i: nat, pagesText: map<nat, seq<Hit>>, pagesImage: map<nat, seq<Hit>>)
    requires i <= |scans|
  {
    && (forall k :: k in pagesText ==> k < i)
    && (forall k :: k in pagesImage ==> k < i)
    && (forall k :: 0 <= k < i ==> Lookup(pagesText, k) == scans[k].text && Lookup(pagesImage, k) == scans[k].image)
  }

  /** Recording page `i`'s hits, when there are any, extends the maps by that page. */
  lemma HitsStep(scans: seq<PageScan>, i: nat, pagesText: map<nat, seq<Hit>>, pagesImage: map<nat, seq<Hit>>)
    requires i < |scans| && HitsSoFar(scans, i, pagesText, pagesImage)
    ensures HitsSoFar(scans, i + 1, if scans[i].text != [] then pagesText[i := scans[i].text] else pagesText,
                      if scans[i].image != [] then pagesImage[i := scans[i].image] else pagesImage)
  {
  }

  /** The scan of page index `i`: empty for an excluded page. */
  lemma MarginScansAt(pages: seq<Page>, excluded: set<nat>, o: Offsets, background: real, raster: (nat, Rect) -> Sample, i: nat)
    requires i < |pages|
    ensures MarginScans(pages, excluded, o, background, raster)[i] == ScanUnlessExcluded(i, pages[i], excluded, o, background, raster)
  {
  }

  lemma {:induction false} AbortedStaysAborted(i: nat, images: seq<Box>, k: nat, o: Offsets, background: real, raster: (nat, Rect) -> Sample)
    requires k <= |images|
    requires ScanImages(i, images[..k], o, background, raster).aborted
    ensures ScanImages(i, images, o, background, raster) == ScanImages(i, images[..k], o, background, raster)
    decreases |images| - k
  {
    if k < |images| {
      assert images[..k + 1][..k] == images[..k];
      AbortedStaysAborted(i, images, k + 1, o, background, raster);
      assert images[..|images|] == images;
    } else {
      assert images[..k] == images;
    }
  }

  lemma {:induction false} MarkerRaisedStaysRaised(pages: seq<Page>, excluded: set<nat>, n: nat)
    requires n <= |pages|
    requires ScanMarkers(pages, excluded, n).raised || (n >= 1 && n !in excluded && pages[n - 1].text.None?
                                                         && !ScanMarkers(pages, excluded, n - 1).raised)
    ensures ScanMarkers(pages, excluded, |pages|).raised
    decreases |pages| - n
  {
    assert ScanMarkers(pages, excluded, n).raised;
    if n < |pages| {
      MarkerRaisedStaysRaised(pages, excluded, n + 1);
    }
  }

  lemma CountOneMore(done: set<string>, url: string)
    requires url !in done
    ensures DoiCount(done + {url}) == DoiCount(done) + (if IsDoiUrl(url) then 1 else 0)
    ensures ArxivCount(done + {url}) == ArxivCount(done) + (if IsArxivUrl(url) then 1 else 0)
  {
    var d := set u | u in done && IsDoiUrl(u);
    var d' := set u | u in done + {url} && IsDoiUrl(u);
    if IsDoiUrl(url) { assert d' == d + {url}; } else { assert d' == d; }
    var a := set u | u in done && IsArxivUrl(u);
    var a' := set u | u in done + {url} && IsArxivUrl(u);
    if IsArxivUrl(url) { assert a' == a + {url}; } else { assert a' == a; }
  }

  /** One more page of the font check: its characters are tallied, or it is reported unreadable. */
  lemma FontStep(pages: seq<Page>, i: nat)
    requires i < |pages|
    ensures FontTally(pages, i + 1)
            == if pages[i].chars.None? then FontTally(pages, i) else TallyChars(FontTally(pages, i), pages[i].chars.value)
    ensures FontParseMessages(pages, i + 1)
            == FontParseMessages(pages, i) + if pages[i].chars.None? then [CantParsePage(i + 1)] else []
  {
  }

  /** A page without hits adds no Margin message. */
  lemma NoHitsNoMessages(pagesText: map<nat, seq<Hit>>, pagesImage: map<nat, seq<Hit>>, page: nat)
    requires page !in pagesText && page !in pagesImage
    ensures HitMessages(pagesText, pagesImage, page + 1) == HitMessages(pagesText, pagesImage, page)
  {
    assert TextMessages(page + 1, []) == [] && ImageMessages(page + 1, []) == [];
    assert HitMessages(pagesText, pagesImage, page) + ([] + []) == HitMessages(pagesText, pagesImage, page);
  }

  /** Read through the hit maps that the scan loop left, the messages are those of the page scans. */
  lemma {:induction false} HitMessagesAgree(scans: seq<PageScan>, i: nat, pagesText: map<nat, seq<Hit>>, pagesImage: map<nat, seq<Hit>>, n: nat)
    requires n <= i <= |scans| && HitsSoFar(scans, i, pagesText, pagesImage)
    ensures HitMessages(pagesText, pagesImage, n) == MarginMessages(scans, n)
    decreases n
  {
    if n > 0 {
      HitMessagesAgree(scans, i, pagesText, pagesImage, n - 1);
      HitsAt(scans, i, pagesText, pagesImage, n - 1);
      assert PageMessages(n - 1, scans[n - 1]) == TextMessages(n, Lookup(pagesText, n - 1)) + ImageMessages(n, Lookup(pagesImage, n - 1));
    }
  }

  lemma HitsAt(scans: seq<PageScan>, i: nat, pagesText: map<nat, seq<Hit>>, pagesImage: map<nat, seq<Hit>>, k: nat)
    requires k < i <= |scans| && HitsSoFar(scans, i, pagesText, pagesImage)
    ensures Lookup(pagesText, k) == scans[k].text && Lookup(pagesImage, k) == scans[k].image
  {
  }

  /** An empty log has no errors and no warnings. */
  lemma {:induction false} TalliedNothing(l: Logs, cats: seq<Category>)
    requires l == map[]
    ensures Tallied(l, cats) == (0, 0)
    decreases |cats|
  {
    if cats != [] {
      TalliedNothing(l, cats[..|cats| - 1]);
    }
  }
}
