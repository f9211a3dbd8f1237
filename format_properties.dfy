/**
  What the format-checking session promises, proved about the step functions
  that the methods of `Formatter` are tied to.
 */
module FormatProperties {
  import opened Optional
  import opened Text
  import opened PageGeometry
  import opened FormatChecker

  // ---------------------------------------------------------------------------
  // Page size

  lemma {:induction false} NonA4PagesExact(pages: seq<Page>, n: nat)
    requires n <= |pages|
    ensures forall k :: 0 <= k < |NonA4Pages(pages, n)| ==>
              1 <= NonA4Pages(pages, n)[k] <= n && !IsA4(pages[NonA4Pages(pages, n)[k] - 1])
    ensures forall p :: 1 <= p <= n && !IsA4(pages[p - 1]) ==> p in NonA4Pages(pages, n)
    ensures forall j, k :: 0 <= j < k < |NonA4Pages(pages, n)| ==> NonA4Pages(pages, n)[j] < NonA4Pages(pages, n)[k]
    decreases n
  {
    if n > 0 {
      NonA4PagesExact(pages, n - 1);
    }
  }

  /**
    The page-size check on a fresh log: exactly one NotA4 message per page
    whose rounded size is not 595 x 842, in ascending page order; those
    pages join the exclusions; nothing else is touched.
   */
  lemma PageSizeExact(s: Session, pages: seq<Page>)
    requires Size !in s.logs
    ensures SizeReport(Get(AfterPageSize(s, pages).logs, Size), pages)
    ensures forall p :: p in AfterPageSize(s, pages).pageErrors <==>
              p in s.pageErrors || (1 <= p <= |pages| && !IsA4(pages[p - 1]))
    ensures forall c :: c != Size ==> Get(AfterPageSize(s, pages).logs, c) == Get(s.logs, c)
  {
    var r := AfterPageSize(s, pages);
    var bad := NonA4Pages(pages, |pages|);
    assert Get(r.logs, Size) == SizeMessages(bad);
    SizeMessagesExact(pages);
    forall p ensures p in r.pageErrors <==> p in s.pageErrors || (1 <= p <= |pages| && !IsA4(pages[p - 1])) {
      assert p in r.pageErrors <==> p in s.pageErrors || p in bad;
      NonA4PageAt(pages, p);
    }
    forall c | c != Size ensures Get(r.logs, c) == Get(s.logs, c) {
      AppendEachOther(s.logs, Size, SizeMessages(bad), c);
    }
  }

  /**
    `ms` is the Size report of `pages`: NotA4 messages only, each naming a
    page that is not A4, every such page named, in strictly ascending order.
   */
  ghost predicate SizeReport(ms: seq<Message>, pages: seq<Page>) {
    && (forall k :: 0 <= k < |ms| ==> ms[k].NotA4? && 1 <= ms[k].page <= |pages| && !IsA4(pages[ms[k].page - 1]))
    && (forall p :: 1 <= p <= |pages| && !IsA4(pages[p - 1]) ==> NotA4(p) in ms)
    && (forall j, k :: 0 <= j < k < |ms| ==> ms[j].NotA4? && ms[k].NotA4? && ms[j].page < ms[k].page)
  }

  /** The NotA4 messages of the whole document: one per non-A4 page, ascending. */
  lemma SizeMessagesExact(pages: seq<Page>)
    ensures SizeReport(SizeMessages(NonA4Pages(pages, |pages|)), pages)
  {
    NonA4PagesExact(pages, |pages|);
    var bad := NonA4Pages(pages, |pages|);
    var ms := SizeMessages(bad);
    forall p | 1 <= p <= |pages| && !IsA4(pages[p - 1])
      ensures NotA4(p) in ms
    {
      assert p in bad;
      var k :| 0 <= k < |bad| && bad[k] == p;
      assert ms[k] == NotA4(p);
    }
  }

  /** `NonA4PagesExact` for one page number. */
  lemma NonA4PageAt(pages: seq<Page>, p: int)
    ensures p in NonA4Pages(pages, |pages|) <==> 1 <= p <= |pages| && !IsA4(pages[p - 1])
  {
    NonA4PagesExact(pages, |pages|);
    var bad := NonA4Pages(pages, |pages|);
    if p in bad {
      var k :| 0 <= k < |bad| && bad[k] == p;
    }
  }

  // ---------------------------------------------------------------------------
  // Margins

  lemma {:induction false} TextMessagesShape(page: nat, hits: seq<Hit>)
    ensures |TextMessages(page, hits)| == |hits|
    ensures forall k :: 0 <= k < |hits| ==> TextMessages(page, hits)[k] == TextBleeds(page, hits[k].side)
    decreases |hits|
  {
    if hits != [] {
      TextMessagesShape(page, hits[..|hits| - 1]);
    }
  }

  lemma {:induction false} ImageMessagesShape(page: nat, hits: seq<Hit>)
    ensures |ImageMessages(page, hits)| == |hits|
    ensures forall k :: 0 <= k < |hits| ==> ImageMessages(page, hits)[k] == ImageBleeds(page)
    decreases |hits|
  {
    if hits != [] {
      ImageMessagesShape(page, hits[..|hits| - 1]);
    }
  }

  /** A Margin message: text naming a side, or a generic image message. */
  predicate IsMarginMessage(m: Message) {
    m.TextBleeds? || m.ImageBleeds?
  }

  /** The number of recorded violations on the first `n` pages. */
  function HitCount(scans: seq<PageScan>, n: nat): nat
    requires n <= |scans|
    decreases n
  {
    if n == 0 then 0 else HitCount(scans, n - 1) + |scans[n - 1].text| + |scans[n - 1].image|
  }

  /** The messages of one page: all name that page, text messages first. */
  lemma PageMessagesShape(i: nat, scan: PageScan)
    ensures |PageMessages(i, scan)| == |scan.text| + |scan.image|
    ensures forall k :: 0 <= k < |PageMessages(i, scan)| ==>
              IsMarginMessage(PageMessages(i, scan)[k]) && PageMessages(i, scan)[k].page == i + 1
    ensures forall j, k :: 0 <= j < k < |PageMessages(i, scan)| && PageMessages(i, scan)[k].TextBleeds? ==>
              PageMessages(i, scan)[j].TextBleeds?
  {
    var texts := TextMessages(i + 1, scan.text);
    var images := ImageMessages(i + 1, scan.image);
    TextMessagesShape(i + 1, scan.text);
    ImageMessagesShape(i + 1, scan.image);
    var all := texts + images;
    forall k | 0 <= k < |all|
      ensures IsMarginMessage(all[k]) && all[k].page == i + 1
      ensures all[k].TextBleeds? <==> k < |texts|
    {
      if k < |texts| {
        assert all[k] == texts[k];
      } else {
        assert all[k] == images[k - |texts|];
      }
    }
  }

  /**
    The Margin messages: one per recorded violation; all name a page among
    the first `n`; pages come in ascending order; on one page, every text
    message comes before every image message.
   */
  lemma {:induction false} MarginMessagesOrdered(scans: seq<PageScan>, n: nat)
    requires n <= |scans|
    ensures |MarginMessages(scans, n)| == HitCount(scans, n)
    ensures MarginOrdered(MarginMessages(scans, n), n)
    decreases n
  {
    if n > 0 {
      MarginMessagesOrdered(scans, n - 1);
      PageMessagesShape(n - 1, scans[n - 1]);
      var prev := MarginMessages(scans, n - 1);
      var here := PageMessages(n - 1, scans[n - 1]);
      assert MarginMessages(scans, n) == prev + here;
      MarginOrderedAppend(prev, here, n);
    }
  }

  /** A page's block of messages (all naming page `n`, text before image) extends an ordered run over the earlier pages. */
  lemma MarginOrderedAppend(prev: seq<Message>, here: seq<Message>, n: nat)
    requires n >= 1 && MarginOrdered(prev, n - 1)
    requires forall k :: 0 <= k < |here| ==> IsMarginMessage(here[k]) && here[k].page == n
    requires forall j, k :: 0 <= j < k < |here| && here[k].TextBleeds? ==> here[j].TextBleeds?
    ensures MarginOrdered(prev + here, n)
  {
    var ms := prev + here;
    forall k | 0 <= k < |ms|
      ensures IsMarginMessage(ms[k]) && 1 <= ms[k].page <= n
    {
      if k < |prev| {
        assert ms[k] == prev[k];
      } else {
        assert ms[k] == here[k - |prev|];
      }
    }
    forall j, k | 0 <= j < k < |ms|
      ensures IsMarginMessage(ms[j]) && IsMarginMessage(ms[k]) && ms[j].page <= ms[k].page
      ensures ms[k].TextBleeds? && ms[j].ImageBleeds? ==> ms[j].page < ms[k].page
    {
      if k < |prev| {
        assert ms[j] == prev[j] && ms[k] == prev[k];
      } else if j < |prev| {
        assert ms[j] == prev[j] && ms[k] == here[k - |prev|];
      } else {
        assert ms[j] == here[j - |prev|] && ms[k] == here[k - |prev|];
      }
    }
  }

  /**
    All Margin messages, each naming a page among the first `n`; pages in
    ascending order; on one page, text messages before image messages.
   */
  ghost predicate MarginOrdered(ms: seq<Message>, n: nat) {
    && (forall k :: 0 <= k < |ms| ==> IsMarginMessage(ms[k]) && 1 <= ms[k].page <= n)
    && (forall j, k :: 0 <= j < k < |ms| ==> IsMarginMessage(ms[j]) && IsMarginMessage(ms[k]) && ms[j].page <= ms[k].page)
    && (forall j, k :: 0 <= j < k < |ms| && ms[k].TextBleeds? && ms[j].ImageBleeds? ==> ms[j].page < ms[k].page)
  }

  /** The failed pages are exactly the pages whose scan raised, in ascending order. */
  lemma {:induction false} FailedPagesExact(scans: seq<PageScan>, n: nat)
    requires n <= |scans|
    ensures forall p :: p in FailedPages(scans, n) <==> 1 <= p <= n && scans[p - 1].failed
    ensures forall j, k :: 0 <= j < k < |FailedPages(scans, n)| ==> FailedPages(scans, n)[j] < FailedPages(scans, n)[k]
    decreases n
  {
    if n > 0 {
      FailedPagesExact(scans, n - 1);
      var prev := FailedPages(scans, n - 1);
      forall k | 0 <= k < |prev|
        ensures prev[k] < n
      {
        assert prev[k] in prev;
      }
    }
  }

  /**
    Every Margin message names a page that was not excluded when the margin
    check started.
   */
  lemma {:induction false} MarginMessagesSkipExcluded(pages: seq<Page>, excluded: set<nat>, o: Offsets, background: real,
                                                      raster: (nat, Rect) -> Sample)
    ensures forall m :: m in MarginMessages(MarginScans(pages, excluded, o, background, raster), |pages|) ==>
              IsMarginMessage(m) && 1 <= m.page <= |pages| && m.page !in excluded
  {
    var scans := MarginScans(pages, excluded, o, background, raster);
    SkipStep(scans, excluded, |pages|);
  }

  lemma {:induction false} SkipStep(scans: seq<PageScan>, excluded: set<nat>, n: nat)
    requires n <= |scans|
    requires forall i :: 0 <= i < |scans| && i + 1 in excluded ==> scans[i] == PageScan([], [], false)
    ensures forall m :: m in MarginMessages(scans, n) ==> IsMarginMessage(m) && 1 <= m.page <= n && m.page !in excluded
    decreases n
  {
    if n > 0 {
      SkipStep(scans, excluded, n - 1);
      TextMessagesShape(n, scans[n - 1].text);
      ImageMessagesShape(n, scans[n - 1].image);
      assert MarginMessages(scans, n) == MarginMessages(scans, n - 1) + TextMessages(n, scans[n - 1].text) + ImageMessages(n, scans[n - 1].image);
    }
  }

  /**
    The margin check: the pages whose scan raised join the exclusions; when
    there are any, the Parsing entry is replaced by ONE message listing them
    (assigned, not appended); apart from Parsing and Margin nothing changes.
   */
  lemma MarginExclusion(s: Session, pages: seq<Page>, o: Offsets, background: real, raster: (nat, Rect) -> Sample)
    ensures forall p :: p in AfterMargin(s, pages, o, background, raster).pageErrors <==>
              p in s.pageErrors || (1 <= p <= |pages| && ScanPage(p - 1, pages[p - 1], o, background, raster).failed)
    ensures var failed := FailedPages(MarginScans(pages, s.pageErrors, o, background, raster), |pages|);
            && (failed != [] ==> Get(AfterMargin(s, pages, o, background, raster).logs, Parsing) == [ParseFailure(failed)])
            && (failed == [] ==> Get(AfterMargin(s, pages, o, background, raster).logs, Parsing) == Get(s.logs, Parsing))
    ensures forall c :: c != Parsing && c != Margin ==> Get(AfterMargin(s, pages, o, background, raster).logs, c) == Get(s.logs, c)
  {
    var scans := MarginScans(pages, s.pageErrors, o, background, raster);
    var failed := FailedPages(scans, |pages|);
    var r := AfterMargin(s, pages, o, background, raster);
    forall p ensures p in r.pageErrors <==> p in s.pageErrors || (1 <= p <= |pages| && ScanPage(p - 1, pages[p - 1], o, background, raster).failed) {
      MarginErrorsAt(s, pages, o, background, raster, p);
    }
    var logs := if failed != [] then s.logs[Parsing := [ParseFailure(failed)]] else s.logs;
    assert r.logs == AppendEach(logs, Margin, MarginMessages(scans, |scans|));
    forall c | c != Margin ensures Get(r.logs, c) == Get(logs, c) {
      AppendEachOther(logs, Margin, MarginMessages(scans, |scans|), c);
    }
  }

  /** One page number at a time: it is excluded after the margin check exactly when it was before or its scan raised. */
  lemma MarginErrorsAt(s: Session, pages: seq<Page>, o: Offsets, background: real, raster: (nat, Rect) -> Sample, p: int)
    ensures p in AfterMargin(s, pages, o, background, raster).pageErrors <==>
              p in s.pageErrors || (1 <= p <= |pages| && ScanPage(p - 1, pages[p - 1], o, background, raster).failed)
  {
    MarginPageErrors(s, pages, o, background, raster, p);
    if 1 <= p <= |pages| {
      MarginScansAt(pages, s.pageErrors, o, background, raster, p - 1);
    }
    FailedOrExcluded(MarginScans(pages, s.pageErrors, o, background, raster), pages, s.pageErrors, o, background, raster, p);
  }

  lemma MarginPageErrors(s: Session, pages: seq<Page>, o: Offsets, background: real, raster: (nat, Rect) -> Sample, p: int)
    ensures var failed := FailedPages(MarginScans(pages, s.pageErrors, o, background, raster), |pages|);
            p in AfterMargin(s, pages, o, background, raster).pageErrors <==> p in s.pageErrors || p in failed
  {
  }

  /** A page number is excluded or failed exactly when it is excluded or its own scan raised. */
  lemma FailedOrExcluded(scans: seq<PageScan>, pages: seq<Page>, excluded: set<nat>, o: Offsets, background: real, raster: (nat, Rect) -> Sample, p: int)
    requires |scans| == |pages|
    requires 1 <= p <= |pages| ==> scans[p - 1] == ScanUnlessExcluded(p - 1, pages[p - 1], excluded, o, background, raster)
    ensures p in excluded || p in FailedPages(scans, |pages|) <==>
              p in excluded || (1 <= p <= |pages| && ScanPage(p - 1, pages[p - 1], o, background, raster).failed)
  {
    FailedPageAt(scans, |pages|, p);
  }

  /** `FailedPagesExact` for one page number. */
  lemma FailedPageAt(scans: seq<PageScan>, n: nat, p: int)
    requires n <= |scans|
    ensures p in FailedPages(scans, n) <==> 1 <= p <= n && scans[p - 1].failed
  {
    FailedPagesExact(scans, n);
  }

  /** Appending to one category leaves the others alone. */
  lemma AppendEachOther(l: Logs, c: Category, ms: seq<Message>, other: Category)
    requires other != c
    ensures Get(AppendEach(l, c, ms), other) == Get(l, other)
  {
  }

  /**
    Every hit of a page's word scan is a word that is not plain text, lies on
    the page and is classified into the hit's side.
   */
  lemma {:induction false} WordHitsClassified(i: nat, words: seq<Word>, o: Offsets, background: real, raster: (nat, Rect) -> Sample)
    ensures forall h :: h in ScanWords(i, words, o, background, raster).text || h in ScanWords(i, words, o, background, raster).image ==>
              Classify(h.box, o) == Some(h.side) && OnPage(h.box) && exists w :: w in words && !IsPlainText(w) && w.box == h.box
    decreases |words|
  {
    if words != [] {
      var init := words[..|words| - 1];
      var last := words[|words| - 1];
      WordHitsClassified(i, init, o, background, raster);
      forall h | h in ScanWords(i, words, o, background, raster).text || h in ScanWords(i, words, o, background, raster).image
        ensures Classify(h.box, o) == Some(h.side) && OnPage(h.box) && exists w :: w in words && !IsPlainText(w) && w.box == h.box
      {
        var prev := ScanWords(i, init, o, background, raster);
        if h in prev.text || h in prev.image {
          var w :| w in init && !IsPlainText(w) && w.box == h.box;
          assert w in words;
        } else {
          assert last in words;
        }
      }
    }
  }

  /** Words drawn in black, or with no colour at all, never produce a hit. */
  lemma {:induction false} PlainWordsIgnored(i: nat, words: seq<Word>, o: Offsets, background: real, raster: (nat, Rect) -> Sample)
    requires forall w :: w in words ==> IsPlainText(w)
    ensures ScanWords(i, words, o, background, raster) == WordScan([], [])
    decreases |words|
  {
    if words != [] {
      assert words[|words| - 1] in words;
      PlainWordsIgnored(i, words[..|words| - 1], o, background, raster);
    }
  }

  /**
    Every image hit is an image classified into the hit's side; once a crop
    raises, no later image of the page is looked at.
   */
  lemma {:induction false} ImageHitsClassified(i: nat, images: seq<Box>, o: Offsets, background: real, raster: (nat, Rect) -> Sample)
    ensures forall h :: h in ScanImages(i, images, o, background, raster).hits ==> h.box in images && Classify(h.box, o) == Some(h.side)
    ensures ScanImages(i, images, o, background, raster).aborted <==>
              exists k :: 0 <= k < |images| && ExamineImage(i, images[k], o, background, raster).ImageAbort?
    decreases |images|
  {
    if images != [] {
      var init := images[..|images| - 1];
      ImageHitsClassified(i, init, o, background, raster);
      if exists k :: 0 <= k < |init| && ExamineImage(i, init[k], o, background, raster).ImageAbort? {
        var k :| 0 <= k < |init| && ExamineImage(i, init[k], o, background, raster).ImageAbort?;
        assert images[k] == init[k];
      }
      forall k | 0 <= k < |images| - 1
        ensures images[k] == init[k]
      {
      }
    }
  }

  /**
    No Margin message of a fresh session names a page that failed the size
    check: those pages are excluded before the margin scan starts.
   */
  lemma NonA4PagesGetNoMarginMessage(pages: seq<Page>, o: Offsets, background: real, raster: (nat, Rect) -> Sample)
    ensures var s1 := AfterPageSize(Session(map[], {}), pages);
            forall m :: m in Get(AfterMargin(s1, pages, o, background, raster).logs, Margin) ==>
              IsMarginMessage(m) && 1 <= m.page <= |pages| && IsA4(pages[m.page - 1])
  {
    var s1 := AfterPageSize(Session(map[], {}), pages);
    PageSizeExact(Session(map[], {}), pages);
    MarginMessagesSkipExcluded(pages, s1.pageErrors, o, background, raster);
    var scans := MarginScans(pages, s1.pageErrors, o, background, raster);
    var failed := FailedPages(scans, |pages|);
    var logs := if failed != [] then s1.logs[Parsing := [ParseFailure(failed)]] else s1.logs;
    assert Get(logs, Margin) == [];
  }

  // ---------------------------------------------------------------------------
  // Page limit

  /** Within the threshold, or for an unlimited paper type, the check does nothing. */
  lemma WithinLimitNoMessage(s: Session, pages: seq<Page>, paperType: string)
    requires PageThreshold(paperType) == Some(Unlimited)
          || (PageThreshold(paperType).Some? && PageThreshold(paperType).value.Pages? && |pages| <= PageThreshold(paperType).value.n)
    ensures AfterPageNum(s, pages, paperType) == StepResult(s, false)
  {
  }

  /**
    The marker search: it raises iff a non-excluded page's text cannot be
    extracted; otherwise the marker is the first (page, line), in
    lexicographic order over the non-excluded pages, whose line contains a
    candidate heading.
   */
  lemma {:induction false} MarkerIsFirst(pages: seq<Page>, excluded: set<nat>, n: nat)
    requires n <= |pages|
    ensures ScanMarkers(pages, excluded, n).raised <==> exists q :: 1 <= q <= n && q !in excluded && pages[q - 1].text.None?
    ensures !ScanMarkers(pages, excluded, n).raised && ScanMarkers(pages, excluded, n).marker.Some? ==>
              var p := ScanMarkers(pages, excluded, n).marker.value.0;
              && 1 <= p <= n && p !in excluded && pages[p - 1].text.Some?
              && PageMarker(p, pages[p - 1].text.value) == ScanMarkers(pages, excluded, n).marker
              && forall q :: 1 <= q < p && q !in excluded ==> PageMarker(q, pages[q - 1].text.value).None?
    ensures !ScanMarkers(pages, excluded, n).raised && ScanMarkers(pages, excluded, n).marker.None? ==>
              forall q :: 1 <= q <= n && q !in excluded ==> PageMarker(q, pages[q - 1].text.value).None?
    decreases n
  {
    if n > 0 {
      MarkerIsFirst(pages, excluded, n - 1);
    }
  }

  /** The marker names a line that contains a candidate heading, and no earlier line of its page does. */
  lemma PageMarkerFirstLine(page: nat, text: string)
    ensures var lines := SplitOn(text, '\n');
            PageMarker(page, text).Some? ==>
              var line := PageMarker(page, text).value.1;
              && PageMarker(page, text).value.0 == page
              && 1 <= line <= |lines| && HasMarker(lines[line - 1])
              && forall k :: 0 <= k < line - 1 ==> !HasMarker(lines[k])
    ensures var lines := SplitOn(text, '\n');
            PageMarker(page, text).None? ==> forall k :: 0 <= k < |lines| ==> !HasMarker(lines[k])
  {
  }

  /**
    Above the threshold: the check raises iff the marker search raises or
    finds nothing; otherwise a PageLimit message appears iff the marker is
    lexicographically after (threshold + 1, 1), and then it is the only
    PageLimit message.
   */
  lemma PageLimitVerdict(s: Session, pages: seq<Page>, paperType: string, limit: nat)
    requires PageThreshold(paperType) == Some(Pages(limit)) && |pages| > limit
    requires PageLimit !in s.logs
    ensures var sc := ScanMarkers(pages, s.pageErrors, |pages|);
            AfterPageNum(s, pages, paperType).raised <==> sc.raised || sc.marker.None?
    ensures var sc := ScanMarkers(pages, s.pageErrors, |pages|);
            var r := AfterPageNum(s, pages, paperType);
            !r.raised ==>
              && (PageLimit in r.session.logs <==> sc.marker.value.0 > limit + 1 || (sc.marker.value.0 == limit + 1 && sc.marker.value.1 >= 2))
              && (PageLimit in r.session.logs ==> r.session.logs[PageLimit] == [ExceedsPageLimit(sc.marker.value.0, sc.marker.value.1)])
              && r.session.pageErrors == s.pageErrors
  {
  }

  // ---------------------------------------------------------------------------
  // Fonts

  /**
    The dominant font is the maximum of the (count, name) pairs: the most
    used name, ties going to the greater name.
   */
  lemma {:induction false} MaxEntryDominant(t: Tally, n: nat)
    requires ValidTally(t) && 1 <= n <= |t.order|
    ensures MaxEntry(t, n).1 in t.counts && MaxEntry(t, n).0 == Count(t, MaxEntry(t, n).1)
    ensures exists k :: 0 <= k < n && t.order[k] == MaxEntry(t, n).1
    ensures forall k :: 0 <= k < n && t.order[k] != MaxEntry(t, n).1 ==> PairLess((Count(t, t.order[k]), t.order[k]), MaxEntry(t, n))
    decreases n
  {
    if n > 1 {
      MaxEntryDominant(t, n - 1);
      var best := MaxEntry(t, n - 1);
      var name := t.order[n - 1];
      var next := (Count(t, name), name);
      if PairLess(best, next) {
        forall k | 0 <= k < n && t.order[k] != name
          ensures PairLess((Count(t, t.order[k]), t.order[k]), next)
        {
          if t.order[k] != best.1 {
            PairLessTransitive((Count(t, t.order[k]), t.order[k]), best, next);
          }
        }
      } else {
        assert best.1 != name by {
          var j :| 0 <= j < n - 1 && t.order[j] == best.1;
        }
        PairLessTotal(best, next);
      }
    }
  }

  lemma PairLessTransitive(a: (nat, string), b: (nat, string), c: (nat, string))
    requires PairLess(a, b) && PairLess(b, c)
    ensures PairLess(a, c)
  {
    if a.0 == b.0 && b.0 == c.0 {
      LexLessTransitive(a.1, b.1, c.1);
    }
  }

  lemma PairLessTotal(a: (nat, string), b: (nat, string))
    requires a.1 != b.1
    ensures PairLess(a, b) || PairLess(b, a)
  {
    LexLessTotal(a.1, b.1);
  }

  /** The number of characters on the first `n` pages whose characters can be read. */
  function CharTotal(pages: seq<Page>, n: nat): nat
    requires n <= |pages|
    decreases n
  {
    if n == 0 then 0 else CharTotal(pages, n - 1) + (if pages[n - 1].chars.Some? then |pages[n - 1].chars.value| else 0)
  }

  /** Raising an existing name's count raises the partial sums that include it by one. */
  lemma {:induction false} SumCountsBumpOld(t: Tally, name: string, n: nat)
    requires ValidTally(t) && name in t.counts && n <= |t.order|
    ensures SumCounts(Bump(t, name), n) == SumCounts(t, n) + (if name in t.order[..n] then 1 else 0)
    decreases n
  {
    if n > 0 {
      SumCountsBumpOld(t, name, n - 1);
      assert t.order[..n] == t.order[..n - 1] + [t.order[n - 1]];
      assert t.order[n - 1] == name ==> name !in t.order[..n - 1];
    }
  }

  /** A new name does not change the partial sums over the old names. */
  lemma {:induction false} SumCountsBumpNew(t: Tally, name: string, n: nat)
    requires ValidTally(t) && name !in t.counts && n <= |t.order|
    ensures SumCounts(Bump(t, name), n) == SumCounts(t, n)
    decreases n
  {
    if n > 0 {
      SumCountsBumpNew(t, name, n - 1);
    }
  }

  lemma SumBump(t: Tally, name: string)
    requires ValidTally(t)
    ensures SumCounts(Bump(t, name), |Bump(t, name).order|) == SumCounts(t, |t.order|) + 1
  {
    if name in t.counts {
      SumCountsBumpOld(t, name, |t.order|);
      assert t.order[..|t.order|] == t.order;
    } else {
      SumCountsBumpNew(t, name, |t.order|);
    }
  }

  lemma {:induction false} SumTallyChars(t: Tally, chars: seq<string>)
    requires ValidTally(t)
    ensures SumCounts(TallyChars(t, chars), |TallyChars(t, chars).order|) == SumCounts(t, |t.order|) + |chars|
    decreases |chars|
  {
    if chars != [] {
      SumTallyChars(t, chars[..|chars| - 1]);
      TallyCharsValid(t, chars[..|chars| - 1]);
      SumBump(TallyChars(t, chars[..|chars| - 1]), chars[|chars| - 1]);
    }
  }

  /** The total of the tally is the number of characters on the readable pages. */
  lemma {:induction false} FontTotalIsCharCount(pages: seq<Page>, n: nat)
    requires n <= |pages|
    ensures SumCounts(FontTally(pages, n), |FontTally(pages, n).order|) == CharTotal(pages, n)
    decreases n
  {
    if n > 0 {
      FontTotalIsCharCount(pages, n - 1);
      FontTallyValid(pages, n - 1);
      if pages[n - 1].chars.Some? {
        SumTallyChars(FontTally(pages, n - 1), pages[n - 1].chars.value);
      }
    }
  }

  lemma {:induction false} TallyCharsKeys(t: Tally, chars: seq<string>)
    ensures TallyChars(t, chars).counts.Keys == t.counts.Keys + (set k | 0 <= k < |chars| :: chars[k])
    decreases |chars|
  {
    if chars != [] {
      var init := chars[..|chars| - 1];
      TallyCharsKeys(t, init);
      assert (set k | 0 <= k < |chars| :: chars[k]) == (set k | 0 <= k < |init| :: init[k]) + {chars[|chars| - 1]};
    }
  }

  lemma TallyEmptyIff(t: Tally)
    requires ValidTally(t)
    ensures t.order == [] <==> t.counts.Keys == {}
  {
    if t.order != [] {
      assert t.order[0] in t.counts;
    }
  }

  /** The tally is empty, so `max()` raises, iff no readable page has a character. */
  lemma {:induction false} FontTallyEmptyIff(pages: seq<Page>, n: nat)
    requires n <= |pages|
    ensures FontTally(pages, n).counts.Keys == {} <==> forall k :: 0 <= k < n ==> pages[k].chars.None? || pages[k].chars.value == []
    decreases n
  {
    if n > 0 {
      FontTallyEmptyIff(pages, n - 1);
      if pages[n - 1].chars.Some? {
        var chars := pages[n - 1].chars.value;
        TallyCharsKeys(FontTally(pages, n - 1), chars);
        if chars != [] {
          assert chars[0] in FontTally(pages, n).counts;
        }
      }
    }
  }

  /**
    The two font verdicts: "Can't find the main font" iff the dominant
    font's share is below 35% (exactly 35% passes), and "Wrong font" iff
    its name ends with none of the allowed names.
   */
  lemma FontVerdictsIff(t: Tally)
    requires t.order != []
    ensures NoMainFont in FontVerdicts(t) <==> 20 * MaxEntry(t, |t.order|).0 < 7 * SumCounts(t, |t.order|)
    ensures WrongFont(MaxEntry(t, |t.order|).1) in FontVerdicts(t) <==> !AllowedFont(MaxEntry(t, |t.order|).1)
    ensures forall m :: m in FontVerdicts(t) ==> m == NoMainFont || m == WrongFont(MaxEntry(t, |t.order|).1)
  {
  }

  /** The font check on a fresh log: it raises iff no readable page has a character; its messages are all Font messages. */
  lemma FontCheck(s: Session, pages: seq<Page>)
    ensures AfterFont(s, pages).raised <==> forall k :: 0 <= k < |pages| ==> pages[k].chars.None? || pages[k].chars.value == []
    ensures forall c :: c != Font ==> Get(AfterFont(s, pages).session.logs, c) == Get(s.logs, c)
    ensures AfterFont(s, pages).session.pageErrors == s.pageErrors
  {
    FontTallyEmptyIff(pages, |pages|);
    FontTallyValid(pages, |pages|);
    TallyEmptyIff(FontTally(pages, |pages|));
  }

  // ---------------------------------------------------------------------------
  // References

  predicate PageHasReferences(p: Page) {
    HasReferencesLine(SplitOn(PageText(p), '\n'))
  }

  /** The counters over pages `from` .. `n - 1`, all of them counted. */
  function CountFrom(pages: seq<Page>, from: nat, n: nat): RefScan
    requires from <= n <= |pages|
    decreases n - from
  {
    if n == from then RefScan(true, 0, 0, 0, 0)
    else
      var prev := CountFrom(pages, from, n - 1);
      var text := PageText(pages[n - 1]);
      var urls := UrlSet(pages[n - 1].hyperlinks);
      RefScan(true, prev.arxivWords + CountOf(Lower(text), "arxiv"), prev.doiUrls + DoiCount(urls),
              prev.arxivUrls + ArxivCount(urls), prev.allUrls + |urls|)
  }

  /** Before the first page with a "References" line nothing is counted. */
  lemma {:induction false} NothingBeforeReferences(pages: seq<Page>, n: nat)
    requires n <= |pages|
    requires forall k :: 0 <= k < n ==> !PageHasReferences(pages[k])
    ensures ScanReferences(pages, n) == RefScan(false, 0, 0, 0, 0)
    decreases n
  {
    if n > 0 {
      NothingBeforeReferences(pages, n - 1);
    }
  }

  /**
    Counting starts on the first page with a "References" line and covers
    every later page, whether or not it has such a line.
   */
  lemma {:induction false} CountingFromFirstReferencesPage(pages: seq<Page>, first: nat, n: nat)
    requires first < n <= |pages|
    requires PageHasReferences(pages[first])
    requires forall k :: 0 <= k < first ==> !PageHasReferences(pages[k])
    ensures ScanReferences(pages, n) == CountFrom(pages, first, n)
    decreases n
  {
    if n == first + 1 {
      NothingBeforeReferences(pages, first);
    } else {
      CountingFromFirstReferencesPage(pages, first, n - 1);
    }
  }

  /** The flag is set iff some page among the first `n` has a "References" line. */
  lemma {:induction false} ReferencesFoundIff(pages: seq<Page>, n: nat)
    requires n <= |pages|
    ensures ScanReferences(pages, n).found <==> exists k :: 0 <= k < n && PageHasReferences(pages[k])
    decreases n
  {
    if n > 0 {
      ReferencesFoundIff(pages, n - 1);
    }
  }

  /** A DOI link is never also counted as an arXiv link, so the two counts never exceed the unique URLs of a page. */
  lemma UrlKindsDisjoint(urls: set<string>)
    ensures DoiCount(urls) + ArxivCount(urls) <= |urls|
  {
    var d := set u | u in urls && IsDoiUrl(u);
    var a := set u | u in urls && IsArxivUrl(u);
    var other := set u | u in urls && !IsDoiUrl(u) && !IsArxivUrl(u);
    assert d * a == {};
    assert urls == d + a + other;
    assert (d + a) * other == {};
    assert |d + a| == |d| + |a|;
    assert |urls| == |d + a| + |other|;
  }

  /** Each of the five warnings appears iff its threshold is crossed, and at most once. */
  lemma BibWarningsIff(r: RefScan)
    ensures FewDois(r.doiUrls) in BibWarnings(r) <==> r.doiUrls < 3
    ensures TooManyArxivLinks(r.arxivUrls, r.allUrls) in BibWarnings(r) <==> 5 * r.arxivUrls > r.allUrls
    ensures FewLinks(r.allUrls) in BibWarnings(r) <==> r.allUrls < 5
    ensures TooManyArxivWords(r.arxivWords) in BibWarnings(r) <==> r.arxivWords > 10
    ensures NoReferences in BibWarnings(r) <==> !r.found
    ensures |BibWarnings(r)| <= 5
  {
  }

  /** The reference check only writes the Bibliography (warning) entry. */
  lemma ReferencesOnlyWarn(s: Session, pages: seq<Page>, nameCheckFlag: Option<bool>, nameCheck: Option<seq<string>>)
    ensures var r := AfterReferences(s, pages, nameCheckFlag, nameCheck);
            forall c :: c != Bibliography ==> Get(r.session.logs, c) == Get(s.logs, c)
    ensures AfterReferences(s, pages, nameCheckFlag, nameCheck).session.pageErrors == s.pageErrors
  {
  }

  /**
    The reference check raises exactly when `args` is unset, or when the name
    check is enabled and raises; a name check that is disabled is never run.
   */
  lemma ReferencesRaise(s: Session, pages: seq<Page>, nameCheckFlag: Option<bool>, nameCheck: Option<seq<string>>)
    ensures AfterReferences(s, pages, nameCheckFlag, nameCheck).raised <==>
              nameCheckFlag.None? || (nameCheckFlag == Some(true) && nameCheck.None?)
    ensures AfterReferences(s, pages, Some(false), nameCheck) == AfterReferences(s, pages, Some(false), None)
  {
  }

  /**
    With the formatter's name-check settings, a paper of the name check whose
    first author's name is empty before or after the correction makes the
    name check raise (the IndexError of reading `[0]` from an empty name).
   */
  lemma EmptyFirstAuthorRaises(u: NameCheck.Unicode, papers: seq<NameCheck.Entry>)
    requires papers != [] && |papers[0].before| == |papers[0].after| > 0
    requires papers[0].before[0] == [] || papers[0].after[0] == []
    ensures NameCheck.Compared(u, NameCheckConfig, papers) == NameCheck.Failed(NameCheck.IndexFailure)
  {
    var e := papers[0];
    var url := NameCheck.UrlOf(e);
    var start := NameCheck.Scan([], false, None, None);
    assert NameCheck.IndexScan(u, NameCheckConfig, e, url, 1, start).failure == Some(NameCheck.IndexFailure);
    NameCheck.IndexFailureStays(u, NameCheckConfig, e, url, 1, |e.before|, start);
    assert NameCheck.PapersScan(u, NameCheckConfig, papers, 1).failure == Some(NameCheck.IndexFailure);
    NameCheck.PapersFailureStays(u, NameCheckConfig, papers, 1, |papers|);
  }

  // ---------------------------------------------------------------------------
  // Aggregation

  /** Errors are the messages of the error categories other than Parsing; warnings those of Bibliography. */
  lemma CountsByCategory(l: Logs)
    ensures ErrorCount(l) == |Get(l, Size)| + |Get(l, Margin)| + |Get(l, Spelling)| + |Get(l, Font)| + |Get(l, PageLimit)|
    ensures WarningCount(l) == |Get(l, Bibliography)|
  {
    var c1 := [Size];
    var c2 := c1 + [Parsing];
    var c3 := c2 + [Margin];
    var c4 := c3 + [Spelling];
    var c5 := c4 + [Font];
    var c6 := c5 + [PageLimit];
    var c7 := c6 + [Bibliography];
    assert c1[..0] == [] && c2[..1] == c1 && c3[..2] == c2 && c4[..3] == c3;
    assert c5[..4] == c4 && c6[..5] == c5 && c7[..6] == c6;
    assert Tallied(l, c1) == (|Get(l, Size)|, 0);
    assert Tallied(l, c2) == Tallied(l, c1);
    assert Tallied(l, c3) == (|Get(l, Size)| + |Get(l, Margin)|, 0);
    assert Tallied(l, c4) == (|Get(l, Size)| + |Get(l, Margin)| + |Get(l, Spelling)|, 0);
    assert Tallied(l, c5) == (|Get(l, Size)| + |Get(l, Margin)| + |Get(l, Spelling)| + |Get(l, Font)|, 0);
    assert c7 == AllCategories;
  }

  /**
    What `format_check` returns when it does not raise: the log, non-empty,
    iff there is at least one error; otherwise nothing. Warnings and
    Parsing messages alone leave the paper correct.
   */
  lemma CheckVerdict(pages: seq<Page>, paperType: string, o: Offsets, background: real, raster: (nat, Rect) -> Sample,
                     nameCheckFlag: Option<bool>, nameCheck: Option<seq<string>>)
    ensures var r := Check(pages, paperType, o, background, raster, nameCheckFlag, nameCheck);
            r.Checked? ==> (r.log != map[] <==> r.errors >= 1)
    ensures var r := Check(pages, paperType, o, background, raster, nameCheckFlag, nameCheck);
            r.Checked? ==> (IsCorrect(r) == Some(true) <==> r.errors == 0)
  {
    var r := Check(pages, paperType, o, background, raster, nameCheckFlag, nameCheck);
    if r.Checked? && r.errors >= 1 {
      CountsByCategory(r.log);
      var c :| c in {Size, Margin, Spelling, Font, PageLimit} && |Get(r.log, c)| > 0;
      assert c in r.log;
    }
  }

  /**
    `format_check` never returns while the module's `args` is unset, which is
    the case under a driver that binds its own `args` instead, nor when the
    enabled name check raises.
   */
  lemma NameCheckFailureRaises(pages: seq<Page>, paperType: string, o: Offsets, background: real,
                               raster: (nat, Rect) -> Sample, nameCheck: Option<seq<string>>)
    ensures Check(pages, paperType, o, background, raster, None, nameCheck) == Raised
    ensures Check(pages, paperType, o, background, raster, Some(true), None) == Raised
  {
  }

  // ---------------------------------------------------------------------------
  // Submission number

  /** "dir/123_Paper.pdf" has submission number "123". */
  lemma SubmissionNumberOfPaperPath(dir: string, id: string, rest: string)
    requires '/' !in id && '_' !in id && '.' !in id && '/' !in rest
    ensures SubmissionNumber(dir + "/" + id + "_" + rest) == id
  {
    var name := id + ['_'] + rest;
    assert '/' !in name;
    assert dir + "/" + id + "_" + rest == dir + ['/'] + name;
    SplitOnConcat(dir, name, '/');
    SplitOnAbsent(name, '/');
    var parts := SplitOn(dir + ['/'] + name, '/');
    assert parts[|parts| - 1] == name;
    SplitOnConcat(id, rest, '_');
    SplitOnAbsent(id, '_');
    assert SplitOn(name, '_')[0] == id;
    ReplaceAllAbsent(id, ".pdf", "");
  }

  /** "dir/123.pdf" has submission number "123": the ".pdf" suffix is removed. */
  lemma SubmissionNumberOfBarePath(dir: string, id: string)
    requires '/' !in id && '_' !in id && '.' !in id
    ensures SubmissionNumber(dir + "/" + id + ".pdf") == id
  {
    var name := id + ".pdf";
    assert '/' !in name && '_' !in name;
    assert dir + "/" + id + ".pdf" == dir + ['/'] + name;
    SplitOnConcat(dir, name, '/');
    SplitOnAbsent(name, '/');
    var parts := SplitOn(dir + ['/'] + name, '/');
    assert parts[|parts| - 1] == name;
    SplitOnAbsent(name, '_');
    ReplaceAllTrailing(id, ".pdf", "");
    assert id + "" == id;
  }
}
