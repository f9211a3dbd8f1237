# aclpubcheck, modelled in Dafny

aclpubcheck checks camera-ready papers for ACL venues. This project models three parts of it.

- **The format checker** (`aclpubcheck/formatchecker.py`). A `Formatter` session runs five checks in order: page size, margins, page limit, fonts and bibliography. It collects messages per category and returns the log when a blocking error was found. `formatchecker_aclpub2.py` decides the paper type and the "correct" verdict.
- **The metadata detectors** (`aclpubcheck/metadatachecker.py`). `_clean_str` cleans the strings. Three detectors compare a paper's metadata with the text of its first page: the author-order search, the title search and the copyright-form checks.
- **The citation-name check** (`aclpubcheck/name_check.py`), in three parts:
  - `extract_names` aligns the author lists of a bibliography before and after correction;
  - `if_equal` compares names;
  - `compare_changes` turns disagreements into warnings.

## Layout

| File | What it holds |
|---|---|
| `text.dfy` | Python string operations as the source uses them: `split`, `strip`, `lower`, `count`, `replace`, `in`, `str(n)`, string order. |
| `page_geometry.dfy` | The A4 test and the margin classification of one box. The visible-overflow crop. What one image or one word contributes. Python's `int()` (truncation) and `round()` (half to even). |
| `format_checker.dfy` | The five checks as pure step functions on a `Session` (the log and the excluded pages). The `Formatter` class implements each check as a method over its own fields, with the source's loops. Each method is proved equal to its step function. |
| `format_properties.dfy` | What the checks promise. |
| `metadata_checker.dfy` | The detectors and the name-collection loop. |
| `name_check.dfy` | `if_equal` and `compare_changes`: pure functions that specify them, plus methods with the source's loops. `extract_names`, with the alignment loop working in place on an array of persons. |
| `name_properties.dfy` | What the name check promises, and what it does in the corner cases. |

### How messages and failures are represented

- Messages are a datatype. `Wording` gives the text the source logs. The one exception is the order of the allowed fonts in the "Wrong font" message (see "Left out").
- The log is a map from category to a list of messages. It behaves like the source's `defaultdict(list)`:
  - `+=` of a list creates the entry;
  - `+=` of one message at a time creates it only when something is appended.
- An exception that escapes `format_check` is the report `Raised`. There are six causes:
  - an unknown paper type;
  - `None > tuple` at line 342, when no marker was found;
  - `max()` of an empty font tally;
  - a page whose text is `None` in `check_page_num`;
  - `args.disable_name_check` read at line 427 while the module's `args` is still `None` (an AttributeError);
  - the name check's `execute` raising: the KeyError of `extract_names`, or the IndexError or UnboundLocalError of `compare_changes`.
- Exceptions that the source catches are modelled on the branch that catches them.
- PDF extraction and rendering are oracles:
  - each page is a record of what pdfplumber reports;
  - `raster(page, rect)` is the mean grey value of a cropped region, or the exception raised while cropping or while rendering.

### Behaviour the model keeps

These follow the code as written.

- Bibliography warnings do not stop a paper from being "correct". `format_check` returns an empty log when no error other than Parsing was found, even if there are warnings.
- `args.disable_name_check` is a `store_false` option, so it *enables* the name check. It is the `nameCheckFlag` parameter here, `None` while `args` is `None`. The name check's result is the `nameCheck` parameter, `None` when `execute` raises; `NameCheck.Execute` gives it for parsed bibliographies.
- `formatchecker_aclpub2.py` imports the format checker with `from formatchecker import *` and binds its own `args` (line 14). The format checker's `args` therefore stays `None` (line 448), and every paper that reaches `check_references` under that driver raises AttributeError (`FormatProperties.NameCheckFailureRaises`).
- The formatter's name-check settings (lines 376-390) compare first and last names separately, without `show_names`. Under them an empty first author's name raises IndexError (`FormatProperties.EmptyFirstAuthorRaises`), but the UnboundLocalError of `show_names` cannot occur.
- The LEFT crop is clipped with the right offset (lines 189-190).
- A word whose crop or rendering raises is filed in the image list and reported as an image.
- `first_author_id` is shared between papers and between authors. The author whose last name is reported is compared with the id of the last first-name mismatch (see `NameProperties.StaleFirstIdHidesLastName`). Until some first-name mismatch has set it, reading it raises (see `NameProperties.LastBeforeFirstFails`).

## Model

| member | source | states |
|---|---|---|
| PageGeometry.Trunc | aclpubcheck/formatchecker.py:171-175 | `int(x)` truncates toward zero: below or at x for x >= 0, above or at x for negative x, less than one away. |
| PageGeometry.RoundHalfEven | aclpubcheck/formatchecker.py:149 | `round(x)` is within a half of x, and an exact half goes to the even neighbour. |
| PageGeometry.A4Range | aclpubcheck/formatchecker.py:149 | A page passes the size test iff 594.5 < width < 595.5 and 841.5 <= height <= 842.5 (half-to-even rounding makes the two ranges differ). |
| PageGeometry.Classify | aclpubcheck/formatchecker.py:171-176 | TOP iff the top band test holds. LEFT iff the top test fails and the left test holds. RIGHT iff both fail and the right test holds. No side iff all three fail. |
| PageGeometry.InsideMarginsNeverClassified | aclpubcheck/formatchecker.py:171-176 | A box clear of all three bands is never a violation. |
| PageGeometry.VisibleOverflow | aclpubcheck/formatchecker.py:182-198 | The crop lies on the page and inside the truncated box. For RIGHT, LEFT and TOP it also lies in the margin band. |
| PageGeometry.Candidate | aclpubcheck/formatchecker.py:178-202 | A crop is sampled iff the box is classified and its overflow is more than one point wide and high. |
| PageGeometry.ExamineImage | aclpubcheck/formatchecker.py:169-213 | An image is recorded iff its crop succeeds and renders differently from the background, or rendering raises. A crop that raises ends the page. |
| PageGeometry.ExamineWord | aclpubcheck/formatchecker.py:216-268 | Black or colourless words are skipped. A text hit needs the on-page test, a candidate crop and a visible mean. A raising sample sends the word to the image list. |
| Text.SplitOn | aclpubcheck/formatchecker.py:332 | `split('\n')` gives at least one piece. No piece contains the separator or characters not in the string. |
| Text.JoinSplitOn | aclpubcheck/formatchecker.py:409 | Joining the pieces of `split(sep)` with `sep` gives the page text back. |
| Text.Strip | aclpubcheck/metadatachecker.py:27 | `strip()` gives `s[i..j]`, where everything before `i` and from `j` on is white space, and the result has no white space at either end. So exactly the outer white space is removed. |
| FormatChecker.PageThreshold | aclpubcheck/formatchecker.py:319-320 | "short" gives 5 pages, "long" 9, "other" no limit, looked up lower-cased. Any other type is a KeyError. |
| FormatChecker.FirstMarkerLine | aclpubcheck/formatchecker.py:333-335 | The first line that contains a candidate heading: it contains one and no earlier line does. None iff no line does. |
| FormatChecker.Noun | aclpubcheck/formatchecker.py:110-115 | The singular iff the count is one; otherwise the plural in "s". |
| FormatChecker.DriverPaperType | aclpubcheck/formatchecker_aclpub2.py:53-60 | A declared type is kept. "auto" becomes "short" when the attribute mentions it (short wins), else "long" when mentioned, else stays "auto". |
| FormatChecker.IsCorrect | aclpubcheck/formatchecker_aclpub2.py:65-71 | A paper is correct iff `format_check` returned an empty log. An exception gives no verdict. |
| FormatChecker.SubmissionNumber | aclpubcheck/formatchecker.py:72 | The number contains neither '/' nor '_'. |
| FormatChecker.Bump | aclpubcheck/formatchecker.py:362 | `fonts[name] += 1` raises that name's count by one, adds it to the keys and leaves every other count alone. |
| FormatChecker.HitMessagesAgree | aclpubcheck/formatchecker.py:278-306 | Messages logged by page from the `pages_text`/`pages_image` maps are those of the page scans, in page order. |
| FormatChecker.AbortedStaysAborted | aclpubcheck/formatchecker.py:206 | Once a crop raises, the rest of the page's images add nothing. |
| FormatChecker.Formatter.constructor | aclpubcheck/formatchecker.py:51-62 | Right, left and top offsets 4.5, 2 and 1; background 255; an empty log and no excluded pages. |
| FormatChecker.Formatter.FormatCheck | aclpubcheck/formatchecker.py:65-139 | Sets the number and the document, resets the log, runs the five checks in order. Returns what `Check` specifies: the log iff there is a blocking error, with the counts, or `Raised`. |
| FormatChecker.Formatter.Finish | aclpubcheck/formatchecker.py:95-139 | The counts of the finished log, and the log itself only when it holds a blocking error (`Verdict`). |
| FormatChecker.Formatter.CheckPageSize | aclpubcheck/formatchecker.py:143-154 | The new log and exclusions are `AfterPageSize` of the old ones (see `FormatProperties.PageSizeExact`). |
| FormatChecker.Formatter.ScanImagesOf | aclpubcheck/formatchecker.py:169-213 | The image loop gives the hits and the abort flag that `ScanImages` specifies. |
| FormatChecker.Formatter.ScanWordsOf | aclpubcheck/formatchecker.py:216-268 | The word loop gives the text and image-list hits that `ScanWords` specifies. |
| FormatChecker.Formatter.ScanPageOf | aclpubcheck/formatchecker.py:166-272 | The guarded page body gives the page's scan. An aborted image loop fails the page and keeps the image hits already recorded. |
| FormatChecker.Formatter.ScanMargins | aclpubcheck/formatchecker.py:160-272 | `perror` lists the failed pages. The messages read back from the hit maps are those of the scans of the non-excluded pages. |
| FormatChecker.Formatter.ScanMarginPage | aclpubcheck/formatchecker.py:163-272 | One turn of the page loop keeps `perror` and the hit maps equal to those of the pages so far. |
| FormatChecker.Formatter.LogTextHits | aclpubcheck/formatchecker.py:282-299 | One text message per text hit, naming its side, appended to Margin. |
| FormatChecker.Formatter.LogImageHits | aclpubcheck/formatchecker.py:302-304 | One image message per image-list hit, appended to Margin. |
| FormatChecker.Formatter.LogPageHits | aclpubcheck/formatchecker.py:282-304 | A page's text messages, then its image messages. |
| FormatChecker.Formatter.LogPageOf | aclpubcheck/formatchecker.py:279-306 | A page with no entry in either map adds nothing. Otherwise its messages follow the earlier pages'. |
| FormatChecker.Formatter.LogMarginHits | aclpubcheck/formatchecker.py:278-306 | Margin gains the messages of every page with hits, in ascending page order. |
| FormatChecker.Formatter.ExcludeFailed | aclpubcheck/formatchecker.py:274-276 | With failures, those pages are excluded and Parsing is replaced by one message listing them. Without failures nothing changes. |
| FormatChecker.Formatter.CheckPageMargin | aclpubcheck/formatchecker.py:157-310 | The new log and exclusions are `AfterMargin` of the old ones (see `FormatProperties.MarginExclusion`). |
| FormatChecker.Formatter.CheckPageNum | aclpubcheck/formatchecker.py:313-347 | Raises and logs as `AfterPageNum` specifies (see `FormatProperties.PageLimitVerdict`). |
| FormatChecker.Formatter.DominantFont | aclpubcheck/formatchecker.py:366 | The loop computes the tuple maximum of (count, name) (see `FormatProperties.MaxEntryDominant`). |
| FormatChecker.Formatter.SumOfCounts | aclpubcheck/formatchecker.py:367 | The loop computes the sum of the counts. |
| FormatChecker.Formatter.TallyPage | aclpubcheck/formatchecker.py:361-362 | Counting one page's characters by font name is `TallyChars`. |
| FormatChecker.Formatter.TallyPageOf | aclpubcheck/formatchecker.py:359-364 | A readable page is tallied. An unreadable page adds a "Can't parse page" Font message instead. |
| FormatChecker.Formatter.TallyFonts | aclpubcheck/formatchecker.py:358-364 | The tally over all pages, and one Font message per unreadable page, in page order. |
| FormatChecker.Formatter.CheckFont | aclpubcheck/formatchecker.py:350-374 | Raises and logs as `AfterFont` specifies (see `FormatProperties.FontCheck`). |
| FormatChecker.Formatter.CountUrls | aclpubcheck/formatchecker.py:416-423 | Over the unique links: the DOI links, the arXiv links that are not DOI links, and all of them. |
| FormatChecker.Formatter.FindReferencesLine | aclpubcheck/formatchecker.py:410-413 | True iff some line contains "References". |
| FormatChecker.Formatter.ReadPageText | aclpubcheck/formatchecker.py:403-407 | The page text, or "" with a Bibliography message when extraction raises. |
| FormatChecker.Formatter.ScanReferencePage | aclpubcheck/formatchecker.py:402-423 | One page of the reference scan, as `ScanReferences` specifies. |
| FormatChecker.Formatter.ScanReferencePages | aclpubcheck/formatchecker.py:402-423 | The flag and the four counters over all pages, and one Bibliography message per unreadable page. |
| FormatChecker.Formatter.LogWarning | aclpubcheck/formatchecker.py:432-433 | A heuristic's warning is appended iff its condition holds. |
| FormatChecker.Formatter.LogBibWarnings | aclpubcheck/formatchecker.py:432-445 | The five heuristics' warnings are appended in order (see `FormatProperties.BibWarningsIff`). |
| FormatChecker.Formatter.CheckReferences | aclpubcheck/formatchecker.py:393-445 | Raises, and leaves the log, as `AfterReferences` specifies: unreadable pages first. Then it raises if `args` is unset, or if the name check is enabled and raises. Otherwise the name-check output (when enabled) is appended, then the heuristics. |
| FormatChecker.Formatter.CountFindings | aclpubcheck/formatchecker.py:95-106 | The counting loop gives the blocking errors and the warnings (see `FormatProperties.CountsByCategory`). |
| FormatProperties.NonA4PagesExact | aclpubcheck/formatchecker.py:146-150 | The collected pages are exactly the non-A4 pages, strictly ascending. |
| FormatProperties.SizeMessagesExact | aclpubcheck/formatchecker.py:151-153 | One "not A4" message per non-A4 page, in page order, and no other. |
| FormatProperties.NonA4PageAt | aclpubcheck/formatchecker.py:147-150 | A page number is collected iff it is in range and its page is not A4. |
| FormatProperties.PageSizeExact | aclpubcheck/formatchecker.py:143-154 | Size holds one message per non-A4 page, in order. A page is excluded afterwards iff it was before or is not A4. Other categories are unchanged. |
| FormatProperties.TextMessagesShape | aclpubcheck/formatchecker.py:282-296 | One text message per hit, naming the page and the hit's side. |
| FormatProperties.ImageMessagesShape | aclpubcheck/formatchecker.py:302-304 | One image message per image-list hit, naming the page. |
| FormatProperties.PageMessagesShape | aclpubcheck/formatchecker.py:282-304 | A page's messages all name it, and its text messages come before its image messages. |
| FormatProperties.MarginMessagesOrdered | aclpubcheck/formatchecker.py:278-306 | One Margin message per hit. Ascending by page, and within a page text before image. |
| FormatProperties.FailedPagesExact | aclpubcheck/formatchecker.py:270-272 | `perror` holds exactly the pages whose scan raised, strictly ascending. |
| FormatProperties.MarginMessagesSkipExcluded | aclpubcheck/formatchecker.py:163-165 | No Margin message names a page that was excluded before the margin check. |
| FormatProperties.MarginErrorsAt | aclpubcheck/formatchecker.py:274-275 | A page is excluded after the margin check iff it was before or its own scan raised. |
| FormatProperties.MarginExclusion | aclpubcheck/formatchecker.py:157-310 | The exclusions as above. Parsing becomes one message listing the failed pages, or is unchanged. Only Parsing and Margin change. |
| FormatProperties.WordHitsClassified | aclpubcheck/formatchecker.py:216-268 | Every word hit comes from a coloured word on the page whose box is classified into the recorded side. |
| FormatProperties.PlainWordsIgnored | aclpubcheck/formatchecker.py:220-224 | Words in black or without colour never give a hit. |
| FormatProperties.ImageHitsClassified | aclpubcheck/formatchecker.py:169-213 | Every image hit is one of the page's images, classified into the recorded side. The loop aborts iff some image's crop raises. |
| FormatProperties.NonA4PagesGetNoMarginMessage | aclpubcheck/formatchecker.py:154-165 | After the size check, Margin messages only name A4 pages of the document. |
| FormatProperties.WithinLimitNoMessage | aclpubcheck/formatchecker.py:326-327 | Within the threshold, or with no limit, the page-limit check changes nothing and does not raise. |
| FormatProperties.MarkerIsFirst | aclpubcheck/formatchecker.py:329-335 | The scan raises iff a non-excluded page has no text. Otherwise the marker is the first marker line of the first non-excluded page that has one, or None when there is none. |
| FormatProperties.PageMarkerFirstLine | aclpubcheck/formatchecker.py:332-335 | A page's marker is its first line that contains a candidate heading, 1-based. |
| FormatProperties.PageLimitVerdict | aclpubcheck/formatchecker.py:329-347 | Over the limit, the check raises iff a page has no text or no marker exists. Otherwise PageLimit gets one message iff the marker is past the first line of the page after the limit. |
| FormatProperties.MaxEntryDominant | aclpubcheck/formatchecker.py:366 | The maximum is a tallied font with its count, and every other font is smaller in (count, name) order. |
| FormatProperties.FontTotalIsCharCount | aclpubcheck/formatchecker.py:358-367 | The sum of the tally is the number of characters on the readable pages. |
| FormatProperties.TallyCharsKeys | aclpubcheck/formatchecker.py:361-362 | The tallied fonts are the earlier ones plus those of the page's characters. |
| FormatProperties.FontTallyEmptyIff | aclpubcheck/formatchecker.py:358-366 | The tally is empty, so `max()` raises, iff no readable page has a character. |
| FormatProperties.FontVerdictsIff | aclpubcheck/formatchecker.py:370-374 | "Can't find the main font" iff the top font has less than 35% of the characters. "Wrong font" iff its name ends in none of the three allowed fonts. Nothing else. |
| FormatProperties.FontCheck | aclpubcheck/formatchecker.py:350-374 | Raises iff no readable page has a character. Only Font changes, and the exclusions are kept. |
| FormatProperties.NothingBeforeReferences | aclpubcheck/formatchecker.py:409-415 | Before the first page with a "References" line nothing is counted. |
| FormatProperties.CountingFromFirstReferencesPage | aclpubcheck/formatchecker.py:409-423 | From the first page with a "References" line on, every page is counted. |
| FormatProperties.ReferencesFoundIff | aclpubcheck/formatchecker.py:409-413 | The flag is set iff some page has a "References" line. |
| FormatProperties.UrlKindsDisjoint | aclpubcheck/formatchecker.py:418-423 | DOI and arXiv counts together never exceed the unique links. |
| FormatProperties.BibWarningsIff | aclpubcheck/formatchecker.py:432-445 | Each of the five warnings appears iff its threshold is crossed (fewer than 3 DOIs, arXiv above 20% of links, fewer than 5 links, more than 10 "arxiv" words, no References). At most five. |
| FormatProperties.ReferencesOnlyWarn | aclpubcheck/formatchecker.py:393-445 | The reference check only writes Bibliography and never excludes pages. |
| FormatProperties.ReferencesRaise | aclpubcheck/formatchecker.py:427-430 | The reference check raises iff `args` is unset, or the name check is enabled and raises. A disabled name check is never consulted. |
| FormatProperties.EmptyFirstAuthorRaises | aclpubcheck/formatchecker.py:376-390 | Under the formatter's name-check settings, an empty first author's name in the first paper makes `compare_changes` raise IndexError. |
| FormatProperties.CountsByCategory | aclpubcheck/formatchecker.py:95-106 | Errors are the messages of every error category except Parsing. Warnings are the Bibliography messages. |
| FormatProperties.CheckVerdict | aclpubcheck/formatchecker.py:95-139 | When the check returns, the log is non-empty iff there is at least one blocking error, and the paper is correct iff there are none. |
| FormatProperties.NameCheckFailureRaises | aclpubcheck/formatchecker.py:427-430 | With `args` unset, or with an enabled name check that raises, `format_check` raises. |
| FormatProperties.SubmissionNumberOfPaperPath | aclpubcheck/formatchecker.py:72 | "dir/123_Paper.pdf" gives "123". |
| FormatProperties.SubmissionNumberOfBarePath | aclpubcheck/formatchecker.py:72 | "dir/123.pdf" gives "123". |
| MetadataChecker.Uncurl | aclpubcheck/metadatachecker.py:21-24 | Curly quotes and long dashes are replaced one for one, nothing curly is left, and straight text is unchanged. |
| MetadataChecker.CleanStr | aclpubcheck/metadatachecker.py:17-34 | A missing value is "". Otherwise the result is the uncurled value with exactly its outer white space removed. It has no curly characters and no white space at either end. |
| MetadataChecker.SignatureProblem | aclpubcheck/metadatachecker.py:77-84 | No problem iff the signature is set, is not "NA" and has two words. A missing signature gives the "missing" message. Exactly "NA" gives the "License to Publish" message. Any other failing signature gives the "does not appear to be a full name" message quoting it. |
| MetadataChecker.OrgNameProblem | aclpubcheck/metadatachecker.py:85-89 | No problem iff the name is set and has at least 5 characters or is "IBM". A missing name gives the "missing" message. A present name that fails gives the "does not appear to be a full name. " message quoting it, trailing space included. |
| MetadataChecker.OrgAddressProblem | aclpubcheck/metadatachecker.py:90-95 | No problem iff the address is set and has two words. A missing address gives the "missing" message. A present address that fails gives the "does not appear to be a complete physical address." message, quoting the address with each newline turned into a space. |
| MetadataChecker.TwoWordsAreLong | aclpubcheck/metadatachecker.py:82 | Two words imply three characters, so the length test of lines 82 and 92 never decides. |
| MetadataChecker.CopyrightProblems | aclpubcheck/metadatachecker.py:76-95 | One COPYRIGHT problem per failing field and no other: the signature's first, the organisation name's right after it, the address's last (`ListedInOrder`). None iff all three fields pass. A missing signature is reported first and a missing address last. |
| MetadataChecker.TitleSearchFromIff | aclpubcheck/metadatachecker.py:68-71 | The regex search succeeds iff the title's characters are spelled out in the text (ignoring ASCII case) with only white space between them. |
| MetadataChecker.TitleFoundIff | aclpubcheck/metadatachecker.py:65-73 | The title is found iff its significant characters are empty or spelled out in the text in this way. |
| MetadataChecker.TitleProblems | aclpubcheck/metadatachecker.py:65-73 | At most one TITLE problem, present iff the search fails, showing both strings. |
| MetadataChecker.FirstOccurrence | aclpubcheck/metadatachecker.py:41 | The leftmost occurrence at or after a position, or none. |
| MetadataChecker.NamesFromIff | aclpubcheck/metadatachecker.py:41 | The lazy search from a position succeeds iff the names occur in order, without overlapping, starting there or later. |
| MetadataChecker.AuthorsFoundIff | aclpubcheck/metadatachecker.py:37-42 | The authors are found iff the names occur in order without overlapping. No names always match. |
| MetadataChecker.AuthorProblems | aclpubcheck/metadatachecker.py:37-62 | At most one problem, present iff the names are not found. Its kind depends on the loose match, and without a loose match the whole text is shown. |
| MetadataChecker.CollectNames | aclpubcheck/metadatachecker.py:141-146 | The loop collects the words of authors 1 to 24, First, Middle and Last in turn. A missing column is a KeyError. |
| MetadataChecker.CollectAuthor | aclpubcheck/metadatachecker.py:143-146 | One author's three parts in order. An empty cleaned cell adds no words. |
| MetadataChecker.MissingColumnFails | aclpubcheck/metadatachecker.py:144 | A missing column of any author up to n makes the whole collection fail. |
| MetadataChecker.NamesIgnoreLaterAuthors | aclpubcheck/metadatachecker.py:142-146 | Only the columns of authors 1 to n are read. |
| MetadataChecker.TwentyFifthAuthorIgnored | aclpubcheck/metadatachecker.py:142 | The 25th author's columns never change the names. |
| MetadataChecker.ColumnInjective | aclpubcheck/metadatachecker.py:144 | Different authors have different column names. |
| MetadataChecker.RowProblems | aclpubcheck/metadatachecker.py:138-153 | One row yields at most five problems, sorted by kind: authors, then title, then copyright. There is an author problem iff the names are not found in the first 500 characters, a TITLE problem iff the title search fails there, and a COPYRIGHT problem iff a copyright field fails. |
| NameCheck.DropNonWord | aclpubcheck/name_check.py:130-131 | Only word characters are left, and never more characters than before. |
| NameCheck.WordCharsKept | aclpubcheck/name_check.py:130-131 | A string of word characters only is left unchanged. |
| NameCheck.DropNonWordAppend | aclpubcheck/name_check.py:130-131 | Removing non-word characters works piece by piece over a concatenation. |
| NameCheck.SameNameEquivalence | aclpubcheck/name_check.py:122-135 | `if_equal` is reflexive, symmetric and transitive. |
| NameCheck.CaseIgnored | aclpubcheck/name_check.py:127-128 | Names that differ only in ASCII case are equal. |
| NameCheck.NonWordIgnored | aclpubcheck/name_check.py:130-131 | Inserting a non-word character anywhere does not change the verdict. |
| NameCheck.Capitals | aclpubcheck/name_check.py:190-193 | Only the capital letters are kept. |
| NameCheck.CapitalsKept | aclpubcheck/name_check.py:190-193 | A string of capitals only is left unchanged. |
| NameCheck.CapitalsAppend | aclpubcheck/name_check.py:190-193 | Keeping the capitals works piece by piece over a concatenation. |
| NameCheck.CapitalsOfLower | aclpubcheck/name_check.py:190-193 | A string without capitals gives "". |
| NameCheck.FirstNamesCompared | aclpubcheck/name_check.py:188-196 | With initials on and either name starting "X.", only capitals are compared. Otherwise the names themselves are. |
| NameCheck.InitialMatchesFirstName | aclpubcheck/name_check.py:188-197 | With initials on, "J." matches "John". |
| NameCheck.Flag | aclpubcheck/name_check.py:171-178 | Flagging a paper marks it warned and keeps the stored id and the failure. |
| NameCheck.FlagLines | aclpubcheck/name_check.py:171-178 | The first flag appends the "might have incorrect author names" line and the url line. An already flagged paper is left as it is, so flagging twice is flagging once. |
| NameCheck.PapersFailureStays | aclpubcheck/name_check.py:142-238 | Once an exception is raised, no later paper changes the outcome. |
| NameCheck.CompareAuthor | aclpubcheck/name_check.py:165-232 | The per-author body computes `IndexStep`, including the IndexError and UnboundLocalError it can raise. |
| NameCheck.ComparePaper | aclpubcheck/name_check.py:142-236 | One paper's sentences, warned flag, `first_author_id` and failure, as `PaperScan` specifies. |
| NameCheck.CompareChanges | aclpubcheck/name_check.py:137-238 | The warnings or the exception, as `Compared` specifies (see `NameProperties.OneWarningPerFlaggedPaper`). |
| NameCheck.FullName | aclpubcheck/name_check.py:87-90 | The length is that of the first, middle and last names together. |
| NameCheck.FullNameParts | aclpubcheck/name_check.py:87-90 | The full name is the first names, then the middle names, then the last names. |
| NameCheck.MapLatex | aclpubcheck/name_check.py:95-96 | `latex_to_text` applied to each part, giving a new list position by position. |
| NameCheck.AlignScan | aclpubcheck/name_check.py:80-103 | The loop keeps the person count. It yields one new name per new author and one old name per author of the shorter list, and `additional` indexes an old name. |
| NameCheck.AlignAuthor | aclpubcheck/name_check.py:81-103 | One pass of the loop, in place on the old person array. |
| NameCheck.AlignAuthors | aclpubcheck/name_check.py:72-110 | The array holds the repaired persons, and the two lists are `Aligned`. |
| NameCheck.MakeEntries | aclpubcheck/name_check.py:111-118 | One entry per chosen paper. |
| NameCheck.ExtractPaper | aclpubcheck/name_check.py:72-118 | One key: KeyError, skipped (no authors in the old entry), or its entry. |
| NameCheck.ExtractNames | aclpubcheck/name_check.py:71-120 | `extract_names` over the keys in file order, as `Extract` specifies (see `NameProperties.ExtractedEntries`). |
| NameCheck.SelectionFailureStays | aclpubcheck/name_check.py:74-76 | A KeyError ends the extraction. |
| NameProperties.LengthMismatch | aclpubcheck/name_check.py:154-162 | Different author counts give the two count sentences, plus the url sentence iff there is a url, whatever the names and options. |
| NameProperties.WarnOnce | aclpubcheck/name_check.py:163-232 | With equal counts a paper says "might have incorrect author names" at most once. |
| NameProperties.IndexStepShape | aclpubcheck/name_check.py:165-232 | An agreeing author changes nothing, and a disagreeing one flags the paper or raises. |
| NameProperties.AgreeingAuthors | aclpubcheck/name_check.py:165-232 | Authors that all agree leave the state as it was. |
| NameProperties.DisagreeingAuthor | aclpubcheck/name_check.py:165-232 | Any disagreeing author flags the paper or raises. |
| NameProperties.PaperCleanIff | aclpubcheck/name_check.py:142-236 | A paper contributes nothing and raises nothing iff its counts match and all its authors agree. |
| NameProperties.WholeNameNeverFails | aclpubcheck/name_check.py:167-184 | The whole-name mode never raises. |
| NameProperties.NoNameFailureWithoutShowNames | aclpubcheck/name_check.py:206-226 | Without `show_names`, `first_author_id` is never read, so no UnboundLocalError. |
| NameProperties.LastBeforeFirstFails | aclpubcheck/name_check.py:211-226 | With `show_names`, a last-name mismatch before any first-name mismatch raises UnboundLocalError. |
| NameProperties.FirstPaperLastBeforeFirstFails | aclpubcheck/name_check.py:137-238 | So `compare_changes` raises instead of returning warnings. |
| NameProperties.StaleFirstIdHidesLastName | aclpubcheck/name_check.py:211-232 | When the shared id equals the author index, a last-name mismatch flags the paper but its "author #i" sentence is omitted. |
| NameProperties.Flagged | aclpubcheck/name_check.py:234-236 | The number of unclean papers among the first n is at most n. |
| NameProperties.WarningPerFlaggedPaper | aclpubcheck/name_check.py:234-236 | Without an exception there is one warning per paper that is not clean. |
| NameProperties.CleanPapersNeverFail | aclpubcheck/name_check.py:142-238 | Clean papers never raise. |
| NameProperties.OneWarningPerFlaggedPaper | aclpubcheck/name_check.py:137-238 | The warnings number the unclean papers, and all-clean papers give no warning. |
| NameProperties.WarningsOfUncleanPapers | aclpubcheck/name_check.py:137-236 | Without an exception, the warnings so far are those of the unclean papers so far. |
| NameProperties.PaperWarning | aclpubcheck/name_check.py:234-236 | A paper adds nothing iff it is clean. Otherwise it adds its sentences joined by spaces, scanned with the `first_author_id` the earlier papers left. |
| NameProperties.WarningsFollowPapers | aclpubcheck/name_check.py:137-238 | When `compare_changes` returns, its list is the warnings of the unclean papers in `name_list` order, one each: the k-th warning is the joined sentences of the k-th unclean paper. |
| NameProperties.ExecuteOutcome | aclpubcheck/name_check.py:240-245 | `execute` raises iff some key makes `extract_names` raise, or `compare_changes` raises on the collected papers. Otherwise it returns the warnings of the unclean papers, in order. |
| NameProperties.AlignStepShape | aclpubcheck/name_check.py:81-98 | One pass repairs only person i. Its name is appended to the old list, and `additional` moves to i iff the repaired person's last names are the new whole name. |
| NameProperties.AlignKeys | aclpubcheck/name_check.py:83-85 | After the loop, each old person up to the shorter length is replaced iff its dot-free first names spell the new whole name. The others are untouched. |
| NameProperties.AlignBefore | aclpubcheck/name_check.py:87-97 | The old list holds the repaired persons' names. |
| NameProperties.AlignAfter | aclpubcheck/name_check.py:89-103 | The new list holds the new names: LaTeX-converted with an old counterpart, first plus last names without. |
| NameProperties.AlignAdditional | aclpubcheck/name_check.py:93-94 | `additional` is the last index at which the last names hold the whole new name, or 0. |
| NameProperties.AlignedLengths | aclpubcheck/name_check.py:97-110 | The new list has one name per new author. The old list has one per author of the shorter list, plus one when a name was inserted. |
| NameProperties.FixUpContents | aclpubcheck/name_check.py:106-110 | The split name is copied from the new list and the next new name is inserted after it. The other old names keep their order. |
| NameProperties.OneShortRealigned | aclpubcheck/name_check.py:105-110 | When the old list merged two authors, the insertion makes both lists the same length. |
| NameProperties.FirstIndexIgnored | aclpubcheck/name_check.py:106 | A match at index 0 is ignored, because `if additional:` is false for 0. |
| NameProperties.SelectionFailsIff | aclpubcheck/name_check.py:74-115 | Selection fails iff some key is missing from the old bibliography, or has authors there while its new entry lacks authors or a title. |
| NameProperties.ExtractFailsIff | aclpubcheck/name_check.py:71-76 | `extract_names` raises KeyError iff some key does. |
| NameProperties.SelectedKept | aclpubcheck/name_check.py:71-74 | The chosen papers are exactly the keys whose old entry has authors, in file order. |
| NameProperties.ExtractedEntries | aclpubcheck/name_check.py:111-118 | Each entry carries its key, the url field, one new name per new author and the LaTeX-converted title. |

## Left out

- Opening the PDF (pdfplumber) is not modelled. A page is a record of what extraction reports:
  - its width and height;
  - its images and its coloured words with their boxes;
  - its text and font names, or the failure to read them;
  - its links.
- Cropping and rendering are the `raster` parameter. The model does not capture `to_image`, `draw_rect`, saving the PNG files, or the `print`, `json.dump` and summary output.
- The `hyperlinks` property raising, and `extract_text` returning `None` in `check_references`, are not modelled. In `check_page_num` a page without text raises, as `None.split` does.
- The thresholds with floating point (`0.35`, `0.2 * n`) are compared by cross-multiplication, which is exact for the integer counts involved.
- The margin-logging loop runs over the page indices in order and skips pages without an entry. This is the same sequence as the source's sorted union of the dictionary keys.
- `error_count` in `compare_changes` is never read, so it is not modelled.
- The name check's I/O is not modelled: `execute_curl`, `apply_rebiber`, `parse_file` and the temporary files. The bibliographies are given as parsed entries.
  - `latex_to_text`, `unidecode` and `\w` on non-ASCII characters are parameters (`latex`, `Unicode`).
  - In `check_references`, what `execute` returns, or its failure, is a parameter.
- `check_metadata` is not modelled: reading the CSV, walking the PDF directory, the Google Sheets calls and the grouped printing. Only the name-collection loop and the per-row detectors are.
- Lower-casing and IGNORECASE are modelled for ASCII letters only.
- `\s` is Python's `str.isspace` over the common white-space characters.
- MetadataChecker.CleanStr: the NFKC loop of lines 28-33 (removing spaces before combining marks, then normalising) is not modelled. The result is stated only after the quote, dash and strip steps.
- MetadataChecker.AuthorProblems: the names are matched as literal text, whereas the source joins them into a regular expression without escaping. The loose case-, punctuation- and accent-insensitive match is a parameter, so the span it reports is not modelled.
- MetadataChecker.RowProblems: the author problem's kind and text, the copyright messages and the title message are stated by each detector's own contract, not repeated here.
- FormatChecker.SubmissionNumber: its own contract states only that the number has no '/' or '_'. The two `SubmissionNumberOf...` lemmas state the results for the usual path shapes.
- FormatChecker.Wording: the "Wrong font" message prints the allowed fonts in one fixed order. The source formats a Python `set`, whose order depends on string hashing and can change from run to run.
