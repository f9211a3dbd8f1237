/**
  What `compare_changes` promises (aclpubcheck/name_check.py lines 137-238):
  a count mismatch is reported without comparing names, the "might have
  incorrect author names" sentence appears at most once per paper, a paper
  whose authors all agree contributes nothing and every other paper exactly
  one warning, and the exception raised when a last-name mismatch is shown
  before any first-name mismatch.
 */
module NameProperties {
  import opened Optional
  import opened Text
  import opened NameCheck

  // ---------------------------------------------------------------------------
  // Count mismatch

  /** Differing author counts give the two count sentences, the url sentence iff
      there is a url, and nothing that depends on the names or the options. */
  lemma LengthMismatch(u: Unicode, cfg: Config, e: Entry, firstId: Option<nat>, u': Unicode, cfg': Config)
    requires |e.before| != |e.after|
    ensures var sc := PaperScan(u, cfg, e, firstId);
            && sc == PaperScan(u', cfg', e, firstId)
            && sc.failure.None? && sc.firstId == firstId
            && |sc.lines| == (if UrlOf(e) != "" then 3 else 2)
            && sc.lines[..2] == CountLines(e.title, |e.after|, |e.before|)
  {
  }

  // ---------------------------------------------------------------------------
  // Warn once per paper

  /** The other sentences of a paper all differ from the "might have incorrect author names" one. */
  lemma OtherSentences(title: string, url: string, id: nat, a: string, b: string)
    ensures Suspicious(title) !in UrlLines(url)
    ensures Suspicious(title) != WholeNameLine(a, b)
    ensures Suspicious(title) != AuthorLine(id, a, b)
  {
    assert Suspicious(title)[0] == 'Y';
    assert WholeNameLine(a, b)[0] == 'T';
    assert AuthorLine(id, a, b)[0] == 'T';
    if url != "" {
      assert UrlLines(url)[0][0] == 'P';
    }
  }

  /** The sentence occurs once if the paper has been flagged and not at all otherwise. */
  predicate WarnedOnce(st: Scan, title: string) {
    multiset(st.lines)[Suspicious(title)] == if st.warned then 1 else 0
  }

  lemma FlagWarnsOnce(st: Scan, title: string, url: string)
    requires WarnedOnce(st, title)
    ensures WarnedOnce(Flag(st, title, url), title)
  {
    OtherSentences(title, url, 0, "", "");
  }

  lemma WholeStepWarnsOnce(u: Unicode, cfg: Config, e: Entry, url: string, i: nat, st: Scan)
    requires i < |e.before| && i < |e.after|
    requires WarnedOnce(st, e.title)
    ensures WarnedOnce(WholeStep(u, cfg, e, url, i, st), e.title)
  {
    OtherSentences(e.title, url, i, Join(" ", e.after[i]), Join(" ", e.before[i]));
    FlagWarnsOnce(st, e.title, url);
  }

  lemma FirstStepWarnsOnce(u: Unicode, cfg: Config, e: Entry, url: string, i: nat, st: Scan)
    requires i < |e.before| && i < |e.after|
    requires WarnedOnce(st, e.title)
    ensures WarnedOnce(FirstStep(u, cfg, e, url, i, st), e.title)
  {
    OtherSentences(e.title, url, i, Join(" ", e.after[i]), Join(" ", e.before[i]));
    FlagWarnsOnce(st, e.title, url);
  }

  lemma LastStepWarnsOnce(u: Unicode, cfg: Config, e: Entry, url: string, i: nat, st: Scan)
    requires i < |e.before| && i < |e.after|
    requires WarnedOnce(st, e.title)
    ensures WarnedOnce(LastStep(u, cfg, e, url, i, st), e.title)
  {
    OtherSentences(e.title, url, i, Join(" ", e.after[i]), Join(" ", e.before[i]));
    FlagWarnsOnce(st, e.title, url);
  }

  lemma IndexStepWarnsOnce(u: Unicode, cfg: Config, e: Entry, url: string, i: nat, st: Scan)
    requires i < |e.before| && i < |e.after|
    requires WarnedOnce(st, e.title)
    ensures WarnedOnce(IndexStep(u, cfg, e, url, i, st), e.title)
  {
    if st.failure.None? {
      if cfg.wholeName {
        WholeStepWarnsOnce(u, cfg, e, url, i, st);
      } else {
        var s1 := if cfg.firstName then FirstStep(u, cfg, e, url, i, st) else st;
        if cfg.firstName {
          FirstStepWarnsOnce(u, cfg, e, url, i, st);
        }
        if s1.failure.None? && cfg.lastName {
          LastStepWarnsOnce(u, cfg, e, url, i, s1);
        }
      }
    }
  }

  lemma {:induction false} IndexScanWarnsOnce(u: Unicode, cfg: Config, e: Entry, url: string, n: nat, start: Scan)
    requires n <= |e.before| && n <= |e.after|
    requires WarnedOnce(start, e.title)
    ensures WarnedOnce(IndexScan(u, cfg, e, url, n, start), e.title)
    decreases n
  {
    if n > 0 {
      IndexScanWarnsOnce(u, cfg, e, url, n - 1, start);
      IndexStepWarnsOnce(u, cfg, e, url, n - 1, IndexScan(u, cfg, e, url, n - 1, start));
    }
  }

  /** With equal counts, whatever the mode, a paper says "might have incorrect author names" at most once. */
  lemma WarnOnce(u: Unicode, cfg: Config, e: Entry, firstId: Option<nat>)
    requires |e.before| == |e.after|
    ensures multiset(PaperScan(u, cfg, e, firstId).lines)[Suspicious(e.title)] <= 1
  {
    IndexScanWarnsOnce(u, cfg, e, UrlOf(e), |e.before|, Scan([], false, firstId, None));
  }

  // ---------------------------------------------------------------------------
  // Modes, and which papers are flagged

  /**
    Author `a` (old) and `b` (new) raise no remark: with `whole_name` the
    joined lists compare equal; otherwise each enabled part (`first_name`:
    element 0 under the initials rule, `last_name`: the last element)
    exists in both and compares equal.
   */
  predicate Agrees(u: Unicode, cfg: Config, a: Name, b: Name) {
    if cfg.wholeName then SameName(u, Concat(a), Concat(b))
    else
      && (cfg.firstName ==> a != [] && b != [] && FirstAgrees(u, cfg, a, b))
      && (cfg.lastName ==> a != [] && b != [] && LastAgrees(u, a, b))
  }

  /** A paper with equal counts whose authors all agree. */
  predicate Clean(u: Unicode, cfg: Config, e: Entry) {
    |e.before| == |e.after| && forall i :: 0 <= i < |e.before| ==> Agrees(u, cfg, e.before[i], e.after[i])
  }

  /** One author step leaves the state alone iff the author agrees; otherwise the paper is flagged or fails. */
  lemma IndexStepShape(u: Unicode, cfg: Config, e: Entry, url: string, i: nat, st: Scan)
    requires i < |e.before| && i < |e.after| && st.failure.None?
    ensures var r := IndexStep(u, cfg, e, url, i, st);
            && (st.warned ==> r.warned)
            && (Agrees(u, cfg, e.before[i], e.after[i]) ==> r == st)
            && (!Agrees(u, cfg, e.before[i], e.after[i]) ==> r.failure.Some? || r.warned)
  {
    if !cfg.wholeName && cfg.firstName {
      var s1 := FirstStep(u, cfg, e, url, i, st);
      assert st.warned ==> s1.warned;
    }
  }

  /** Authors that all agree leave the state as it was. */
  lemma {:induction false} AgreeingAuthors(u: Unicode, cfg: Config, e: Entry, url: string, n: nat, start: Scan)
    requires n <= |e.before| && n <= |e.after|
    requires start.failure.None?
    requires forall j :: 0 <= j < n ==> Agrees(u, cfg, e.before[j], e.after[j])
    ensures IndexScan(u, cfg, e, url, n, start) == start
    decreases n
  {
    if n > 0 {
      AgreeingAuthors(u, cfg, e, url, n - 1, start);
      IndexStepShape(u, cfg, e, url, n - 1, start);
    }
  }

  /** An author that disagrees makes the paper flagged or failed. */
  lemma {:induction false} DisagreeingAuthor(u: Unicode, cfg: Config, e: Entry, url: string, n: nat, start: Scan, i: nat)
    requires n <= |e.before| && n <= |e.after| && i < n
    requires !Agrees(u, cfg, e.before[i], e.after[i])
    ensures var r := IndexScan(u, cfg, e, url, n, start);
            r.failure.Some? || r.warned
    decreases n
  {
    var prev := IndexScan(u, cfg, e, url, n - 1, start);
    if prev.failure.None? {
      IndexStepShape(u, cfg, e, url, n - 1, prev);
      if i < n - 1 {
        DisagreeingAuthor(u, cfg, e, url, n - 1, start, i);
      }
    }
  }

  /** A paper contributes nothing and raises nothing iff it is clean, whatever `first_author_id` it starts from. */
  lemma PaperCleanIff(u: Unicode, cfg: Config, e: Entry, firstId: Option<nat>)
    ensures var sc := PaperScan(u, cfg, e, firstId);
            sc.lines == [] && sc.failure.None? <==> Clean(u, cfg, e)
  {
    var sc := PaperScan(u, cfg, e, firstId);
    if |e.before| == |e.after| {
      var start := Scan([], false, firstId, None);
      if Clean(u, cfg, e) {
        AgreeingAuthors(u, cfg, e, UrlOf(e), |e.before|, start);
      } else {
        var i :| 0 <= i < |e.before| && !Agrees(u, cfg, e.before[i], e.after[i]);
        DisagreeingAuthor(u, cfg, e, UrlOf(e), |e.before|, start, i);
        IndexScanWarnsOnce(u, cfg, e, UrlOf(e), |e.before|, start);
      }
    }
  }

  /** `whole_name` never raises: only element access and `first_author_id` can. */
  lemma {:induction false} WholeNameNeverFails(u: Unicode, cfg: Config, e: Entry, url: string, n: nat, start: Scan)
    requires cfg.wholeName && n <= |e.before| && n <= |e.after|
    ensures IndexScan(u, cfg, e, url, n, start).failure == start.failure
    decreases n
  {
    if n > 0 {
      WholeNameNeverFails(u, cfg, e, url, n - 1, start);
    }
  }

  // ---------------------------------------------------------------------------
  // The exception from `first_author_id`

  /** Without `show_names` the unbound `first_author_id` is never read. */
  lemma {:induction false} NoNameFailureWithoutShowNames(u: Unicode, cfg: Config, e: Entry, url: string, n: nat, start: Scan)
    requires !cfg.showNames && n <= |e.before| && n <= |e.after|
    requires start.failure != Some(NameFailure)
    ensures IndexScan(u, cfg, e, url, n, start).failure != Some(NameFailure)
    decreases n
  {
    if n > 0 {
      NoNameFailureWithoutShowNames(u, cfg, e, url, n - 1, start);
    }
  }

  /**
    With `show_names`, a last-name mismatch at author `i`, when no first-name
    mismatch has been shown yet in the call and every earlier author agrees,
    reads the unbound `first_author_id` and the paper raises.
   */
  lemma LastBeforeFirstFails(u: Unicode, cfg: Config, e: Entry, i: nat)
    requires cfg.showNames && !cfg.wholeName && cfg.lastName
    requires |e.before| == |e.after| && i < |e.before|
    requires forall j :: 0 <= j < i ==> Agrees(u, cfg, e.before[j], e.after[j])
    requires e.before[i] != [] && e.after[i] != []
    requires cfg.firstName ==> FirstAgrees(u, cfg, e.before[i], e.after[i])
    requires !LastAgrees(u, e.before[i], e.after[i])
    ensures PaperScan(u, cfg, e, None).failure == Some(NameFailure)
  {
    var url := UrlOf(e);
    var start := Scan([], false, None, None);
    AgreeingAuthors(u, cfg, e, url, i, start);
    assert IndexScan(u, cfg, e, url, i + 1, start).failure == Some(NameFailure);
    IndexFailureStays(u, cfg, e, url, i + 1, |e.before|, start);
  }

  /** So a call whose first paper is like that raises instead of returning warnings. */
  lemma FirstPaperLastBeforeFirstFails(u: Unicode, cfg: Config, papers: seq<Entry>, i: nat)
    requires papers != []
    requires cfg.showNames && !cfg.wholeName && cfg.lastName
    requires |papers[0].before| == |papers[0].after| && i < |papers[0].before|
    requires forall j :: 0 <= j < i ==> Agrees(u, cfg, papers[0].before[j], papers[0].after[j])
    requires papers[0].before[i] != [] && papers[0].after[i] != []
    requires cfg.firstName ==> FirstAgrees(u, cfg, papers[0].before[i], papers[0].after[i])
    requires !LastAgrees(u, papers[0].before[i], papers[0].after[i])
    ensures Compared(u, cfg, papers) == Failed(NameFailure)
  {
    LastBeforeFirstFails(u, cfg, papers[0], i);
    PapersFailureStays(u, cfg, papers, 1, |papers|);
  }

  /**
    `first_author_id` is shared by all papers of the call: when an earlier
    paper left it at `i`, a last-name mismatch at author `i` of this paper
    (first name agreeing) is flagged but its "author #i" sentence is not shown.
   */
  lemma StaleFirstIdHidesLastName(u: Unicode, cfg: Config, e: Entry, i: nat)
    requires cfg.showNames && !cfg.wholeName && cfg.lastName
    requires |e.before| == |e.after| && i < |e.before|
    requires forall j :: 0 <= j < i ==> Agrees(u, cfg, e.before[j], e.after[j])
    requires e.before[i] != [] && e.after[i] != []
    requires cfg.firstName ==> FirstAgrees(u, cfg, e.before[i], e.after[i])
    requires !LastAgrees(u, e.before[i], e.after[i])
    ensures var url := UrlOf(e);
            IndexScan(u, cfg, e, url, i + 1, Scan([], false, Some(i), None))
              == Scan([Suspicious(e.title)] + UrlLines(url), true, Some(i), None)
  {
    AgreeingAuthors(u, cfg, e, UrlOf(e), i, Scan([], false, Some(i), None));
  }

  // ---------------------------------------------------------------------------
  // Output shape

  /** The number of papers among the first `n` that are not clean. */
  function Flagged(u: Unicode, cfg: Config, papers: seq<Entry>, n: nat): (k: nat)
    requires n <= |papers|
    ensures k <= n
    decreases n
  {
    if n == 0 then 0 else Flagged(u, cfg, papers, n - 1) + (if Clean(u, cfg, papers[n - 1]) then 0 else 1)
  }

  lemma {:induction false} WarningPerFlaggedPaper(u: Unicode, cfg: Config, papers: seq<Entry>, n: nat)
    requires n <= |papers|
    ensures var p := PapersScan(u, cfg, papers, n);
            p.failure.None? ==> |p.warnings| == Flagged(u, cfg, papers, n)
    decreases n
  {
    if n > 0 {
      WarningPerFlaggedPaper(u, cfg, papers, n - 1);
      var prev := PapersScan(u, cfg, papers, n - 1);
      if prev.failure.None? {
        PaperCleanIff(u, cfg, papers[n - 1], prev.firstId);
      }
    }
  }

  /** The warning paper `j` gets: its lines joined by spaces, scanned with the author index left by the papers before it. */
  function WarningOf(u: Unicode, cfg: Config, papers: seq<Entry>, j: nat): string
    requires j < |papers|
  {
    Join(" ", PaperScan(u, cfg, papers[j], PapersScan(u, cfg, papers, j).firstId).lines)
  }

  /** The warnings of the papers among the first `n` that are not clean, one each, in the order of the papers. */
  function UncleanWarnings(u: Unicode, cfg: Config, papers: seq<Entry>, n: nat): seq<string>
    requires n <= |papers|
    decreases n
  {
    if n == 0 then []
    else UncleanWarnings(u, cfg, papers, n - 1) + (if Clean(u, cfg, papers[n - 1]) then [] else [WarningOf(u, cfg, papers, n - 1)])
  }

  lemma {:induction false} WarningsOfUncleanPapers(u: Unicode, cfg: Config, papers: seq<Entry>, n: nat)
    requires n <= |papers|
    ensures var p := PapersScan(u, cfg, papers, n);
            p.failure.None? ==> p.warnings == UncleanWarnings(u, cfg, papers, n)
    decreases n
  {
    if n > 0 {
      WarningsOfUncleanPapers(u, cfg, papers, n - 1);
      if PapersScan(u, cfg, papers, n).failure.None? {
        PaperWarning(u, cfg, papers, n);
        UncleanStep(u, cfg, papers, n, PapersScan(u, cfg, papers, n - 1).warnings, PapersScan(u, cfg, papers, n).warnings);
      }
    }
  }

  lemma UncleanStep(u: Unicode, cfg: Config, papers: seq<Entry>, n: nat, before: seq<string>, after: seq<string>)
    requires 0 < n <= |papers|
    requires before == UncleanWarnings(u, cfg, papers, n - 1)
    requires after == before + (if Clean(u, cfg, papers[n - 1]) then [] else [WarningOf(u, cfg, papers, n - 1)])
    ensures after == UncleanWarnings(u, cfg, papers, n)
  {
  }

  /** What the `n`-th paper adds to the warnings of the ones before it, when neither raises. */
  lemma PaperWarning(u: Unicode, cfg: Config, papers: seq<Entry>, n: nat)
    requires 0 < n <= |papers|
    requires PapersScan(u, cfg, papers, n).failure.None?
    ensures PapersScan(u, cfg, papers, n - 1).failure.None?
    ensures PapersScan(u, cfg, papers, n).warnings
              == PapersScan(u, cfg, papers, n - 1).warnings
                 + (if Clean(u, cfg, papers[n - 1]) then [] else [WarningOf(u, cfg, papers, n - 1)])
  {
    var prev := PapersScan(u, cfg, papers, n - 1);
    PaperCleanIff(u, cfg, papers[n - 1], prev.firstId);
  }

  lemma {:induction false} CleanPapersNeverFail(u: Unicode, cfg: Config, papers: seq<Entry>, n: nat)
    requires n <= |papers|
    requires forall k :: 0 <= k < n ==> Clean(u, cfg, papers[k])
    ensures PapersScan(u, cfg, papers, n).failure.None?
    decreases n
  {
    if n > 0 {
      CleanPapersNeverFail(u, cfg, papers, n - 1);
      PaperCleanIff(u, cfg, papers[n - 1], PapersScan(u, cfg, papers, n - 1).firstId);
    }
  }

  /**
    When `compare_changes` returns, it returns exactly one warning per paper
    that is not clean, so at most one per paper; when every paper is clean it
    returns no warning.
   */
  lemma OneWarningPerFlaggedPaper(u: Unicode, cfg: Config, papers: seq<Entry>)
    ensures Compared(u, cfg, papers).Warnings? ==>
              |Compared(u, cfg, papers).list| == Flagged(u, cfg, papers, |papers|) <= |papers|
    ensures (forall k :: 0 <= k < |papers| ==> Clean(u, cfg, papers[k])) ==> Compared(u, cfg, papers) == Warnings([])
  {
    WarningPerFlaggedPaper(u, cfg, papers, |papers|);
    if forall k :: 0 <= k < |papers| ==> Clean(u, cfg, papers[k]) {
      CleanPapersNeverFail(u, cfg, papers, |papers|);
      assert Flagged(u, cfg, papers, |papers|) == 0 by {
        AllCleanNoneFlagged(u, cfg, papers, |papers|);
      }
    }
  }

  /**
    When `compare_changes` returns, its warnings are those of the papers that
    are not clean, one each, in the order of `name_list`.
   */
  lemma WarningsFollowPapers(u: Unicode, cfg: Config, papers: seq<Entry>)
    ensures Compared(u, cfg, papers).Warnings? ==> Compared(u, cfg, papers).list == UncleanWarnings(u, cfg, papers, |papers|)
  {
    WarningsOfUncleanPapers(u, cfg, papers, |papers|);
  }

  lemma {:induction false} AllCleanNoneFlagged(u: Unicode, cfg: Config, papers: seq<Entry>, n: nat)
    requires n <= |papers|
    requires forall k :: 0 <= k < n ==> Clean(u, cfg, papers[k])
    ensures Flagged(u, cfg, papers, n) == 0
    decreases n
  {
    if n > 0 {
      AllCleanNoneFlagged(u, cfg, papers, n - 1);
    }
  }

  // ---------------------------------------------------------------------------
  // extract_names: the alignment of the two author lists

  function Min(a: nat, b: nat): nat {
    if a <= b then a else b
  }

  /** What one pass of the alignment loop does to the persons, the old list and `additional`. */
  lemma AlignStepShape(latex: string -> string, newKey: seq<Person>, i: nat, st: Aligning)
    requires i < |newKey|
    ensures |AlignStep(latex, newKey, i, st).keys| == |st.keys|
    ensures forall j :: 0 <= j < |st.keys| && j != i ==> AlignStep(latex, newKey, i, st).keys[j] == st.keys[j]
    ensures i < |st.keys| ==>
              && AlignStep(latex, newKey, i, st).keys[i] == (if SpellsWhole(st.keys[i], newKey[i]) then newKey[i] else st.keys[i])
              && AlignStep(latex, newKey, i, st).before == st.before + [FullName(AlignStep(latex, newKey, i, st).keys[i])]
              && AlignStep(latex, newKey, i, st).additional
                   == if HoldsWhole(AlignStep(latex, newKey, i, st).keys[i], newKey[i]) then i else st.additional
    ensures i >= |st.keys| ==>
              && AlignStep(latex, newKey, i, st).keys == st.keys
              && AlignStep(latex, newKey, i, st).before == st.before
              && AlignStep(latex, newKey, i, st).additional == st.additional
  {
  }

  /** The persons after the loop: each old person up to the shorter length is repaired against its new counterpart, the rest are untouched. */
  lemma {:induction false} AlignKeys(latex: string -> string, oldKey: seq<Person>, newKey: seq<Person>, n: nat)
    requires n <= |newKey|
    ensures forall j :: 0 <= j < |oldKey| ==>
              AlignScan(latex, oldKey, newKey, n).keys[j]
                == if j < n && SpellsWhole(oldKey[j], newKey[j]) then newKey[j] else oldKey[j]
    decreases n
  {
    if n > 0 {
      AlignKeys(latex, oldKey, newKey, n - 1);
      AlignStepShape(latex, newKey, n - 1, AlignScan(latex, oldKey, newKey, n - 1));
    }
  }

  /** Before the fix-up the old list holds the repaired old persons' names. */
  lemma {:induction false} AlignBefore(latex: string -> string, oldKey: seq<Person>, newKey: seq<Person>, n: nat)
    requires n <= |newKey|
    ensures forall j :: 0 <= j < |AlignScan(latex, oldKey, newKey, n).before| ==>
              AlignScan(latex, oldKey, newKey, n).before[j] == FullName(AlignScan(latex, oldKey, newKey, n).keys[j])
    decreases n
  {
    if n > 0 {
      AlignBefore(latex, oldKey, newKey, n - 1);
      AlignStepShape(latex, newKey, n - 1, AlignScan(latex, oldKey, newKey, n - 1));
    }
  }

  /** The new list's entry for new author `j`: LaTeX-converted when an old counterpart exists, first plus last names otherwise. */
  function NewEntry(latex: string -> string, newKey: seq<Person>, oldLength: nat, j: nat): Name
    requires j < |newKey|
  {
    if j < oldLength then MapLatex(latex, FullName(newKey[j])) else newKey[j].first + newKey[j].last
  }

  lemma AlignStepAfter(latex: string -> string, newKey: seq<Person>, i: nat, st: Aligning)
    requires i < |newKey|
    ensures AlignStep(latex, newKey, i, st).after == st.after + [NewEntry(latex, newKey, |st.keys|, i)]
  {
  }

  /** The new list holds the new persons' names, LaTeX-converted where an old counterpart exists and as first plus last names otherwise. */
  lemma {:induction false} AlignAfter(latex: string -> string, oldKey: seq<Person>, newKey: seq<Person>, n: nat)
    requires n <= |newKey|
    ensures forall j :: 0 <= j < n ==> AlignScan(latex, oldKey, newKey, n).after[j] == NewEntry(latex, newKey, |oldKey|, j)
    decreases n
  {
    if n > 0 {
      AlignAfter(latex, oldKey, newKey, n - 1);
      AlignStepAfter(latex, newKey, n - 1, AlignScan(latex, oldKey, newKey, n - 1));
    }
  }

  /** `additional` is the last index past 0 below `m` at which the repaired old person's last names are the new person's whole name, or 0 if there is none. */
  predicate LastHolder(a: Aligning, newKey: seq<Person>, m: nat)
    requires m <= |a.keys| && m <= |newKey|
  {
    && (a.additional > 0 ==> a.additional < m && HoldsWhole(a.keys[a.additional], newKey[a.additional]))
    && (forall j :: a.additional < j < m ==> !HoldsWhole(a.keys[j], newKey[j]))
  }

  lemma {:induction false} AlignAdditional(latex: string -> string, oldKey: seq<Person>, newKey: seq<Person>, n: nat)
    requires n <= |newKey|
    ensures LastHolder(AlignScan(latex, oldKey, newKey, n), newKey, Min(n, |oldKey|))
    decreases n
  {
    if n > 0 {
      AlignAdditional(latex, oldKey, newKey, n - 1);
      AlignStepShape(latex, newKey, n - 1, AlignScan(latex, oldKey, newKey, n - 1));
    }
  }

  /** The new list has one entry per new author; the old list one per author of the shorter list, plus the inserted one. */
  lemma AlignedLengths(latex: string -> string, oldKey: seq<Person>, newKey: seq<Person>)
    ensures var additional := AlignScan(latex, oldKey, newKey, |newKey|).additional;
            var al := Aligned(latex, oldKey, newKey);
            && |al.1| == |newKey|
            && |al.0| == Min(|oldKey|, |newKey|) + (if additional > 0 && additional + 1 < |newKey| then 1 else 0)
  {
  }

  /** The fix-up copies the split name from the new list and inserts the next new name after it; the other old names keep their order. */
  lemma FixUpContents(before: seq<Name>, after: seq<Name>, k: nat)
    requires 0 < k < |before| && k < |after|
    ensures var r := FixUp(before, after, k);
            && r[k] == after[k]
            && (forall j :: 0 <= j < k ==> r[j] == before[j])
            && (k + 1 < |after| ==>
                  && |r| == |before| + 1 && r[k + 1] == after[k + 1]
                  && forall j :: k + 1 < j < |r| ==> r[j] == before[j - 1])
            && (k + 1 >= |after| ==> |r| == |before| && forall j :: k < j < |r| ==> r[j] == before[j])
  {
  }

  /** When the old list merged two authors into one, an insertion makes the two lists the same length again. */
  lemma OneShortRealigned(latex: string -> string, oldKey: seq<Person>, newKey: seq<Person>)
    requires |newKey| == |oldKey| + 1
    requires var additional := AlignScan(latex, oldKey, newKey, |newKey|).additional;
             additional > 0 && additional + 1 < |newKey|
    ensures |Aligned(latex, oldKey, newKey).0| == |Aligned(latex, oldKey, newKey).1|
  {
    AlignedLengths(latex, oldKey, newKey);
  }

  /** A match at index 0 is ignored (`if additional:` is false for 0): without a later one the old list is left as the loop built it. */
  lemma FirstIndexIgnored(latex: string -> string, oldKey: seq<Person>, newKey: seq<Person>)
    requires forall j :: 0 < j < Min(|oldKey|, |newKey|) ==> !HoldsWhole(AlignScan(latex, oldKey, newKey, |newKey|).keys[j], newKey[j])
    ensures Aligned(latex, oldKey, newKey).0 == AlignScan(latex, oldKey, newKey, |newKey|).before
  {
    AlignAdditional(latex, oldKey, newKey, |newKey|);
    assert LastHolder(AlignScan(latex, oldKey, newKey, |newKey|), newKey, Min(|newKey|, |oldKey|));
  }

  // ---------------------------------------------------------------------------
  // extract_names: the loop over papers

  /** The key `k` of the new bibliography raises KeyError. */
  predicate MissingAt(oldBib: map<string, BibEntry>, newBib: seq<(string, BibEntry)>, k: nat)
    requires k < |newBib|
  {
    var key := newBib[k].0;
    key !in oldBib || (oldBib[key].authors.Some? && (newBib[k].1.authors.None? || newBib[k].1.title.None?))
  }

  lemma {:induction false} SelectionFailsIff(oldBib: map<string, BibEntry>, newBib: seq<(string, BibEntry)>, n: nat)
    requires n <= |newBib|
    ensures Selected(oldBib, newBib, n).None? <==> exists k :: 0 <= k < n && MissingAt(oldBib, newBib, k)
    decreases n
  {
    if n > 0 {
      SelectionFailsIff(oldBib, newBib, n - 1);
      var pick := PickOf(oldBib, newBib[n - 1].0, newBib[n - 1].1);
      if MissingAt(oldBib, newBib, n - 1) {
        assert pick.KeyError?;
      }
      if Selected(oldBib, newBib, n - 1).Some? && pick.KeyError? {
        assert MissingAt(oldBib, newBib, n - 1);
      }
    }
  }

  /** `extract_names` raises KeyError iff some key of the new bibliography does. */
  lemma ExtractFailsIff(latex: string -> string, oldBib: map<string, BibEntry>, newBib: seq<(string, BibEntry)>)
    ensures Extract(latex, oldBib, newBib).MissingKey? <==> exists k :: 0 <= k < |newBib| && MissingAt(oldBib, newBib, k)
  {
    SelectionFailsIff(oldBib, newBib, |newBib|);
  }

  /**
    `execute` raises exactly when a key of the new bibliography has no usable
    old entry, or when `compare_changes` raises on the papers it collected;
    otherwise it returns the warnings of the papers that are not clean, in order.
   */
  lemma ExecuteOutcome(u: Unicode, cfg: Config, latex: string -> string, oldBib: map<string, BibEntry>,
                       newBib: seq<(string, BibEntry)>)
    ensures var x := Extract(latex, oldBib, newBib);
            Execute(u, cfg, latex, oldBib, newBib).None? <==>
              (exists k :: 0 <= k < |newBib| && MissingAt(oldBib, newBib, k)) || (x.Names? && Compared(u, cfg, x.entries).Failed?)
    ensures var x := Extract(latex, oldBib, newBib);
            Execute(u, cfg, latex, oldBib, newBib).Some? ==>
              x.Names? && Execute(u, cfg, latex, oldBib, newBib).value == UncleanWarnings(u, cfg, x.entries, |x.entries|)
  {
    ExtractFailsIff(latex, oldBib, newBib);
    var x := Extract(latex, oldBib, newBib);
    if x.Names? {
      WarningsFollowPapers(u, cfg, x.entries);
    }
  }

  /** The positions of the new bibliography's keys whose old entry has authors. */
  function Kept(oldBib: map<string, BibEntry>, newBib: seq<(string, BibEntry)>, n: nat): (ks: seq<nat>)
    requires n <= |newBib|
    ensures forall j :: 0 <= j < |ks| ==> ks[j] < n
    decreases n
  {
    if n == 0 then []
    else
      var key := newBib[n - 1].0;
      Kept(oldBib, newBib, n - 1) + (if key in oldBib && oldBib[key].authors.Some? then [n - 1] else [])
  }

  /** Chosen paper `c` is key `k` of the new bibliography. */
  predicate ChosenAt(oldBib: map<string, BibEntry>, newBib: seq<(string, BibEntry)>, k: nat, c: Chosen)
    requires k < |newBib|
  {
    var ne := newBib[k].1;
    && c.key == newBib[k].0 && c.key in oldBib
    && oldBib[c.key].authors == Some(c.oldPersons)
    && ne.authors == Some(c.newPersons) && ne.title == Some(c.title) && ne.url == c.url
  }

  lemma {:induction false} SelectedKept(oldBib: map<string, BibEntry>, newBib: seq<(string, BibEntry)>, n: nat)
    requires n <= |newBib|
    ensures var sel := Selected(oldBib, newBib, n);
            var ks := Kept(oldBib, newBib, n);
            sel.Some? ==> |sel.value| == |ks| && forall j :: 0 <= j < |ks| ==> ChosenAt(oldBib, newBib, ks[j], sel.value[j])
    decreases n
  {
    if n > 0 {
      SelectedKept(oldBib, newBib, n - 1);
      var prev := Selected(oldBib, newBib, n - 1);
      var sel := Selected(oldBib, newBib, n);
      var pks := Kept(oldBib, newBib, n - 1);
      var ks := Kept(oldBib, newBib, n);
      var pick := PickOf(oldBib, newBib[n - 1].0, newBib[n - 1].1);
      if sel.Some? && pick.Take? {
        assert sel.value == prev.value + [pick.chosen];
        assert ks == pks + [n - 1];
        forall j | 0 <= j < |ks|
          ensures ChosenAt(oldBib, newBib, ks[j], sel.value[j])
        {
          if j < |pks| {
            assert ks[j] == pks[j] && sel.value[j] == prev.value[j];
          }
        }
      }
    }
  }

  lemma {:induction false} MakeEntriesAt(latex: string -> string, cs: seq<Chosen>, j: nat)
    requires j < |cs|
    ensures MakeEntries(latex, cs)[j] == MakeEntry(latex, cs[j])
    decreases |cs|
  {
    if j < |cs| - 1 {
      MakeEntriesAt(latex, cs[..|cs| - 1], j);
    }
  }

  /**
    When `extract_names` returns, `name_list` has one entry per key whose old
    entry has authors, in the new bibliography's order, with that key, the new
    entry's url, one new name per new author and the converted title.
   */
  lemma ExtractedEntries(latex: string -> string, oldBib: map<string, BibEntry>, newBib: seq<(string, BibEntry)>)
    ensures var r := Extract(latex, oldBib, newBib);
            var ks := Kept(oldBib, newBib, |newBib|);
            r.Names? ==>
              && |r.entries| == |ks|
              && forall j :: 0 <= j < |ks| ==>
                   var ne := newBib[ks[j]].1;
                   && r.entries[j].key == newBib[ks[j]].0
                   && r.entries[j].url == ne.url
                   && ne.authors.Some? && |r.entries[j].after| == |ne.authors.value|
                   && ne.title.Some? && r.entries[j].title == latex(ne.title.value)
  {
    SelectedKept(oldBib, newBib, |newBib|);
    var r := Extract(latex, oldBib, newBib);
    var ks := Kept(oldBib, newBib, |newBib|);
    if r.Names? {
      var cs := Selected(oldBib, newBib, |newBib|).value;
      forall j | 0 <= j < |ks|
        ensures var ne := newBib[ks[j]].1;
                && r.entries[j].key == newBib[ks[j]].0
                && r.entries[j].url == ne.url
                && ne.authors.Some? && |r.entries[j].after| == |ne.authors.value|
                && ne.title.Some? && r.entries[j].title == latex(ne.title.value)
      {
        MakeEntriesAt(latex, cs, j);
        assert ChosenAt(oldBib, newBib, ks[j], cs[j]);
        AlignedLengths(latex, cs[j].oldPersons, cs[j].newPersons);
      }
    }
  }
}
