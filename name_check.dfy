/**
  The citation author-name check (aclpubcheck/name_check.py): author lists
  of each cited paper as the PDF's bibliography gives them ("old") are
  aligned with the lists of the corrected entries ("new"), and every paper
  whose names differ gets one warning.
 */
module NameCheck {
  import opened Optional
  import opened Text

  /** The parts of one author's name, first names then last names. */
  type Name = seq<string>

  // ---------------------------------------------------------------------------
  // if_equal

  /**
    The library behaviour `if_equal` relies on: which non-ASCII characters
    the regular expression class `\w` accepts, and `unidecode`.
   */
  datatype Unicode = Unicode(isWord: char -> bool, unidecode: string -> string)

  /** `\w`: ASCII letters, digits and '_', and the library's answer for other characters. */
  predicate IsWordChar(u: Unicode, c: char) {
    if c as int < 128 then ('a' <= c <= 'z') || ('A' <= c <= 'Z') || ('0' <= c <= '9') || c == '_'
    else u.isWord(c)
  }

  predicate AllWordChars(u: Unicode, s: string) {
    forall k :: 0 <= k < |s| ==> IsWordChar(u, s[k])
  }

  /** `re.sub(r'\W+', '', s)`. */
  function DropNonWord(u: Unicode, s: string): (r: string)
    ensures |r| <= |s|
    ensures forall k :: 0 <= k < |r| ==> IsWordChar(u, r[k])
    decreases |s|
  {
    if s == [] then [] else (if IsWordChar(u, s[0]) then [s[0]] else []) + DropNonWord(u, s[1..])
  }

  /** A string of word characters only is left as it is. */
  lemma {:induction false} WordCharsKept(u: Unicode, s: string)
    requires AllWordChars(u, s)
    ensures DropNonWord(u, s) == s
    decreases |s|
  {
    if s != [] {
      WordCharsKept(u, s[1..]);
      assert [s[0]] + s[1..] == s;
    }
  }

  lemma {:induction false} DropNonWordAppend(u: Unicode, a: string, b: string)
    ensures DropNonWord(u, a + b) == DropNonWord(u, a) + DropNonWord(u, b)
    decreases |a|
  {
    if a == [] {
      assert a + b == b;
    } else {
      assert (a + b)[0] == a[0];
      assert (a + b)[1..] == a[1..] + b;
      DropNonWordAppend(u, a[1..], b);
    }
  }

  /** Lower-cased, non-word characters removed, accents removed. */
  function Folded(u: Unicode, s: string): string {
    u.unidecode(DropNonWord(u, Lower(s)))
  }

  /** `if_equal` on two strings; a list of name parts is joined without separator first. */
  predicate SameName(u: Unicode, a: string, b: string) {
    Folded(u, a) == Folded(u, b)
  }

  /** `if_equal` is an equivalence: reflexive, symmetric and transitive. */
  lemma SameNameEquivalence(u: Unicode, a: string, b: string, c: string)
    ensures SameName(u, a, a)
    ensures SameName(u, a, b) ==> SameName(u, b, a)
    ensures SameName(u, a, b) && SameName(u, b, c) ==> SameName(u, a, c)
  {
  }

  lemma {:induction false} LowerAppend(a: string, b: string)
    ensures Lower(a + b) == Lower(a) + Lower(b)
    decreases |a|
  {
    if a == [] {
      assert a + b == b;
    } else {
      assert (a + b)[1..] == a[1..] + b;
      LowerAppend(a[1..], b);
    }
  }

  /** Names that differ only in the case of ASCII letters compare equal. */
  lemma {:induction false} CaseIgnored(u: Unicode, a: string, b: string)
    requires |a| == |b| && forall k :: 0 <= k < |a| ==> LowerChar(a[k]) == LowerChar(b[k])
    ensures SameName(u, a, b)
  {
    assert Lower(a) == Lower(b);
  }

  /** A non-word character is left alone by lower-casing and then dropped. */
  lemma NonWordDropped(u: Unicode, c: char)
    requires !IsWordChar(u, c)
    ensures Lower([c]) == [c] && DropNonWord(u, [c]) == []
  {
    assert [c][1..] == [];
  }

  /** Inserting a non-word character (a space, a hyphen, a dot ...) anywhere does not change the verdict. */
  lemma NonWordIgnored(u: Unicode, x: string, c: char, y: string)
    requires !IsWordChar(u, c)
    ensures SameName(u, x + [c] + y, x + y)
  {
    NonWordDropped(u, c);
    LowerAppend(x + [c], y);
    LowerAppend(x, [c]);
    LowerAppend(x, y);
    var lx, ly := Lower(x), Lower(y);
    assert Lower(x + [c] + y) == lx + [c] + ly;
    DropAround(u, lx, c, ly);
  }

  lemma DropAround(u: Unicode, a: string, c: char, b: string)
    requires DropNonWord(u, [c]) == []
    ensures DropNonWord(u, a + [c] + b) == DropNonWord(u, a + b)
  {
    DropNonWordAppend(u, a + [c], b);
    DropNonWordAppend(u, a, [c]);
    DropNonWordAppend(u, a, b);
    assert DropNonWord(u, a + [c]) == DropNonWord(u, a) + [];
  }

  // ---------------------------------------------------------------------------
  // compare_changes

  datatype Config = Config(wholeName: bool, firstName: bool, lastName: bool, initials: bool, showNames: bool)

  /** One entry of `name_list`: the author lists before (`old`) and after (`new`) the correction. */
  datatype Entry = Entry(key: string, before: seq<Name>, after: seq<Name>, title: string, url: Option<string>)

  function UrlOf(e: Entry): string {
    if e.url.Some? then e.url.value else ""
  }

  /** `^[A-Z]\.`: an upper-case initial followed by a dot. */
  predicate StartsWithInitial(s: string) {
    |s| >= 2 && 'A' <= s[0] <= 'Z' && s[1] == '.'
  }

  predicate AllCapitals(s: string) {
    forall k :: 0 <= k < |s| ==> 'A' <= s[k] <= 'Z'
  }

  /** `re.sub(r'[^A-Z]', '', s)`. */
  function Capitals(s: string): (r: string)
    ensures |r| <= |s|
    ensures forall k :: 0 <= k < |r| ==> 'A' <= r[k] <= 'Z'
    decreases |s|
  {
    if s == [] then [] else (if 'A' <= s[0] <= 'Z' then [s[0]] else []) + Capitals(s[1..])
  }

  /** A string of capitals only is left as it is. */
  lemma {:induction false} CapitalsKept(s: string)
    requires AllCapitals(s)
    ensures Capitals(s) == s
    decreases |s|
  {
    if s != [] {
      CapitalsKept(s[1..]);
      assert [s[0]] + s[1..] == s;
    }
  }

  lemma {:induction false} CapitalsAppend(a: string, b: string)
    ensures Capitals(a + b) == Capitals(a) + Capitals(b)
    decreases |a|
  {
    if a == [] {
      assert a + b == b;
    } else {
      assert (a + b)[0] == a[0];
      assert (a + b)[1..] == a[1..] + b;
      CapitalsAppend(a[1..], b);
    }
  }

  /** The two first names as compared: with the initials option, only their capitals when either starts with an initial. */
  function FirstNamesCompared(cfg: Config, a: string, b: string): (pair: (string, string))
    ensures cfg.initials && (StartsWithInitial(a) || StartsWithInitial(b)) ==> pair == (Capitals(a), Capitals(b))
    ensures !(cfg.initials && (StartsWithInitial(a) || StartsWithInitial(b))) ==> pair == (a, b)
  {
    if cfg.initials && (StartsWithInitial(a) || StartsWithInitial(b)) then (Capitals(a), Capitals(b)) else (a, b)
  }

  lemma {:induction false} CapitalsOfLower(s: string)
    requires forall k :: 0 <= k < |s| ==> !('A' <= s[k] <= 'Z')
    ensures Capitals(s) == []
    decreases |s|
  {
    if s != [] {
      CapitalsOfLower(s[1..]);
    }
  }

  /** With the initials option, "J." is taken to match "John" (or "J. R." to match "John Ronald"'s capitals). */
  lemma InitialMatchesFirstName(u: Unicode, cfg: Config, c: char, rest: string)
    requires cfg.initials && 'A' <= c <= 'Z'
    requires forall k :: 0 <= k < |rest| ==> !('A' <= rest[k] <= 'Z')
    ensures var pair := FirstNamesCompared(cfg, [c, '.'], [c] + rest);
            pair.0 == pair.1 && SameName(u, pair.0, pair.1)
  {
    CapitalsOfLower(rest);
    CapitalsOfLower(['.']);
    assert Capitals([c, '.']) == [c] + Capitals(['.']);
    assert Capitals([c] + rest) == [c] + Capitals(rest) by {
      assert ([c] + rest)[1..] == rest;
    }
  }

  function UrlLines(url: string): (ls: seq<string>)
    ensures |ls| <= 1
  {
    if url != "" then ["Please correct the citation " + "by visiting this url: " + url] else []
  }

  function CountLines(title: string, newLength: nat, oldLength: nat): seq<string> {
    ["Number of authors in the title `" + title + "` is incorrect.",
     "The number of authors should be " + NatToString(newLength) + ", not " + NatToString(oldLength) + "."]
  }

  function Suspicious(title: string): string {
    "Your citation for `" + title + "` might have incorrect author names."
  }

  function WholeNameLine(newName: string, oldName: string): string {
    "The name should be " + newName + " not " + oldName + "."
  }

  function AuthorLine(id: nat, newName: string, oldName: string): string {
    "The author #" + NatToString(id) + " name should be " + newName + " not " + oldName + "."
  }

  /** IndexError from `[0]` or `[-1]` on an empty name; UnboundLocalError from reading `first_author_id` before it is set. */
  datatype Failure = IndexFailure | NameFailure

  /**
    The state of the comparison of one paper: its output lines, `already_warned`,
    `first_author_id` (shared by all papers of the call) and a raised exception.
   */
  datatype Scan = Scan(lines: seq<string>, warned: bool, firstId: Option<nat>, failure: Option<Failure>)

  /** The first mismatch of a paper adds the "might have incorrect author names" line and the url line. */
  function Flag(st: Scan, title: string, url: string): (r: Scan)
    ensures r.warned && r.firstId == st.firstId && r.failure == st.failure
  {
    if st.warned then st else Scan(st.lines + [Suspicious(title)] + UrlLines(url), true, st.firstId, st.failure)
  }

  /**
    The lines `Flag` leaves: the paper's two lines appended the first time,
    nothing added once the paper is flagged, so flagging again changes nothing.
   */
  lemma FlagLines(st: Scan, title: string, url: string, title': string, url': string)
    ensures !st.warned ==> Flag(st, title, url).lines == st.lines + [Suspicious(title)] + UrlLines(url)
    ensures st.warned ==> Flag(st, title, url) == st
    ensures Flag(Flag(st, title, url), title', url') == Flag(st, title, url)
  {
  }

  function WholeStep(u: Unicode, cfg: Config, e: Entry, url: string, i: nat, st: Scan): Scan
    requires i < |e.before| && i < |e.after|
  {
    if SameName(u, Concat(e.before[i]), Concat(e.after[i])) then st
    else
      var f := Flag(st, e.title, url);
      if cfg.showNames then f.(lines := f.lines + [WholeNameLine(Join(" ", e.after[i]), Join(" ", e.before[i]))]) else f
  }

  predicate FirstAgrees(u: Unicode, cfg: Config, a: Name, b: Name)
    requires a != [] && b != []
  {
    var pair := FirstNamesCompared(cfg, a[0], b[0]);
    SameName(u, pair.0, pair.1)
  }

  predicate LastAgrees(u: Unicode, a: Name, b: Name)
    requires a != [] && b != []
  {
    SameName(u, a[|a| - 1], b[|b| - 1])
  }

  function FirstStep(u: Unicode, cfg: Config, e: Entry, url: string, i: nat, st: Scan): Scan
    requires i < |e.before| && i < |e.after|
  {
    if e.before[i] == [] || e.after[i] == [] then st.(failure := Some(IndexFailure))
    else if FirstAgrees(u, cfg, e.before[i], e.after[i]) then st
    else
      var f := Flag(st, e.title, url);
      if cfg.showNames then
        f.(firstId := Some(i), lines := f.lines + [AuthorLine(i, Join(" ", e.after[i]), Join(" ", e.before[i]))])
      else f
  }

  function LastStep(u: Unicode, cfg: Config, e: Entry, url: string, i: nat, st: Scan): Scan
    requires i < |e.before| && i < |e.after|
  {
    if e.before[i] == [] || e.after[i] == [] then st.(failure := Some(IndexFailure))
    else if LastAgrees(u, e.before[i], e.after[i]) then st
    else
      var f := Flag(st, e.title, url);
      if !cfg.showNames then f
      else if f.firstId.None? then f.(failure := Some(NameFailure))
      else if f.firstId.value != i then f.(lines := f.lines + [AuthorLine(i, Join(" ", e.after[i]), Join(" ", e.before[i]))])
      else f
  }

  /** One index of the per-author loop. */
  function IndexStep(u: Unicode, cfg: Config, e: Entry, url: string, i: nat, st: Scan): Scan
    requires i < |e.before| && i < |e.after|
  {
    if st.failure.Some? then st
    else if cfg.wholeName then WholeStep(u, cfg, e, url, i, st)
    else
      var s1 := if cfg.firstName then FirstStep(u, cfg, e, url, i, st) else st;
      if s1.failure.None? && cfg.lastName then LastStep(u, cfg, e, url, i, s1) else s1
  }

  /** The per-author loop over the first `n` indices. */
  function IndexScan(u: Unicode, cfg: Config, e: Entry, url: string, n: nat, start: Scan): Scan
    requires n <= |e.before| && n <= |e.after|
    decreases n
  {
    if n == 0 then start else IndexStep(u, cfg, e, url, n - 1, IndexScan(u, cfg, e, url, n - 1, start))
  }

  /** Everything one paper adds; `firstId` is `first_author_id` as the earlier papers left it. */
  function PaperScan(u: Unicode, cfg: Config, e: Entry, firstId: Option<nat>): Scan {
    var url := UrlOf(e);
    if |e.before| != |e.after| then Scan(CountLines(e.title, |e.after|, |e.before|) + UrlLines(url), false, firstId, None)
    else IndexScan(u, cfg, e, url, |e.before|, Scan([], false, firstId, None))
  }

  datatype Progress = Progress(warnings: seq<string>, firstId: Option<nat>, failure: Option<Failure>)

  /** The outer loop over the first `n` papers. */
  function PapersScan(u: Unicode, cfg: Config, papers: seq<Entry>, n: nat): Progress
    requires n <= |papers|
    decreases n
  {
    if n == 0 then Progress([], None, None)
    else
      var prev := PapersScan(u, cfg, papers, n - 1);
      if prev.failure.Some? then prev
      else
        var sc := PaperScan(u, cfg, papers[n - 1], prev.firstId);
        if sc.failure.Some? then Progress(prev.warnings, sc.firstId, sc.failure)
        else Progress(prev.warnings + (if sc.lines != [] then [Join(" ", sc.lines)] else []), sc.firstId, None)
  }

  /** What `compare_changes` gives back: the warnings, or the exception it raises. */
  datatype Outcome = Warnings(list: seq<string>) | Failed(failure: Failure)

  function Compared(u: Unicode, cfg: Config, papers: seq<Entry>): Outcome {
    var p := PapersScan(u, cfg, papers, |papers|);
    if p.failure.Some? then Failed(p.failure.value) else Warnings(p.warnings)
  }

  // ---------------------------------------------------------------------------
  // compare_changes as a procedure

  /** A failed state stays failed for the rest of the per-author loop. */
  lemma {:induction false} IndexFailureStays(u: Unicode, cfg: Config, e: Entry, url: string, i: nat, n: nat, start: Scan)
    requires i <= n <= |e.before| && n <= |e.after|
    requires IndexScan(u, cfg, e, url, i, start).failure.Some?
    ensures IndexScan(u, cfg, e, url, n, start) == IndexScan(u, cfg, e, url, i, start)
    decreases n
  {
    if n > i {
      IndexFailureStays(u, cfg, e, url, i, n - 1, start);
    }
  }

  /** A failed call stays failed for the rest of the loop over papers. */
  lemma {:induction false} PapersFailureStays(u: Unicode, cfg: Config, papers: seq<Entry>, i: nat, n: nat)
    requires i <= n <= |papers|
    requires PapersScan(u, cfg, papers, i).failure.Some?
    ensures PapersScan(u, cfg, papers, n) == PapersScan(u, cfg, papers, i)
    decreases n
  {
    if n > i {
      PapersFailureStays(u, cfg, papers, i, n - 1);
    }
  }

  /** The body of the per-author loop (name_check.py lines 166-232) for author `i`. */
  method CompareAuthor(u: Unicode, cfg: Config, e: Entry, url: string, i: nat, st: Scan) returns (r: Scan)
    requires i < |e.before| && i < |e.after| && st.failure.None?
    ensures r == IndexStep(u, cfg, e, url, i, st)
  {
    var lines, warned, firstId := st.lines, st.warned, st.firstId;
    var a, b := e.before[i], e.after[i];
    if cfg.wholeName {
      if !SameName(u, Concat(a), Concat(b)) {
        if !warned {
          lines := lines + [Suspicious(e.title)] + UrlLines(url);
        }
        warned := true;
        if cfg.showNames {
          lines := lines + [WholeNameLine(Join(" ", b), Join(" ", a))];
        }
      }
      return Scan(lines, warned, firstId, None);
    }
    if cfg.firstName {
      if a == [] || b == [] {
        return Scan(lines, warned, firstId, Some(IndexFailure));
      }
      var pair := FirstNamesCompared(cfg, a[0], b[0]);
      if !SameName(u, pair.0, pair.1) {
        if !warned {
          lines := lines + [Suspicious(e.title)] + UrlLines(url);
        }
        warned := true;
        if cfg.showNames {
          firstId := Some(i);
          lines := lines + [AuthorLine(i, Join(" ", b), Join(" ", a))];
        }
      }
    }
    if cfg.lastName {
      if a == [] || b == [] {
        return Scan(lines, warned, firstId, Some(IndexFailure));
      }
      if !SameName(u, a[|a| - 1], b[|b| - 1]) {
        if !warned {
          lines := lines + [Suspicious(e.title)] + UrlLines(url);
        }
        warned := true;
        if cfg.showNames {
          if firstId.None? {
            return Scan(lines, warned, firstId, Some(NameFailure));
          }
          if firstId.value != i {
            lines := lines + [AuthorLine(i, Join(" ", b), Join(" ", a))];
          }
        }
      }
    }
    return Scan(lines, warned, firstId, None);
  }

  /** The body of the loop over papers (lines 143-232) for one paper; `firstId` is `first_author_id` on entry. */
  method ComparePaper(u: Unicode, cfg: Config, e: Entry, firstId: Option<nat>) returns (sc: Scan)
    ensures sc == PaperScan(u, cfg, e, firstId)
  {
    var url := if e.url.Some? then e.url.value else "";
    if |e.before| != |e.after| {
      return Scan(CountLines(e.title, |e.after|, |e.before|) + UrlLines(url), false, firstId, None);
    }
    var start := Scan([], false, firstId, None);
    sc := start;
    for i := 0 to |e.before|
      invariant sc == IndexScan(u, cfg, e, url, i, start)
      invariant sc.failure.None?
    {
      sc := CompareAuthor(u, cfg, e, url, i, sc);
      if sc.failure.Some? {
        IndexFailureStays(u, cfg, e, url, i + 1, |e.before|, start);
        return;
      }
    }
  }

  /** `compare_changes`: the warnings, one per flagged paper, or the exception that escapes. */
  method CompareChanges(u: Unicode, cfg: Config, nameList: seq<Entry>) returns (outcome: Outcome)
    ensures outcome == Compared(u, cfg, nameList)
  {
    var warnings: seq<string> := [];
    var firstId: Option<nat> := None;
    for n := 0 to |nameList|
      invariant PapersScan(u, cfg, nameList, n) == Progress(warnings, firstId, None)
    {
      var sc := ComparePaper(u, cfg, nameList[n], firstId);
      if sc.failure.Some? {
        PapersFailureStays(u, cfg, nameList, n + 1, |nameList|);
        return Failed(sc.failure.value);
      }
      if |sc.lines| > 0 {
        warnings := warnings + [Join(" ", sc.lines)];
      }
      firstId := sc.firstId;
    }
    return Warnings(warnings);
  }

  // ---------------------------------------------------------------------------
  // extract_names

  /** A person as the bibliography parser gives it: first, middle and last names. */
  datatype Person = Person(first: seq<string>, middle: seq<string>, last: seq<string>)

  /** The parser's `bibtex_first_names`: first then middle names. */
  function BibtexFirst(p: Person): seq<string> {
    p.first + p.middle
  }

  /** `bibtex_first_names + last_names`, the name as the comparison sees it. */
  function FullName(p: Person): (r: Name)
    ensures |r| == |p.first| + |p.middle| + |p.last|
  {
    BibtexFirst(p) + p.last
  }

  /** The full name is the first names, then the middle names, then the last names. */
  lemma FullNameParts(p: Person)
    ensures FullName(p)[..|p.first|] == p.first
    ensures FullName(p)[|p.first|..|p.first| + |p.middle|] == p.middle
    ensures FullName(p)[|p.first| + |p.middle|..] == p.last
  {
  }

  /** Lines 83-85: an old person whose first names, dots removed, spell the new person's whole name is replaced by the new person. */
  predicate SpellsWhole(o: Person, n: Person) {
    ReplaceAll(Join(" ", BibtexFirst(o)), ".", "") == Join(" ", FullName(n))
  }

  /** Line 93: an old person whose last names are the new person's whole name ("two names in a name"). */
  predicate HoldsWhole(o: Person, n: Person) {
    o.last == FullName(n)
  }

  /** `latex_to_text` applied to every part of a name. */
  function MapLatex(latex: string -> string, xs: seq<string>): (r: seq<string>)
    ensures |r| == |xs| && forall k :: 0 <= k < |xs| ==> r[k] == latex(xs[k])
    decreases |xs|
  {
    if xs == [] then [] else [latex(xs[0])] + MapLatex(latex, xs[1..])
  }

  /**
    The state of the alignment loop: the old persons (overwritten in place),
    `old_paper_authors`, `new_paper_authors` and `additional` (0 stands for
    both `False` and index 0, which `if additional:` treats alike).
   */
  datatype Aligning = Aligning(keys: seq<Person>, before: seq<Name>, after: seq<Name>, additional: nat)

  /** One pass of the loop of lines 80-103, for new author `i`. */
  function AlignStep(latex: string -> string, newKey: seq<Person>, i: nat, st: Aligning): Aligning
    requires i < |newKey|
  {
    var n := newKey[i];
    if i < |st.keys| then
      var o := if SpellsWhole(st.keys[i], n) then n else st.keys[i];
      Aligning(st.keys[i := o], st.before + [FullName(o)], st.after + [MapLatex(latex, FullName(n))],
               if HoldsWhole(o, n) then i else st.additional)
    else
      st.(after := st.after + [n.first + n.last])
  }

  /** The loop of lines 80-103 over the first `n` new authors. */
  function AlignScan(latex: string -> string, oldKey: seq<Person>, newKey: seq<Person>, n: nat): (r: Aligning)
    requires n <= |newKey|
    ensures |r.keys| == |oldKey| && |r.after| == n
    ensures |r.before| == if n <= |oldKey| then n else |oldKey|
    ensures r.additional == 0 || r.additional < |r.before|
    decreases n
  {
    if n == 0 then Aligning(oldKey, [], [], 0)
    else AlignStep(latex, newKey, n - 1, AlignScan(latex, oldKey, newKey, n - 1))
  }

  /** Lines 106-110: the split name is copied from the new list and the next new name inserted after it. */
  function FixUp(before: seq<Name>, after: seq<Name>, additional: nat): (r: seq<Name>)
    requires additional == 0 || (additional < |before| && additional < |after|)
  {
    if additional == 0 then before
    else
      var b := before[additional := after[additional]];
      if additional + 1 < |after| then b[..additional + 1] + [after[additional + 1]] + b[additional + 1..] else b
  }

  /** The old and new author lists of one paper. */
  function Aligned(latex: string -> string, oldKey: seq<Person>, newKey: seq<Person>): (seq<Name>, seq<Name>) {
    var a := AlignScan(latex, oldKey, newKey, |newKey|);
    (FixUp(a.before, a.after, a.additional), a.after)
  }

  /** The body of the loop of lines 80-103 for new author `i`. */
  method AlignAuthor(latex: string -> string, oldKey: array<Person>, newKey: seq<Person>, i: nat,
                     before: seq<Name>, after: seq<Name>, additional: nat)
    returns (before': seq<Name>, after': seq<Name>, additional': nat)
    requires i < |newKey|
    modifies oldKey
    ensures Aligning(oldKey[..], before', after', additional')
         == AlignStep(latex, newKey, i, Aligning(old(oldKey[..]), before, after, additional))
  {
    var n := newKey[i];
    before', after', additional' := before, after, additional;
    if i < oldKey.Length {
      if ReplaceAll(Join(" ", BibtexFirst(oldKey[i])), ".", "") == Join(" ", BibtexFirst(n) + n.last) {
        oldKey[i] := n;
      }
      var oldName := BibtexFirst(oldKey[i]) + oldKey[i].last;
      var newName := BibtexFirst(n) + n.last;
      if oldKey[i].last == newName {
        additional' := i;
      }
      before' := before + [oldName];
      after' := after + [MapLatex(latex, newName)];
    }  else {
      after' := after + [n.first + n.last];
    }
  }

  /** Lines 72-110 for one paper: `oldKey` is the old person list, which the loop overwrites in place. */
  method AlignAuthors(latex: string -> string, oldKey: array<Person>, newKey: seq<Person>) returns (before: seq<Name>, after: seq<Name>)
    modifies oldKey
    ensures oldKey[..] == AlignScan(latex, old(oldKey[..]), newKey, |newKey|).keys
    ensures (before, after) == Aligned(latex, old(oldKey[..]), newKey)
  {
    ghost var keys0 := oldKey[..];
    before, after := [], [];
    var additional: nat := 0;
    for i := 0 to |newKey|
      invariant AlignScan(latex, keys0, newKey, i) == Aligning(oldKey[..], before, after, additional)
    {
      before, after, additional := AlignAuthor(latex, oldKey, newKey, i, before, after, additional);
    }
    if additional != 0 {
      before := before[additional := after[additional]];
      if additional + 1 < |after| {
        before := before[..additional + 1] + [after[additional + 1]] + before[additional + 1..];
      }
    }
  }

  /** A parsed bibliography entry: its authors, if any, and its title and url fields. */
  datatype BibEntry = BibEntry(authors: Option<seq<Person>>, title: Option<string>, url: Option<string>)

  /** What `extract_names` gives back: `name_list`, or the KeyError it raises. */
  datatype Extracted = Names(entries: seq<Entry>) | MissingKey

  /** A paper whose names are collected: its key, both person lists, the title and the url field. */
  datatype Chosen = Chosen(key: string, oldPersons: seq<Person>, newPersons: seq<Person>, title: string, url: Option<string>)

  /** What one key of the new bibliography leads to. */
  datatype Pick = KeyError | Skip | Take(chosen: Chosen)

  /**
    Lines 72-76 and 114-118 for one key: a key absent from the old
    bibliography, or an old entry with authors whose new entry has no authors
    or no title, raises KeyError; an old entry without authors is skipped.
   */
  function PickOf(oldBib: map<string, BibEntry>, key: string, ne: BibEntry): Pick {
    if key !in oldBib then KeyError
    else if oldBib[key].authors.None? then Skip
    else if ne.authors.None? || ne.title.None? then KeyError
    else Take(Chosen(key, oldBib[key].authors.value, ne.authors.value, ne.title.value, ne.url))
  }

  /** The papers chosen among the first `n` keys of the new bibliography, or `None` once a KeyError is raised. */
  function Selected(oldBib: map<string, BibEntry>, newBib: seq<(string, BibEntry)>, n: nat): Option<seq<Chosen>>
    requires n <= |newBib|
    decreases n
  {
    if n == 0 then Some([])
    else
      var prev := Selected(oldBib, newBib, n - 1);
      var pick := PickOf(oldBib, newBib[n - 1].0, newBib[n - 1].1);
      if prev.None? || pick.KeyError? then None
      else if pick.Skip? then prev
      else Some(prev.value + [pick.chosen])
  }

  /** The `name_list` entry of a chosen paper (lines 111-118). */
  function MakeEntry(latex: string -> string, c: Chosen): Entry {
    var al := Aligned(latex, c.oldPersons, c.newPersons);
    Entry(c.key, al.0, al.1, latex(c.title), c.url)
  }

  function MakeEntries(latex: string -> string, cs: seq<Chosen>): (es: seq<Entry>)
    ensures |es| == |cs|
    decreases |cs|
  {
    if cs == [] then [] else MakeEntries(latex, cs[..|cs| - 1]) + [MakeEntry(latex, cs[|cs| - 1])]
  }

  /** What `extract_names` gives back for the two parsed bibliographies. */
  function Extract(latex: string -> string, oldBib: map<string, BibEntry>, newBib: seq<(string, BibEntry)>): Extracted {
    var sel := Selected(oldBib, newBib, |newBib|);
    if sel.None? then MissingKey else Names(MakeEntries(latex, sel.value))
  }

  /**
    `execute` once the curl request and rebiber have produced the two parsed
    bibliographies: `extract_names`, then `compare_changes`; `None` when either raises.
   */
  function Execute(u: Unicode, cfg: Config, latex: string -> string, oldBib: map<string, BibEntry>,
                   newBib: seq<(string, BibEntry)>): Option<seq<string>>
  {
    match Extract(latex, oldBib, newBib)
    case MissingKey => None
    case Names(entries) =>
      match Compared(u, cfg, entries)
      case Warnings(list) => Some(list)
      case Failed(_) => None
  }

  /** The body of the loop of lines 71-118 for one key. */
  method ExtractPaper(latex: string -> string, oldBib: map<string, BibEntry>, key: string, ne: BibEntry)
    returns (pick: Pick, entry: Entry)
    ensures pick == PickOf(oldBib, key, ne)
    ensures pick.Take? ==> entry == MakeEntry(latex, pick.chosen)
  {
    entry := Entry(key, [], [], "", None);
    if key !in oldBib {
      return KeyError, entry;
    }
    if oldBib[key].authors.None? {
      return Skip, entry;
    }
    if ne.authors.None? {
      return KeyError, entry;
    }
    var persons := oldBib[key].authors.value;
    var oldKey := new Person[|persons|](k requires 0 <= k < |persons| => persons[k]);
    assert oldKey[..] == persons;
    var before, after := AlignAuthors(latex, oldKey, ne.authors.value);
    if ne.title.None? {
      return KeyError, entry;
    }
    pick := Take(Chosen(key, persons, ne.authors.value, ne.title.value, ne.url));
    entry := Entry(key, before, after, latex(ne.title.value), ne.url);
  }

  /** `extract_names` over the two parsed bibliographies; `newBib` lists the new entries in file order. */
  method ExtractNames(latex: string -> string, oldBib: map<string, BibEntry>, newBib: seq<(string, BibEntry)>) returns (r: Extracted)
    ensures r == Extract(latex, oldBib, newBib)
  {
    var nameList: seq<Entry> := [];
    ghost var chosen: seq<Chosen> := [];
    for n := 0 to |newBib|
      invariant Selected(oldBib, newBib, n) == Some(chosen)
      invariant nameList == MakeEntries(latex, chosen)
    {
      var pick, entry := ExtractPaper(latex, oldBib, newBib[n].0, newBib[n].1);
      if pick.KeyError? {
        SelectionFailureStays(oldBib, newBib, n + 1, |newBib|);
        return MissingKey;
      }
      if pick.Take? {
        assert (chosen + [pick.chosen])[..|chosen|] == chosen;
        chosen := chosen + [pick.chosen];
        nameList := nameList + [entry];
      }
    }
    return Names(nameList);
  }

  lemma {:induction false} SelectionFailureStays(oldBib: map<string, BibEntry>, newBib: seq<(string, BibEntry)>, i: nat, n: nat)
    requires i <= n <= |newBib|
    requires Selected(oldBib, newBib, i).None?
    ensures Selected(oldBib, newBib, n).None?
    decreases n
  {
    if n > i {
      SelectionFailureStays(oldBib, newBib, i, n - 1);
    }
  }
}
