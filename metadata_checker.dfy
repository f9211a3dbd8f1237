/**
  The problem detectors of the camera-ready metadata check
  (aclpubcheck/metadatachecker.py): each turns strings taken from the
  submission form and the first page of the PDF into a list of
  (problem type, text) pairs.
 */
module MetadataChecker {
  import opened Optional
  import opened Text

  datatype Problem = Problem(kind: string, text: string)

  // ---------------------------------------------------------------------------
  // _clean_str

  /** Curly quotes become straight quotes, en and em dashes become '-'. */
  function UncurlChar(c: char): char {
    if c == '‘' || c == '’' then '\''
    else if c == '“' || c == '”' then '"'
    else if c == '–' || c == '—' then '-'
    else c
  }

  predicate IsCurly(c: char) {
    c == '‘' || c == '’' || c == '“' || c == '”' || c == '–' || c == '—'
  }

  predicate NoCurly(s: string) {
    forall k :: 0 <= k < |s| ==> !IsCurly(s[k])
  }

  function Uncurl(s: string): (r: string)
    ensures |r| == |s|
    ensures forall k :: 0 <= k < |s| ==> r[k] == UncurlChar(s[k])
    ensures NoCurly(r)
    ensures NoCurly(s) ==> r == s
    decreases |s|
  {
    if s == [] then [] else [UncurlChar(s[0])] + Uncurl(s[1..])
  }

  /** A missing cell is the empty string; otherwise uncurled and stripped. */
  function CleanStr(value: Option<string>): (r: string)
    ensures value.None? ==> r == ""
    ensures NoCurly(r)
    ensures NoOuterSpace(r)
    ensures value.Some? ==> TrimmedTo(Uncurl(value.value), r)
  {
    if value.None? then "" else Cleaned(value.value)
  }

  function Cleaned(s: string): (r: string)
    ensures NoCurly(r)
    ensures NoOuterSpace(r)
    ensures TrimmedTo(Uncurl(s), r)
  {
    StrippedNoCurly(Uncurl(s));
    Strip(Uncurl(s))
  }

  lemma StrippedNoCurly(u: string)
    requires NoCurly(u)
    ensures NoCurly(Strip(u))
  {
    var r := Strip(u);
    assert CharsFrom(r, u);
    forall k | 0 <= k < |r| ensures !IsCurly(r[k]) {
      var j :| 0 <= j < |u| && u[j] == r[k];
    }
  }

  // ---------------------------------------------------------------------------
  // yield_copyright_problems

  /** A string of at least two whitespace-separated words has at least three characters. */
  lemma {:induction false} TwoWordsAreLong(s: string)
    ensures |Words(s)| >= 2 ==> |s| >= 3
    decreases |s|
  {
    if |Words(s)| < 2 {
    } else if IsSpace(s[0]) {
      TwoWordsAreLong(s[1..]);
    } else {
      var n := RunLength(s);
      assert Words(s) == [s[..n]] + Words(s[n..]);
      WordsNeedInk(s[n..]);
      var k :| 0 <= k < |s[n..]| && !IsSpace(s[n..][k]);
      assert k != 0;
    }
  }

  lemma {:induction false} WordsNeedInk(s: string)
    requires Words(s) != []
    ensures exists k :: 0 <= k < |s| && !IsSpace(s[k])
    decreases |s|
  {
    if IsSpace(s[0]) {
      WordsNeedInk(s[1..]);
      var k :| 0 <= k < |s[1..]| && !IsSpace(s[1..][k]);
      assert !IsSpace(s[k + 1]);
    } else {
      assert !IsSpace(s[0]);
    }
  }

  const SignatureMissing := Problem("COPYRIGHT", "The signature is missing.")
  const SignatureNA := Problem("COPYRIGHT", "The signature \"NA\" must be accompanied by a \"License to Publish\" or equivalent.")
  const OrgNameMissing := Problem("COPYRIGHT", "The organization name is missing.")
  const OrgAddressMissing := Problem("COPYRIGHT", "The organization address is missing.")

  function SignatureProblem(signature: string): (p: Option<Problem>)
    ensures p.Some? ==> p.value.kind == "COPYRIGHT"
    ensures p.None? <==> signature != "" && signature != "NA" && |Words(signature)| >= 2
    ensures signature == "" ==> p == Some(SignatureMissing)
    ensures signature == "NA" ==>
              p == Some(SignatureNA)
    ensures signature != "" && signature != "NA" && p.Some? ==>
              p.value.text == "The signature \"" + signature + "\" does not appear to be a full name."
  {
    TwoWordsAreLong(signature);
    if signature == "" then Some(SignatureMissing)
    else if signature == "NA" then
      Some(SignatureNA)
    else if |signature| < 3 || |Words(signature)| < 2 then
      Some(Problem("COPYRIGHT", "The signature \"" + signature + "\" does not appear to be a full name."))
    else None
  }

  function OrgNameProblem(orgName: string): (p: Option<Problem>)
    ensures p.Some? ==> p.value.kind == "COPYRIGHT"
    ensures p.None? <==> orgName != "" && (|orgName| >= 5 || orgName == "IBM")
    ensures orgName == "" ==> p == Some(OrgNameMissing)
    ensures orgName != "" && p.Some? ==>
              p.value.text == "The organization name \"" + orgName + "\" does not appear to be a full name. "
  {
    if orgName == "" then Some(OrgNameMissing)
    else if |orgName| < 5 && orgName != "IBM" then
      Some(Problem("COPYRIGHT", "The organization name \"" + orgName + "\" does not appear to be a full name. "))
    else None
  }

  function OrgAddressProblem(orgAddress: string): (p: Option<Problem>)
    ensures p.Some? ==> p.value.kind == "COPYRIGHT"
    ensures p.None? <==> orgAddress != "" && |Words(orgAddress)| >= 2
    ensures orgAddress == "" ==> p == Some(OrgAddressMissing)
    ensures orgAddress != "" && p.Some? ==>
              p.value.text == "The organization address \"" + ReplaceAll(orgAddress, "\n", " ")
                              + "\" does not appear to be a complete physical address."
  {
    TwoWordsAreLong(orgAddress);
    if orgAddress == "" then Some(OrgAddressMissing)
    else if |orgAddress| < 3 || |Words(orgAddress)| < 2 then
      Some(Problem("COPYRIGHT", "The organization address \"" + ReplaceAll(orgAddress, "\n", " ")
                                + "\" does not appear to be a complete physical address."))
    else None
  }

  function Listed(p: Option<Problem>): (r: seq<Problem>)
    ensures p.None? ==> r == []
    ensures p.Some? ==> r == [p.value]
  {
    if p.Some? then [p.value] else []
  }

  /**
    `ps` holds one problem per present one of `a`, `b`, `c` and no other,
    `a`'s first, `b`'s right after it and `c`'s last.
   */
  predicate ListedInOrder(a: Option<Problem>, b: Option<Problem>, c: Option<Problem>, ps: seq<Problem>) {
    && |ps| == |Listed(a)| + |Listed(b)| + |Listed(c)|
    && (a.Some? ==> ps[0] == a.value)
    && (b.Some? ==> ps[|Listed(a)|] == b.value)
    && (c.Some? ==> ps[|ps| - 1] == c.value)
  }

  /** Three optional problems of one kind, listed in order. */
  lemma ListedThree(a: Option<Problem>, b: Option<Problem>, c: Option<Problem>, kind: string)
    requires a.Some? ==> a.value.kind == kind
    requires b.Some? ==> b.value.kind == kind
    requires c.Some? ==> c.value.kind == kind
    ensures |Listed(a) + Listed(b) + Listed(c)| <= 3
    ensures forall k :: 0 <= k < |Listed(a) + Listed(b) + Listed(c)| ==> (Listed(a) + Listed(b) + Listed(c))[k].kind == kind
    ensures Listed(a) + Listed(b) + Listed(c) == [] <==> a.None? && b.None? && c.None?
    ensures a.Some? ==> (Listed(a) + Listed(b) + Listed(c))[0] == a.value
    ensures c.Some? ==> (Listed(a) + Listed(b) + Listed(c))[|Listed(a) + Listed(b) + Listed(c)| - 1] == c.value
    ensures ListedInOrder(a, b, c, Listed(a) + Listed(b) + Listed(c))
  {
  }

  /**
    The copyright form: at most one problem per field, in the order
    signature, organisation name, organisation address, all typed COPYRIGHT.
   */
  function CopyrightProblems(signature: string, orgName: string, orgAddress: string): (ps: seq<Problem>)
    ensures |ps| <= 3
    ensures forall k :: 0 <= k < |ps| ==> ps[k].kind == "COPYRIGHT"
    ensures ps == [] <==>
              (&& signature != "" && signature != "NA" && |Words(signature)| >= 2
               && orgName != "" && (|orgName| >= 5 || orgName == "IBM")
               && orgAddress != "" && |Words(orgAddress)| >= 2)
    ensures signature == "" ==> |ps| >= 1 && ps[0] == SignatureMissing
    ensures orgAddress == "" ==> |ps| >= 1 && ps[|ps| - 1] == OrgAddressMissing
    ensures ListedInOrder(SignatureProblem(signature), OrgNameProblem(orgName), OrgAddressProblem(orgAddress), ps)
  {
    var sig, org, addr := SignatureProblem(signature), OrgNameProblem(orgName), OrgAddressProblem(orgAddress);
    ListedThree(sig, org, addr, "COPYRIGHT");
    Listed(sig) + Listed(org) + Listed(addr)
  }

  // ---------------------------------------------------------------------------
  // yield_title_problems

  predicate IsTitleNoise(c: char) {
    IsSpace(c) || c == '{' || c == '}' || c == '$' || c == '^'
  }

  function DropNoise(s: string): (r: string)
    ensures |r| <= |s|
    ensures forall k :: 0 <= k < |r| ==> !IsTitleNoise(r[k])
    decreases |s|
  {
    if s == [] then []
    else (if IsTitleNoise(s[0]) then [] else [s[0]]) + DropNoise(s[1..])
  }

  /** The characters the title must show: "--" becomes "-", then white space and `{}$^` are dropped. */
  function TitleChars(title: string): (cs: string)
    ensures forall k :: 0 <= k < |cs| ==> !IsTitleNoise(cs[k])
  {
    DropNoise(ReplaceAll(title, "--", "-"))
  }

  /** Case-insensitive equality of one character, as the regular expression's IGNORECASE flag does for ASCII. */
  predicate SameLetter(a: char, b: char) {
    LowerChar(a) == LowerChar(b)
  }

  /** The first index at or after `i` that is not white space. */
  function SkipSpaces(text: string, i: nat): (j: nat)
    requires i <= |text|
    ensures i <= j <= |text|
    ensures forall k :: i <= k < j ==> IsSpace(text[k])
    ensures j < |text| ==> !IsSpace(text[j])
    decreases |text| - i
  {
    if i < |text| && IsSpace(text[i]) then SkipSpaces(text, i + 1) else i
  }

  /** `cs` matches at `i`: each character in turn, only white space between consecutive ones. */
  predicate TitleMatchAt(text: string, i: nat, cs: string)
    requires i <= |text|
    decreases |cs|
  {
    cs == [] || (i < |text| && SameLetter(text[i], cs[0]) && TitleMatchAt(text, SkipSpaces(text, i + 1), cs[1..]))
  }

  /** `re.search`: some start position matches. */
  predicate TitleSearchFrom(text: string, i: nat, cs: string)
    requires i <= |text|
    decreases |text| - i
  {
    TitleMatchAt(text, i, cs) || (i < |text| && TitleSearchFrom(text, i + 1, cs))
  }

  /**
    The declarative reading: `pos` lists, in increasing order, where the
    characters of `cs` appear in `text`, with only white space between
    consecutive ones.
   */
  predicate Spelled(text: string, cs: string, pos: seq<nat>) {
    && |pos| == |cs|
    && (forall k :: 0 <= k < |pos| ==> pos[k] < |text| && SameLetter(text[pos[k]], cs[k]))
    && (forall k :: 0 <= k < |pos| - 1 ==> pos[k] < pos[k + 1])
    && (forall k, m :: 0 <= k < |pos| - 1 && pos[k] < m < pos[k + 1] ==> IsSpace(text[m]))
  }

  lemma NoiseFreeNotSpace(a: char, c: char)
    requires SameLetter(a, c) && !IsSpace(c)
    ensures !IsSpace(a)
  {
  }

  /** Spelling `cs` is spelling its first character at `i`, then the rest after white space. */
  lemma SpelledCons(text: string, cs: string, i: nat, rest: seq<nat>)
    requires cs != [] && Spelled(text, cs[1..], rest)
    requires i < |text| && SameLetter(text[i], cs[0])
    requires rest != [] ==> i < rest[0] && forall m :: i < m < rest[0] ==> IsSpace(text[m])
    ensures Spelled(text, cs, [i] + rest)
  {
    var pos := [i] + rest;
    forall k | 0 <= k < |pos| ensures pos[k] < |text| && SameLetter(text[pos[k]], cs[k]) {
      if k > 0 {
        assert pos[k] == rest[k - 1] && cs[k] == cs[1..][k - 1];
      }
    }
    forall k | 0 <= k < |pos| - 1 ensures pos[k] < pos[k + 1] {
      if k > 0 {
        assert pos[k] == rest[k - 1] && pos[k + 1] == rest[k];
      }
    }
    forall k, m | 0 <= k < |pos| - 1 && pos[k] < m < pos[k + 1]
      ensures IsSpace(text[m])
    {
      if k > 0 {
        assert pos[k] == rest[k - 1] && pos[k + 1] == rest[k];
      }
    }
  }

  /** A successful match at `i` spells the characters out from `i`. */
  lemma {:induction false} TitleMatchSpells(text: string, i: nat, cs: string)
    requires i <= |text| && cs != [] && TitleMatchAt(text, i, cs)
    ensures exists pos :: Spelled(text, cs, pos) && pos[0] == i
    decreases |cs|
  {
    if |cs| == 1 {
      assert Spelled(text, cs, [i]);
    } else {
      var j := SkipSpaces(text, i + 1);
      TitleMatchSpells(text, j, cs[1..]);
      var rest :| Spelled(text, cs[1..], rest) && rest[0] == j;
      SpelledCons(text, cs, i, rest);
      assert ([i] + rest)[0] == i;
    }
  }

  /** Characters spelled out from `i` are found by the matcher at `i`: skipping white space greedily loses nothing. */
  lemma {:induction false} SpelledTitleMatches(text: string, cs: string, pos: seq<nat>)
    requires forall k :: 0 <= k < |cs| ==> !IsSpace(cs[k])
    requires cs != [] && Spelled(text, cs, pos)
    ensures TitleMatchAt(text, pos[0], cs)
    decreases |cs|
  {
    if |cs| > 1 {
      var j := SkipSpaces(text, pos[0] + 1);
      NoiseFreeNotSpace(text[pos[1]], cs[1]);
      assert j == pos[1];
      var rest := pos[1..];
      assert Spelled(text, cs[1..], rest);
      SpelledTitleMatches(text, cs[1..], rest);
    }
  }

  lemma TitleMatchAtIff(text: string, i: nat, cs: string)
    requires i <= |text|
    requires forall k :: 0 <= k < |cs| ==> !IsSpace(cs[k])
    requires cs != []
    ensures TitleMatchAt(text, i, cs) <==> exists pos :: Spelled(text, cs, pos) && pos[0] == i
  {
    if TitleMatchAt(text, i, cs) {
      TitleMatchSpells(text, i, cs);
    }
    if exists pos :: Spelled(text, cs, pos) && pos[0] == i {
      var pos :| Spelled(text, cs, pos) && pos[0] == i;
      SpelledTitleMatches(text, cs, pos);
    }
  }

  lemma {:induction false} TitleSearchFromIff(text: string, i: nat, cs: string)
    requires i <= |text|
    requires forall k :: 0 <= k < |cs| ==> !IsSpace(cs[k])
    requires cs != []
    ensures TitleSearchFrom(text, i, cs) <==> exists pos :: Spelled(text, cs, pos) && pos[0] >= i
    decreases |text| - i
  {
    TitleMatchAtIff(text, i, cs);
    if i < |text| {
      TitleSearchFromIff(text, i + 1, cs);
    }
    if exists pos :: Spelled(text, cs, pos) && pos[0] >= i {
      var pos :| Spelled(text, cs, pos) && pos[0] >= i;
      assert pos[0] == i || pos[0] >= i + 1;
    }
  }

  /**
    The title is found iff its characters (after normalisation) appear in the
    text in order, ignoring case, with only white space between consecutive
    characters. An empty normalised title is always found.
   */
  lemma TitleFoundIff(title: string, text: string)
    ensures var cs := TitleChars(title);
            TitleSearchFrom(text, 0, cs) <==> cs == [] || exists pos :: Spelled(text, cs, pos)
  {
    var cs := TitleChars(title);
    if cs != [] {
      TitleSearchFromIff(text, 0, cs);
    }
  }

  function TitleProblems(title: string, text: string): (ps: seq<Problem>)
    ensures |ps| <= 1
    ensures ps == [] <==> TitleSearchFrom(text, 0, TitleChars(title))
    ensures ps != [] ==> ps[0] == Problem("TITLE", "meta=\"" + title + "\"\npdf =\"" + text + "\"")
  {
    if TitleSearchFrom(text, 0, TitleChars(title)) then []
    else [Problem("TITLE", "meta=\"" + title + "\"\npdf =\"" + text + "\"")]
  }

  // ---------------------------------------------------------------------------
  // yield_author_problems

  /** The leftmost occurrence of `sub` in `text` at or after `i`. */
  function FirstOccurrence(text: string, sub: string, i: nat): (j: Option<nat>)
    ensures j.Some? ==> i <= j.value && OccursAt(text, sub, j.value)
    ensures j.Some? ==> forall k :: i <= k < j.value ==> !OccursAt(text, sub, k)
    ensures j.None? ==> forall k :: i <= k ==> !OccursAt(text, sub, k)
    decreases |text| - i
  {
    if i + |sub| > |text| then None
    else if text[i..i + |sub|] == sub then Some(i)
    else FirstOccurrence(text, sub, i + 1)
  }

  /**
    `'.*?'.join(names)` searched from `i`: each name at its leftmost
    occurrence after the previous one, anything in between.
   */
  predicate NamesFrom(text: string, names: seq<string>, i: nat)
    decreases |names|
  {
    names == [] ||
    match FirstOccurrence(text, names[0], i)
    case None => false
    case Some(j) => NamesFrom(text, names[1..], j + |names[0]|)
  }

  /** The declarative reading: non-overlapping occurrences, in the given order. */
  predicate InOrder(text: string, names: seq<string>, pos: seq<nat>) {
    && |pos| == |names|
    && (forall k :: 0 <= k < |pos| ==> OccursAt(text, names[k], pos[k]))
    && (forall k :: 0 <= k < |pos| - 1 ==> pos[k] + |names[k]| <= pos[k + 1])
  }

  /** Searching from an earlier position can only help. */
  lemma {:induction false} NamesFromMonotone(text: string, names: seq<string>, i: nat, i': nat)
    requires i' <= i && NamesFrom(text, names, i)
    ensures NamesFrom(text, names, i')
    decreases |names|
  {
    if names != [] {
      var j := FirstOccurrence(text, names[0], i).value;
      var j' := FirstOccurrence(text, names[0], i').value;
      assert j' <= j;
      NamesFromMonotone(text, names[1..], j + |names[0]|, j' + |names[0]|);
    }
  }

  /** A successful search from `i` yields ordered occurrences starting at or after `i`. */
  lemma {:induction false} NamesFromOccur(text: string, names: seq<string>, i: nat)
    requires names != [] && NamesFrom(text, names, i)
    ensures exists pos :: InOrder(text, names, pos) && pos[0] >= i
    decreases |names|
  {
    var j := FirstOccurrence(text, names[0], i).value;
    if |names| == 1 {
      assert InOrder(text, names, [j]);
    } else {
      NamesFromOccur(text, names[1..], j + |names[0]|);
      var rest :| InOrder(text, names[1..], rest) && rest[0] >= j + |names[0]|;
      var pos := [j] + rest;
      assert forall k :: 1 <= k < |pos| ==> pos[k] == rest[k - 1];
      assert InOrder(text, names, pos);
    }
  }

  /** Ordered occurrences starting at or after `i` are found by the leftmost search from `i`. */
  lemma {:induction false} OccurNamesFrom(text: string, names: seq<string>, pos: seq<nat>, i: nat)
    requires names != [] && InOrder(text, names, pos) && pos[0] >= i
    ensures NamesFrom(text, names, i)
    decreases |names|
  {
    var j := FirstOccurrence(text, names[0], i);
    assert OccursAt(text, names[0], pos[0]);
    assert j.Some? && j.value <= pos[0];
    if |names| > 1 {
      var rest := pos[1..];
      InOrderTail(text, names, pos);
      OccurNamesFrom(text, names[1..], rest, pos[0] + |names[0]|);
      NamesFromMonotone(text, names[1..], pos[0] + |names[0]|, j.value + |names[0]|);
    }
  }

  /** The occurrences after the first are those of the remaining names. */
  lemma InOrderTail(text: string, names: seq<string>, pos: seq<nat>)
    requires |names| > 1 && InOrder(text, names, pos)
    ensures InOrder(text, names[1..], pos[1..]) && pos[0] + |names[0]| <= pos[1..][0]
  {
    var rest := pos[1..];
    forall k | 0 <= k < |rest| ensures OccursAt(text, names[1..][k], rest[k]) {
      assert names[1..][k] == names[k + 1] && rest[k] == pos[k + 1];
    }
    forall k | 0 <= k < |rest| - 1 ensures rest[k] + |names[1..][k]| <= rest[k + 1] {
      assert names[1..][k] == names[k + 1] && rest[k] == pos[k + 1] && rest[k + 1] == pos[k + 2];
    }
  }

  lemma NamesFromIff(text: string, names: seq<string>, i: nat)
    requires names != []
    ensures NamesFrom(text, names, i) <==> exists pos :: InOrder(text, names, pos) && pos[0] >= i
  {
    if NamesFrom(text, names, i) {
      NamesFromOccur(text, names, i);
    }
    if exists pos :: InOrder(text, names, pos) && pos[0] >= i {
      var pos :| InOrder(text, names, pos) && pos[0] >= i;
      OccurNamesFrom(text, names, pos, i);
    }
  }

  /** The names are found iff they occur in the text in order, without overlapping; no names are always found. */
  lemma AuthorsFoundIff(names: seq<string>, text: string)
    ensures NamesFrom(text, names, 0) <==> names == [] || exists pos :: InOrder(text, names, pos)
  {
    if names != [] {
      NamesFromIff(text, names, 0);
    }
  }

  /**
    The author check. `loose` stands for the fallback search that ignores
    case, punctuation and accents: the span of its match, if any.
   */
  function AuthorProblems(names: seq<string>, text: string, loose: Option<(nat, nat)>): (ps: seq<Problem>)
    ensures |ps| <= 1
    ensures ps == [] <==> NamesFrom(text, names, 0)
    ensures ps != [] ==> ps[0].kind == (if loose.Some? then "AUTHOR-MISMATCH-CASE-PUNCT-ACCENT" else "AUTHOR-MISMATCH")
    ensures ps != [] && loose.None? ==> ps[0].text == "meta=\"" + Join(" ", names) + "\"\npdf =\"" + text + "\""
  {
    if NamesFrom(text, names, 0) then []
    else
      match loose
      case Some((start, end)) =>
        [Problem("AUTHOR-MISMATCH-CASE-PUNCT-ACCENT", "meta=\"" + Join(" ", names) + "\"\npdf =\"" + Slice(text, start, end) + "\"")]
      case None =>
        [Problem("AUTHOR-MISMATCH", "meta=\"" + Join(" ", names) + "\"\npdf =\"" + text + "\"")]
  }

  // ---------------------------------------------------------------------------
  // check_metadata: one row of the submission sheet

  datatype NamePart = First | Middle | Last

  function PartLabel(x: NamePart): string {
    match x
    case First => "First"
    case Middle => "Middle"
    case Last => "Last"
  }

  /** The sheet column of part `x` of author `i`, e.g. "3: Middle Name". */
  function Column(i: nat, x: NamePart): string {
    NatToString(i) + ": " + PartLabel(x) + " Name"
  }

  const Parts: seq<NamePart> := [First, Middle, Last]

  /** The words one cell contributes: none when the cleaned value is empty. */
  function PartWords(cell: Option<string>): seq<string> {
    var part := CleanStr(cell);
    if part != "" then Words(part) else []
  }

  /** The words of parts `Parts[..m]` of author `i`; None when a column is missing. */
  function AuthorWords(row: map<string, Option<string>>, i: nat, m: nat): Option<seq<string>>
    requires m <= |Parts|
    decreases m
  {
    if m == 0 then Some([])
    else
      match AuthorWords(row, i, m - 1)
      case None => None
      case Some(ws) =>
        var col := Column(i, Parts[m - 1]);
        if col in row then Some(ws + PartWords(row[col])) else None
  }

  /** The words of authors 1 .. n; None when a column is missing (a KeyError). */
  function NamesOf(row: map<string, Option<string>>, n: nat): Option<seq<string>>
    decreases n
  {
    if n == 0 then Some([])
    else
      match NamesOf(row, n - 1)
      case None => None
      case Some(ws) =>
        match AuthorWords(row, n, |Parts|)
        case None => None
        case Some(more) => Some(ws + more)
  }

  /** The number of authors whose names are read. */
  const MaxAuthors: nat := 24

  /** The name-collection loop: authors 1 .. 24, parts First, Middle, Last. */
  method CollectNames(row: map<string, Option<string>>) returns (names: Option<seq<string>>)
    ensures names == NamesOf(row, MaxAuthors)
  {
    var collected: seq<string> := [];
    for i := 1 to MaxAuthors + 1
      invariant NamesOf(row, i - 1) == Some(collected)
    {
      var more := CollectAuthor(row, i);
      if more.None? {
        MissingColumnFails(row, i, MaxAuthors);
        return None;
      }
      collected := collected + more.value;
    }
    names := Some(collected);
  }

  /** The inner loop for author `i`: its three name parts, in order. */
  method CollectAuthor(row: map<string, Option<string>>, i: nat) returns (words: Option<seq<string>>)
    ensures words == AuthorWords(row, i, |Parts|)
  {
    var collected: seq<string> := [];
    for m := 0 to |Parts|
      invariant AuthorWords(row, i, m) == Some(collected)
    {
      var col := Column(i, Parts[m]);
      AuthorWordsNext(row, i, m);
      if col !in row {
        AuthorFailureStays(row, i, m + 1);
        return None;
      }
      collected := collected + PartWords(row[col]);
    }
    words := Some(collected);
  }

  /** One more name part: its words are appended, or the missing column is a failure. */
  lemma AuthorWordsNext(row: map<string, Option<string>>, i: nat, m: nat)
    requires m < |Parts|
    ensures AuthorWords(row, i, m + 1)
            == if AuthorWords(row, i, m).None? || Column(i, Parts[m]) !in row then None
               else Some(AuthorWords(row, i, m).value + PartWords(row[Column(i, Parts[m])]))
  {
  }

  lemma {:induction false} AuthorFailureStays(row: map<string, Option<string>>, i: nat, m: nat)
    requires 1 <= m <= |Parts| && AuthorWords(row, i, m).None?
    ensures AuthorWords(row, i, |Parts|).None?
    decreases |Parts| - m
  {
    if m < |Parts| {
      AuthorFailureStays(row, i, m + 1);
    }
  }

  /** One more author: its words are appended, or a missing column is a failure. */
  lemma NamesOfNext(row: map<string, Option<string>>, n: nat)
    ensures NamesOf(row, n + 1)
            == if NamesOf(row, n).None? || AuthorWords(row, n + 1, |Parts|).None? then None
               else Some(NamesOf(row, n).value + AuthorWords(row, n + 1, |Parts|).value)
  {
  }

  /** A missing column of author `i` makes every later prefix fail as well. */
  lemma {:induction false} MissingColumnFails(row: map<string, Option<string>>, i: nat, n: nat)
    requires 1 <= i <= n
    requires AuthorWords(row, i, |Parts|).None? || NamesOf(row, i - 1).None?
    ensures NamesOf(row, n).None?
    decreases n
  {
    NamesOfNext(row, n - 1);
    if n > i {
      MissingColumnFails(row, i, n - 1);
    }
  }

  /** The words of author `i` depend only on the author's own columns. */
  lemma {:induction false} AuthorWordsAgree(row: map<string, Option<string>>, row': map<string, Option<string>>, i: nat, m: nat)
    requires m <= |Parts|
    requires forall x :: Column(i, x) in row <==> Column(i, x) in row'
    requires forall x :: Column(i, x) in row ==> row[Column(i, x)] == row'[Column(i, x)]
    ensures AuthorWords(row, i, m) == AuthorWords(row', i, m)
    decreases m
  {
    if m > 0 {
      AuthorWordsAgree(row, row', i, m - 1);
      AuthorWordsNext(row, i, m - 1);
      AuthorWordsNext(row', i, m - 1);
    }
  }

  /** Only the columns of authors 1 .. n are read: other columns never change the names. */
  lemma {:induction false} NamesIgnoreLaterAuthors(row: map<string, Option<string>>, row': map<string, Option<string>>, n: nat)
    requires forall i, x :: 1 <= i <= n ==> (Column(i, x) in row <==> Column(i, x) in row')
    requires forall i, x :: 1 <= i <= n && Column(i, x) in row ==> row[Column(i, x)] == row'[Column(i, x)]
    ensures NamesOf(row, n) == NamesOf(row', n)
    decreases n
  {
    if n > 0 {
      NamesIgnoreLaterAuthors(row, row', n - 1);
      AuthorWordsAgree(row, row', n, |Parts|);
      NamesOfNext(row, n - 1);
      NamesOfNext(row', n - 1);
    }
  }

  /** The 25th author's columns are never read. */
  lemma TwentyFifthAuthorIgnored(row: map<string, Option<string>>, x: NamePart, v: Option<string>)
    ensures NamesOf(row[Column(25, x) := v], MaxAuthors) == NamesOf(row, MaxAuthors)
  {
    var row' := row[Column(25, x) := v];
    forall i, y | 1 <= i <= MaxAuthors
      ensures Column(i, y) != Column(25, x)
    {
      ColumnInjective(i, y, 25, x);
    }
    NamesIgnoreLaterAuthors(row', row, MaxAuthors);
  }

  /** `str(i)` below 100: one or two digits. */
  lemma SmallNatToString(i: nat)
    requires i < 100
    ensures NatToString(i) == if i < 10 then [DigitChar(i)] else [DigitChar(i / 10), DigitChar(i % 10)]
  {
    if i >= 10 {
      assert NatToString(i / 10) == [DigitChar(i / 10)];
    }
  }

  /** A column name starts with the author number and a colon. */
  lemma ColumnStart(i: nat, x: NamePart)
    ensures |NatToString(i)| < |Column(i, x)|
    ensures Column(i, x)[..|NatToString(i)|] == NatToString(i)
    ensures Column(i, x)[|NatToString(i)|] == ':'
  {
    var a := NatToString(i);
    assert Column(i, x) == a + (": " + PartLabel(x) + " Name");
  }

  /** Different authors (below 100) have different columns. */
  lemma ColumnInjective(i: nat, x: NamePart, j: nat, y: NamePart)
    requires i != j && 1 <= i < 100 && 1 <= j < 100
    ensures Column(i, x) != Column(j, y)
  {
    var a, b := NatToString(i), NatToString(j);
    SmallNatToString(i);
    SmallNatToString(j);
    ColumnStart(i, x);
    ColumnStart(j, y);
    if |a| == |b| {
      if i < 10 {
        assert a[0] != b[0];
      } else if i / 10 == j / 10 {
        assert a[1] != b[1];
      } else {
        assert a[0] != b[0];
      }
      assert Column(i, x)[..|a|] != Column(j, y)[..|b|];
    } else if |a| < |b| {
      assert Column(i, x)[|a|] == ':' != b[|a|] == Column(j, y)[|a|];
    } else {
      assert Column(j, y)[|b|] == ':' != a[|b|] == Column(i, x)[|b|];
    }
  }

  /** The position of a problem's kind in a row's report: authors, then title, then copyright. */
  function KindRank(kind: string): nat {
    if kind == "TITLE" then 1 else if kind == "COPYRIGHT" then 2 else 0
  }

  /** The problems of a row, sorted by kind: author problems first, then the title, then the copyright. */
  predicate RankedByKind(ps: seq<Problem>) {
    forall j, k :: 0 <= j < k < |ps| ==> KindRank(ps[j].kind) <= KindRank(ps[k].kind)
  }

  /** Some problem of `ps` has a kind of rank `rank`. */
  predicate HasRank(ps: seq<Problem>, rank: nat) {
    exists k :: 0 <= k < |ps| && KindRank(ps[k].kind) == rank
  }

  /** Everything one row of the sheet yields, in order: authors, title, copyright. */
  function RowProblems(names: seq<string>, firstPageText: string, title: Option<string>, signature: Option<string>,
                       orgName: Option<string>, orgAddress: Option<string>, loose: Option<(nat, nat)>): (ps: seq<Problem>)
    ensures |ps| <= 5
    ensures RankedByKind(ps)
    ensures var text := CleanStr(Some(Slice(firstPageText, 0, 500)));
            && (HasRank(ps, 0) <==> !NamesFrom(text, names, 0))
            && (HasRank(ps, 1) <==> !TitleSearchFrom(text, 0, TitleChars(CleanStr(title))))
            && (HasRank(ps, 2) <==> CopyrightProblems(CleanStr(signature), CleanStr(orgName), CleanStr(orgAddress)) != [])
  {
    var text := CleanStr(Some(Slice(firstPageText, 0, 500)));
    var a := AuthorProblems(names, text, loose);
    var b := TitleProblems(CleanStr(title), text);
    var c := CopyrightProblems(CleanStr(signature), CleanStr(orgName), CleanStr(orgAddress));
    AuthorRank(names, text, loose);
    TitleRank(CleanStr(title), text);
    CopyrightRank(CleanStr(signature), CleanStr(orgName), CleanStr(orgAddress));
    RankedConcat(a, b, c);
    a + b + c
  }

  lemma AuthorRank(names: seq<string>, text: string, loose: Option<(nat, nat)>)
    ensures forall k :: 0 <= k < |AuthorProblems(names, text, loose)| ==> KindRank(AuthorProblems(names, text, loose)[k].kind) == 0
  {
    var a := AuthorProblems(names, text, loose);
    if a != [] {
      assert |a[0].kind| > 9;
    }
  }

  lemma TitleRank(title: string, text: string)
    ensures forall k :: 0 <= k < |TitleProblems(title, text)| ==> KindRank(TitleProblems(title, text)[k].kind) == 1
  {
  }

  lemma CopyrightRank(signature: string, orgName: string, orgAddress: string)
    ensures var c := CopyrightProblems(signature, orgName, orgAddress);
            forall k :: 0 <= k < |c| ==> KindRank(c[k].kind) == 2
  {
  }

  lemma RankedConcat(a: seq<Problem>, b: seq<Problem>, c: seq<Problem>)
    requires forall k :: 0 <= k < |a| ==> KindRank(a[k].kind) == 0
    requires forall k :: 0 <= k < |b| ==> KindRank(b[k].kind) == 1
    requires forall k :: 0 <= k < |c| ==> KindRank(c[k].kind) == 2
    ensures RankedByKind(a + b + c)
    ensures HasRank(a + b + c, 0) <==> a != []
    ensures HasRank(a + b + c, 1) <==> b != []
    ensures HasRank(a + b + c, 2) <==> c != []
  {
    var ps := a + b + c;
    assert forall k :: 0 <= k < |ps| ==> KindRank(ps[k].kind) == if k < |a| then 0 else if k < |a| + |b| then 1 else 2;
    if a != [] { assert KindRank(ps[0].kind) == 0; }
    if b != [] { assert KindRank(ps[|a|].kind) == 1; }
    if c != [] { assert KindRank(ps[|a| + |b|].kind) == 2; }
  }
}
