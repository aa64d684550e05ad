/** The fixed regular expressions of the tools, each written out as a matcher
    that says whether the pattern matches starting at one index, and Python's
    `re.findall` / `re.search` on top of it (leftmost match first, the scan
    resuming where the previous match ended). */
module Scanners {
  import opened Results
  import opened Text

  datatype Pattern =
    | HttpUrl                   // https?://[^\s<>"{}|\\^`\[\]]+
    | DoiName                   // 10\.\d{4,}/[^\s]+
    | YearNumber(wholeMatch: bool) // \b(19|20)\d{2}\b : group 1 for findall, the whole match for search().group()
    | ParenYear                 // \([^)]*\d{4}[^)]*\)
    | Word                      // \b\w+\b
    | Enclosed(mark: char)      // "([^"]+)"  \*([^*]+)\*  _([^_]+)_ : group 1
    | AuthorBefore(needle: string) // ([^.]+?)\s*\(<year>\) with needle = "(" + year + ")" : group 1

  /** A match ending at `end` (exclusive) whose reported text is `text`. */
  datatype Found = Found(end: nat, text: string)

  /** The characters the URL pattern accepts after the scheme. */
  predicate UrlChar(c: char) {
    !IsSpace(c) && c !in "<>\"{}|\\^`[]"
  }

  function UrlAt(s: string, i: nat): (r: Option<Found>)
    requires i < |s|
    ensures r.Some? ==> i < r.value.end <= |s| && r.value.text == s[i..r.value.end]
    ensures r.Some? ==> StartsWith(r.value.text, "http://") || StartsWith(r.value.text, "https://")
    ensures r.Some? ==> NoSpace(r.value.text)
  {
    var scheme := if OccursAt(s, "https://", i) then "https://" else "http://";
    if !OccursAt(s, scheme, i) then None
    else
      var e := SpanFrom(s, i + |scheme|, UrlChar);
      if e == i + |scheme| then None
      else
        SchemeThenUrlChars(s, i, scheme, e);
        Some(Found(e, s[i..e]))
  }

  /** A scheme followed by URL characters starts with that scheme and holds
      no whitespace. */
  lemma SchemeThenUrlChars(s: string, i: nat, scheme: string, e: nat)
    requires scheme == "https://" || scheme == "http://"
    requires OccursAt(s, scheme, i) && i + |scheme| <= e <= |s|
    requires forall k :: i + |scheme| <= k < e ==> UrlChar(s[k])
    ensures StartsWith(s[i..e], scheme) && NoSpace(s[i..e])
  {
    var t := s[i..e];
    assert t[..|scheme|] == s[i..i + |scheme|];
    forall c | c in t ensures !IsSpace(c) {
      var k :| 0 <= k < |t| && t[k] == c;
      if k < |scheme| {
        assert c == scheme[k];
      } else {
        assert UrlChar(s[i + k]);
      }
    }
  }

  function DoiAt(s: string, i: nat): (r: Option<Found>)
    requires i < |s|
    ensures r.Some? ==> i < r.value.end <= |s| && r.value.text == s[i..r.value.end]
    ensures r.Some? ==> StartsWith(r.value.text, "10.") && NoSpace(r.value.text)
  {
    if !OccursAt(s, "10.", i) then None
    else
      var d := SpanFrom(s, i + 3, IsDigit);
      if d - (i + 3) < 4 || d == |s| || s[d] != '/' then None
      else
        var e := SpanFrom(s, d + 1, NotSpace);
        if e == d + 1 then None
        else
          DoiText(s, i, d, e);
          Some(Found(e, s[i..e]))
  }

  /** "10.", digits, "/" and non-space characters make a text that starts
      with "10." and holds no whitespace. */
  lemma DoiText(s: string, i: nat, d: nat, e: nat)
    requires OccursAt(s, "10.", i) && i + 3 <= d < e <= |s| && s[d] == '/'
    requires forall k :: i + 3 <= k < d ==> IsDigit(s[k])
    requires forall k :: d + 1 <= k < e ==> NotSpace(s[k])
    ensures StartsWith(s[i..e], "10.") && NoSpace(s[i..e])
  {
    var t := s[i..e];
    assert t[..3] == s[i..i + 3];
    forall c | c in t ensures !IsSpace(c) {
      var k :| 0 <= k < |t| && t[k] == c;
      if k < 3 {
        assert c == "10."[k];
      } else if i + k < d {
        assert IsDigit(s[i + k]);
      } else if i + k > d {
        assert NotSpace(s[i + k]);
      }
    }
  }

  /** The regex matches the whole of `d`: `re.match(r'^10\.\d{4,}/[^\s]+$', d)`,
      where `$` also matches just before a final newline. */
  predicate DoiFormat(d: string) {
    |d| > 0 &&
    var m := DoiAt(d, 0);
    m.Some? && (m.value.end == |d| || (m.value.end == |d| - 1 && d[|d| - 1] == '\n'))
  }

  function YearAt(s: string, i: nat, wholeMatch: bool): (r: Option<Found>)
    requires i < |s|
    ensures r.Some? ==> r.value.end == i + 4 <= |s|
    ensures r.Some? ==> (s[i..i + 2] == "19" || s[i..i + 2] == "20") && IsDigit(s[i + 2]) && IsDigit(s[i + 3])
    ensures r.Some? ==> r.value.text == if wholeMatch then s[i..i + 4] else s[i..i + 2]
  {
    if i + 4 <= |s|
       && (s[i..i + 2] == "19" || s[i..i + 2] == "20")
       && IsDigit(s[i + 2]) && IsDigit(s[i + 3])
       && (i == 0 || !IsWordChar(s[i - 1]))
       && (i + 4 == |s| || !IsWordChar(s[i + 4]))
    then Some(Found(i + 4, if wholeMatch then s[i..i + 4] else s[i..i + 2]))
    else None
  }

  /** Four consecutive ASCII digits start at index `k` of `t`. */
  predicate FourDigitsAt(t: string, k: int) {
    0 <= k && k + 4 <= |t| && IsDigit(t[k]) && IsDigit(t[k + 1]) && IsDigit(t[k + 2]) && IsDigit(t[k + 3])
  }

  predicate HasFourDigits(t: string) {
    exists k | 0 <= k < |t| :: FourDigitsAt(t, k)
  }

  function ParenYearAt(s: string, i: nat): (r: Option<Found>)
    requires i < |s|
    ensures r.Some? ==> i < r.value.end <= |s| && r.value.text == s[i..r.value.end]
    ensures r.Some? ==> |r.value.text| >= 6 && r.value.text[0] == '(' && r.value.text[|r.value.text| - 1] == ')'
    ensures r.Some? ==> ')' !in r.value.text[..|r.value.text| - 1]
    ensures r.Some? ==> HasFourDigits(r.value.text)
  {
    if s[i] != '(' then None
    else
      match FindFrom(s, ")", i + 1)
      case None => None
      case Some(j) =>
        if !HasFourDigits(s[i + 1..j]) then None
        else
          var t := s[i..j + 1];
          ParenShape(s, i, j);
          Some(Found(j + 1, t))
  }

  /** The text from an opening parenthesis to the first closing one after it,
      with four digits inside, has the shape the pattern promises. */
  lemma ParenShape(s: string, i: nat, j: nat)
    requires i < j < |s| && s[i] == '('
    requires OccursAt(s, ")", j) && forall m :: i + 1 <= m < j ==> !OccursAt(s, ")", m)
    requires HasFourDigits(s[i + 1..j])
    ensures var t := s[i..j + 1];
      t[0] == '(' && t[|t| - 1] == ')' && ')' !in t[..|t| - 1] && HasFourDigits(t)
  {
    var t := s[i..j + 1];
    assert s[j..j + 1] == ")";
    forall k | 0 <= k < |t| - 1 ensures t[k] != ')' {
      if k > 0 {
        assert !OccursAt(s, ")", i + k);
        assert s[i + k..i + k + 1] == [s[i + k]];
      }
    }
    var k :| 0 <= k < |s[i + 1..j]| && FourDigitsAt(s[i + 1..j], k);
    assert FourDigitsAt(t, k + 1);
  }

  function WordAt(s: string, i: nat): (r: Option<Found>)
    requires i < |s|
    ensures r.Some? ==> i < r.value.end <= |s| && r.value.text == s[i..r.value.end]
    ensures r.Some? ==> forall c :: c in r.value.text ==> IsWordChar(c)
  {
    if !IsWordChar(s[i]) || (i > 0 && IsWordChar(s[i - 1])) then None
    else
      var e := SpanFrom(s, i, IsWordChar);
      Some(Found(e, s[i..e]))
  }

  function EnclosedAt(s: string, i: nat, mark: char): (r: Option<Found>)
    requires i < |s|
    ensures r.Some? ==> i + 2 < r.value.end <= |s| && s[i] == mark && s[r.value.end - 1] == mark
    ensures r.Some? ==> r.value.text == s[i + 1..r.value.end - 1]
    ensures r.Some? ==> r.value.text != [] && mark !in r.value.text
  {
    if s[i] != mark then None
    else
      var e := SpanFrom(s, i + 1, c => c != mark);
      if e == i + 1 || e == |s| then None
      else Some(Found(e + 1, s[i + 1..e]))
  }

  /** `([^.]+?)\s*\(Y\)` at `i`: with `p` the first occurrence of the needle
      after `i`, it matches when `s[i..p]` has no '.'; the lazy group stops where
      the whitespace in front of the needle begins, but keeps at least one
      character. */
  function AuthorAt(s: string, i: nat, needle: string): (r: Option<Found>)
    requires i < |s|
    ensures r.Some? ==> i < r.value.end <= |s|
    ensures r.Some? ==> '.' !in r.value.text
    ensures r.Some? ==> exists p :: i < p && OccursAt(s, needle, p) && r.value.text <= s[i..p]
  {
    match FindFrom(s, needle, i + 1)
    case None => None
    case Some(p) =>
      if '.' in s[i..p] then None
      else
        var k := SpanBack(s, i + 1, p, IsSpace);
        assert s[i..k] <= s[i..p];
        assert forall c :: c in s[i..k] ==> c in s[i..p];
        Some(Found(p + |needle|, s[i..k]))
  }

  /** Whether `p` matches starting exactly at index `i` of `s`, and what it reports. */
  function MatchAt(p: Pattern, s: string, i: nat): (r: Option<Found>)
    ensures r.Some? ==> i < r.value.end <= |s|
  {
    if i >= |s| then None
    else
      match p
      case HttpUrl => UrlAt(s, i)
      case DoiName => DoiAt(s, i)
      case YearNumber(whole) => YearAt(s, i, whole)
      case ParenYear => ParenYearAt(s, i)
      case Word => WordAt(s, i)
      case Enclosed(m) => EnclosedAt(s, i, m)
      case AuthorBefore(n) => AuthorAt(s, i, n)
  }

  /** `re.findall(p, s[i:])` evaluated on the whole string from index `i`. */
  function FindAll(p: Pattern, s: string, i: nat): seq<string>
    decreases |s| - i
  {
    if i >= |s| then []
    else
      match MatchAt(p, s, i)
      case Some(f) => [f.text] + FindAll(p, s, f.end)
      case None => FindAll(p, s, i + 1)
  }

  /** `re.search(p, s)`: the leftmost match, if any. */
  function Search(p: Pattern, s: string): Option<string>
  {
    var all := FindAll(p, s, 0);
    if all == [] then None else Some(all[0])
  }

  /** Every string `findall` returns is reported by a match at some index,
      which the lemma returns. */
  lemma {:induction false} FindAllSound(p: Pattern, s: string, i: nat, t: string) returns (j: nat)
    requires t in FindAll(p, s, i)
    ensures i <= j < |s| && MatchAt(p, s, j).Some? && MatchAt(p, s, j).value.text == t
    decreases |s| - i
  {
    match MatchAt(p, s, i)
    case Some(f) =>
      if t == f.text {
        j := i;
      } else {
        j := FindAllSound(p, s, f.end, t);
      }
    case None =>
      j := FindAllSound(p, s, i + 1, t);
  }

  /** What each pattern guarantees about a text it reports. */
  ghost predicate Shape(p: Pattern, t: string) {
    match p
    case HttpUrl => (StartsWith(t, "http://") || StartsWith(t, "https://")) && NoSpace(t)
    case DoiName => StartsWith(t, "10.") && NoSpace(t)
    case YearNumber(whole) =>
      if whole then |t| == 4 && (t[..2] == "19" || t[..2] == "20") && IsDigit(t[2]) && IsDigit(t[3])
      else t == "19" || t == "20"
    case ParenYear => |t| >= 6 && t[0] == '(' && t[|t| - 1] == ')' && HasFourDigits(t)
    case Word => t != [] && forall c :: c in t ==> IsWordChar(c)
    case Enclosed(m) => t != [] && m !in t
    case AuthorBefore(_) => '.' !in t
  }

  /** Every text `findall` reports has the shape its pattern promises. */
  lemma FoundHasShape(p: Pattern, s: string, i: nat, t: string)
    requires t in FindAll(p, s, i)
    ensures Shape(p, t)
  {
    var j := FindAllSound(p, s, i, t);
    MatchHasShape(p, s, j);
  }

  /** A match at one index has the shape its pattern promises. */
  lemma MatchHasShape(p: Pattern, s: string, j: nat)
    requires MatchAt(p, s, j).Some?
    ensures Shape(p, MatchAt(p, s, j).value.text)
  {
    if p == YearNumber(true) {
      WholeYearShape(s, j);
    }
  }

  lemma WholeYearShape(s: string, j: nat)
    requires MatchAt(YearNumber(true), s, j).Some?
    ensures Shape(YearNumber(true), MatchAt(YearNumber(true), s, j).value.text)
  {
    var t := MatchAt(YearNumber(true), s, j).value.text;
    assert t == s[j..j + 4];
    assert t[..2] == s[j..j + 2];
    assert t[2] == s[j + 2] && t[3] == s[j + 3];
  }

  /** The pattern matches at no index from `i` on. */
  ghost predicate NoMatchFrom(p: Pattern, s: string, i: nat) {
    forall j :: i <= j ==> MatchAt(p, s, j).None?
  }

  /** `j` is the leftmost index at or after `i` where the pattern matches. */
  ghost predicate LeftmostFrom(p: Pattern, s: string, i: nat, j: nat) {
    i <= j < |s| && MatchAt(p, s, j).Some? && forall m :: i <= m < j ==> MatchAt(p, s, m).None?
  }

  /** `findall` from `i` is empty exactly when the pattern matches at no index from `i` on;
      otherwise its first element is the text of the leftmost match. */
  lemma {:induction false} FindAllLeftmost(p: Pattern, s: string, i: nat)
    ensures FindAll(p, s, i) == [] <==> NoMatchFrom(p, s, i)
    ensures FindAll(p, s, i) != [] ==>
      exists j :: LeftmostFrom(p, s, i, j) && FindAll(p, s, i)[0] == MatchAt(p, s, j).value.text
    decreases |s| - i
  {
    if i >= |s| {
      assert NoMatchFrom(p, s, i);
    } else if MatchAt(p, s, i).Some? {
      LeftmostHere(p, s, i);
    } else {
      FindAllLeftmost(p, s, i + 1);
      LeftmostLater(p, s, i);
      if FindAll(p, s, i) != [] {
        var j :| LeftmostFrom(p, s, i + 1, j) && FindAll(p, s, i + 1)[0] == MatchAt(p, s, j).value.text;
        assert LeftmostFrom(p, s, i, j);
      }
    }
  }

  /** A match at `i` is the leftmost one from `i`, and `findall` reports it first. */
  lemma LeftmostHere(p: Pattern, s: string, i: nat)
    requires i < |s| && MatchAt(p, s, i).Some?
    ensures FindAll(p, s, i) != [] && !NoMatchFrom(p, s, i)
    ensures LeftmostFrom(p, s, i, i) && FindAll(p, s, i)[0] == MatchAt(p, s, i).value.text
  {
    var f := MatchAt(p, s, i).value;
    assert FindAll(p, s, i) == [f.text] + FindAll(p, s, f.end);
  }

  /** Without a match at `i`, the scan from `i` is the scan from `i + 1`, and
      the leftmost match from `i + 1` is the leftmost match from `i`. */
  lemma LeftmostLater(p: Pattern, s: string, i: nat)
    requires i < |s| && MatchAt(p, s, i).None?
    ensures FindAll(p, s, i) == FindAll(p, s, i + 1)
    ensures NoMatchFrom(p, s, i) <==> NoMatchFrom(p, s, i + 1)
    ensures forall j :: LeftmostFrom(p, s, i + 1, j) ==> LeftmostFrom(p, s, i, j)
  {
    NoMatchLater(p, s, i);
    forall j: nat | LeftmostFrom(p, s, i + 1, j) ensures LeftmostFrom(p, s, i, j) {
      LeftmostExtends(p, s, i, j);
    }
  }

  lemma NoMatchLater(p: Pattern, s: string, i: nat)
    requires MatchAt(p, s, i).None?
    ensures NoMatchFrom(p, s, i) <==> NoMatchFrom(p, s, i + 1)
  {
    if NoMatchFrom(p, s, i + 1) {
      forall j | i <= j ensures MatchAt(p, s, j).None? {
        if j > i { assert i + 1 <= j; }
      }
    }
  }

  lemma LeftmostExtends(p: Pattern, s: string, i: nat, j: nat)
    requires MatchAt(p, s, i).None? && LeftmostFrom(p, s, i + 1, j)
    ensures LeftmostFrom(p, s, i, j)
  {
    forall m | i <= m < j ensures MatchAt(p, s, m).None? {
      if m > i { assert i + 1 <= m; }
    }
  }

  /** `re.search` returns the leftmost match, and nothing when the pattern matches nowhere. */
  lemma SearchIsLeftmost(p: Pattern, s: string)
    ensures Search(p, s).None? <==> NoMatchFrom(p, s, 0)
    ensures Search(p, s).Some? ==>
      exists j :: LeftmostFrom(p, s, 0, j) && Search(p, s).value == MatchAt(p, s, j).value.text
  {
    FindAllLeftmost(p, s, 0);
  }
}
