/** The citation validator tool: splitting a block of text into citations,
    extracting each citation's components with fixed regular expressions,
    scoring them against the style's required components, checking the URL,
    formatting the citation in APA, MLA or Chicago style, and summarising the
    run with recommendations. The HTTP probe and the clock are parameters. */
module CitationValidator {
  import opened Results
  import opened Text
  import opened Scanners
  import opened Stats

  // ---------------------------------------------------------------------------
  // Splitting the input into citations

  /** The separators tried in turn, each applied to every piece so far. */
  const Separators: seq<string> := ["\n\n", "\n\U{2022}", "\n-", "\n1.", "\n2.", "\n3."]

  predicate NonEmptySeparators(seps: seq<string>) {
    forall k :: 0 <= k < |seps| ==> seps[k] != []
  }

  /** Every piece split by `sep`, the pieces of each kept in order. */
  function SplitEach(pieces: seq<string>, sep: string): seq<string>
    requires sep != []
  {
    if pieces == [] then [] else SplitEach(pieces[..|pieces| - 1], sep) + Split(pieces[|pieces| - 1], sep)
  }

  /** The pieces after splitting by each separator of `seps` in order. */
  function SplitAll(pieces: seq<string>, seps: seq<string>): seq<string>
    requires NonEmptySeparators(seps)
    decreases |seps|
  {
    if seps == [] then pieces else SplitAll(SplitEach(pieces, seps[0]), seps[1..])
  }

  /** The stripped pieces longer than 20 characters, in order. */
  function Cleaned(pieces: seq<string>): seq<string>
  {
    if pieces == [] then []
    else
      var c := Strip(pieces[|pieces| - 1]);
      Cleaned(pieces[..|pieces| - 1]) + (if |c| > 20 then [c] else [])
  }

  /** The citations `_parse_citations` finds in a text. */
  function CitationsOf(text: string): seq<string>
  {
    Cleaned(SplitAll([text], Separators))
  }

  /** `_parse_citations`: the loop over the separators, each splitting every
      piece so far, then the filter. */
  method ParseCitations(text: string) returns (citations: seq<string>)
    ensures citations == CitationsOf(text)
  {
    var pieces := [text];
    var s := 0;
    while s < |Separators|
      invariant 0 <= s <= |Separators|
      invariant SplitAll(pieces, Separators[s..]) == SplitAll([text], Separators)
    {
      pieces := SplitPieces(pieces, Separators[s]);
      assert Separators[s..][1..] == Separators[s + 1..];
      s := s + 1;
    }
    citations := CleanPieces(pieces);
  }

  /** The inner loop of `_parse_citations`: every piece split by `sep`. */
  method SplitPieces(pieces: seq<string>, sep: string) returns (next: seq<string>)
    requires sep != []
    ensures next == SplitEach(pieces, sep)
  {
    next := [];
    var k := 0;
    while k < |pieces|
      invariant 0 <= k <= |pieces|
      invariant next == SplitEach(pieces[..k], sep)
    {
      assert pieces[..k + 1][..k] == pieces[..k];
      next := next + Split(pieces[k], sep);
      k := k + 1;
    }
    assert pieces[..k] == pieces;
  }

  /** The filter of `_parse_citations`: the stripped pieces longer than 20 characters. */
  method CleanPieces(pieces: seq<string>) returns (citations: seq<string>)
    ensures citations == Cleaned(pieces)
  {
    citations := [];
    var k := 0;
    while k < |pieces|
      invariant 0 <= k <= |pieces|
      invariant citations == Cleaned(pieces[..k])
    {
      assert pieces[..k + 1][..k] == pieces[..k];
      var c := Strip(pieces[k]);
      if |c| > 20 {
        citations := citations + [c];
      }
      k := k + 1;
    }
    assert pieces[..k] == pieces;
  }

  /** No piece contains `t`. */
  predicate NoneContain(pieces: seq<string>, t: string) {
    forall k :: 0 <= k < |pieces| ==> !Contains(pieces[k], t)
  }

  lemma {:induction false} SplitEachRemoves(pieces: seq<string>, sep: string)
    requires sep != []
    ensures NoneContain(SplitEach(pieces, sep), sep)
  {
    if pieces != [] {
      SplitEachRemoves(pieces[..|pieces| - 1], sep);
    }
  }

  lemma {:induction false} SplitEachKeepsAbsence(pieces: seq<string>, sep: string, t: string)
    requires sep != []
    requires NoneContain(pieces, t)
    ensures NoneContain(SplitEach(pieces, sep), t)
  {
    if pieces != [] {
      var init := pieces[..|pieces| - 1];
      assert NoneContain(init, t) by {
        forall k | 0 <= k < |init| ensures !Contains(init[k], t) {
          assert init[k] == pieces[k];
        }
      }
      SplitEachKeepsAbsence(init, sep, t);
      SplitKeepsAbsence(pieces[|pieces| - 1], sep, t);
    }
  }

  lemma {:induction false} SplitAllKeepsAbsence(pieces: seq<string>, seps: seq<string>, t: string)
    requires NonEmptySeparators(seps)
    requires NoneContain(pieces, t)
    ensures NoneContain(SplitAll(pieces, seps), t)
    decreases |seps|
  {
    if seps != [] {
      SplitEachKeepsAbsence(pieces, seps[0], t);
      SplitAllKeepsAbsence(SplitEach(pieces, seps[0]), seps[1..], t);
    }
  }

  /** After splitting by all separators, no piece contains any of them. */
  lemma {:induction false} SplitAllRemoves(pieces: seq<string>, seps: seq<string>, j: nat)
    requires NonEmptySeparators(seps)
    requires j < |seps|
    ensures NoneContain(SplitAll(pieces, seps), seps[j])
    decreases |seps|
  {
    if j == 0 {
      SplitEachRemoves(pieces, seps[0]);
      SplitAllKeepsAbsence(SplitEach(pieces, seps[0]), seps[1..], seps[0]);
    } else {
      SplitAllRemoves(SplitEach(pieces, seps[0]), seps[1..], j - 1);
    }
  }

  lemma {:induction false} CleanedIsClean(pieces: seq<string>, t: string)
    requires NoneContain(pieces, t)
    ensures forall k :: 0 <= k < |Cleaned(pieces)| ==>
      |Cleaned(pieces)[k]| > 20 && Strip(Cleaned(pieces)[k]) == Cleaned(pieces)[k] && !Contains(Cleaned(pieces)[k], t)
  {
    if pieces != [] {
      var init := pieces[..|pieces| - 1];
      assert NoneContain(init, t) by {
        forall k | 0 <= k < |init| ensures !Contains(init[k], t) {
          assert init[k] == pieces[k];
        }
      }
      CleanedIsClean(init, t);
      StripIdempotent(pieces[|pieces| - 1]);
      StripKeepsAbsence(pieces[|pieces| - 1], t);
    }
  }

  /** Every citation found is already stripped, longer than 20 characters and
      contains none of the separators. */
  lemma CitationIsClean(text: string, k: nat, j: nat)
    requires k < |CitationsOf(text)| && j < |Separators|
    ensures var c := CitationsOf(text)[k];
      |c| > 20 && Strip(c) == c && !Contains(c, Separators[j])
  {
    SplitAllRemoves([text], Separators, j);
    CleanedIsClean(SplitAll([text], Separators), Separators[j]);
  }

  lemma SplitEachSingle(s: string, sep: string)
    requires sep != [] && !Contains(s, sep)
    ensures SplitEach([s], sep) == [s]
  {
    assert [s][..0] == [];
    assert Split(s, sep) == [s];
  }

  lemma {:induction false} SplitAllWithoutSeparators(s: string, seps: seq<string>)
    requires NonEmptySeparators(seps)
    requires forall j :: 0 <= j < |seps| ==> !Contains(s, seps[j])
    ensures SplitAll([s], seps) == [s]
    decreases |seps|
  {
    if seps != [] {
      SplitEachSingle(s, seps[0]);
      SplitAllWithoutSeparators(s, seps[1..]);
    }
  }

  /** A text with none of the separators is one citation (stripped) when it is long enough, and none otherwise. */
  lemma SingleCitation(text: string)
    requires forall j :: 0 <= j < |Separators| ==> !Contains(text, Separators[j])
    ensures CitationsOf(text) == if |Strip(text)| > 20 then [Strip(text)] else []
  {
    SplitAllWithoutSeparators(text, Separators);
    assert [text][..0] == [] && [text][0] == text;
    assert Cleaned([text]) == Cleaned([]) + (if |Strip(text)| > 20 then [Strip(text)] else []);
  }

  // ---------------------------------------------------------------------------
  // Components

  /** The metadata dictionary of one citation: each key the extraction may set. */
  datatype Components = Components(
    url: Option<string>, year: Option<string>, doi: Option<string>,
    title: Option<string>, author: Option<string>, journal: Option<string>)

  /** The keys of the metadata dictionary, and "source", which the styles
      require but which is never extracted. */
  datatype Field = Author | Title | Year | Source | Url | Doi | Journal

  /** The key's name, as it appears in the dictionary and in the messages. */
  function Name(f: Field): string
  {
    match f
    case Author => "author"
    case Title => "title"
    case Year => "year"
    case Source => "source"
    case Url => "url"
    case Doi => "doi"
    case Journal => "journal"
  }

  /** Different keys have different names. */
  lemma NameInjective(f: Field, g: Field)
    ensures Name(f) == Name(g) ==> f == g
  {
    if Name(f) == Name(g) {
      var n := Name(f);
      assert |n| == |Name(g)| && n[0] == Name(g)[0];
    }
  }

  /** `components.get(k)`: looking a component up by its key. */
  function Get(c: Components, k: Field): Option<string>
  {
    match k
    case Url => c.url
    case Year => c.year
    case Doi => c.doi
    case Title => c.title
    case Author => c.author
    case Journal => c.journal
    case Source => None
  }

  /** `components.get(k)` is truthy: the key is there with a non-empty value. */
  predicate Has(c: Components, k: Field) {
    Get(c, k).Some? && Get(c, k).value != ""
  }

  function First(xs: seq<string>): Option<string> {
    if xs == [] then None else Some(xs[0])
  }

  function Last(xs: seq<string>): Option<string> {
    if xs == [] then None else Some(xs[|xs| - 1])
  }

  /** The journal: text between asterisks, or failing that between underscores. */
  function Journals(citation: string): seq<string>
  {
    var stars := FindAll(Enclosed('*'), citation, 0);
    if stars != [] then stars else FindAll(Enclosed('_'), citation, 0)
  }

  /** The author: looked for only once a year was found, as the text before
      "(" + year + ")", stripped (and possibly empty). */
  function AuthorOf(citation: string, year: Option<string>): Option<string>
  {
    if year.None? || year.value == "" then None
    else
      var authors := FindAll(AuthorBefore("(" + year.value + ")"), citation, 0);
      if authors == [] then None else Some(Strip(authors[0]))
  }

  /** `_extract_citation_components`. The year is the capture group of the year
      pattern, so it is "19" or "20", and the author pattern then looks for
      "(19)" or "(20)". The second title pattern is the same as the first, so
      only one is tried. */
  function ExtractComponents(citation: string): Components
  {
    var year := Last(FindAll(YearNumber(false), citation, 0));
    Components(
      First(FindAll(HttpUrl, citation, 0)), year, First(FindAll(DoiName, citation, 0)),
      First(FindAll(Enclosed('"'), citation, 0)), AuthorOf(citation, year), First(Journals(citation)))
  }

  /** What each extracted component looks like: the URL starts with a scheme
      and has no whitespace, the DOI starts with "10.", the year is a century
      prefix, the title and journal are non-empty and free of their
      delimiters, and "source" is never extracted. */
  lemma ExtractedShape(citation: string)
    ensures var c := ExtractComponents(citation);
      && Get(c, Source).None?
      && (c.year.Some? ==> c.year.value == "19" || c.year.value == "20")
      && (c.url.Some? ==> (StartsWith(c.url.value, "http://") || StartsWith(c.url.value, "https://")) && NoSpace(c.url.value))
      && (c.doi.Some? ==> StartsWith(c.doi.value, "10.") && NoSpace(c.doi.value))
      && (c.title.Some? ==> c.title.value != "" && '"' !in c.title.value)
      && (c.journal.Some? ==> c.journal.value != "" && ('*' !in c.journal.value || '_' !in c.journal.value))
  {
    UrlShape(citation);
    YearShape(citation);
    DoiShape(citation);
    TitleShape(citation);
    JournalShape(citation);
  }

  lemma UrlShape(citation: string)
    ensures var u := First(FindAll(HttpUrl, citation, 0));
      u.Some? ==> (StartsWith(u.value, "http://") || StartsWith(u.value, "https://")) && NoSpace(u.value)
  {
    var urls := FindAll(HttpUrl, citation, 0);
    if urls != [] { FoundHasShape(HttpUrl, citation, 0, urls[0]); }
  }

  lemma YearShape(citation: string)
    ensures var y := Last(FindAll(YearNumber(false), citation, 0));
      y.Some? ==> y.value == "19" || y.value == "20"
  {
    var years := FindAll(YearNumber(false), citation, 0);
    if years != [] { FoundHasShape(YearNumber(false), citation, 0, years[|years| - 1]); }
  }

  lemma DoiShape(citation: string)
    ensures var d := First(FindAll(DoiName, citation, 0));
      d.Some? ==> StartsWith(d.value, "10.") && NoSpace(d.value)
  {
    var dois := FindAll(DoiName, citation, 0);
    if dois != [] { FoundHasShape(DoiName, citation, 0, dois[0]); }
  }

  lemma TitleShape(citation: string)
    ensures var t := First(FindAll(Enclosed('"'), citation, 0));
      t.Some? ==> t.value != "" && '"' !in t.value
  {
    var titles := FindAll(Enclosed('"'), citation, 0);
    if titles != [] { FoundHasShape(Enclosed('"'), citation, 0, titles[0]); }
  }

  lemma JournalShape(citation: string)
    ensures var j := First(Journals(citation));
      j.Some? ==> j.value != "" && ('*' !in j.value || '_' !in j.value)
  {
    var stars := FindAll(Enclosed('*'), citation, 0);
    if stars != [] {
      FoundHasShape(Enclosed('*'), citation, 0, stars[0]);
    } else {
      var unders := FindAll(Enclosed('_'), citation, 0);
      if unders != [] { FoundHasShape(Enclosed('_'), citation, 0, unders[0]); }
    }
  }

  /** An author is only extracted after a year, and contains no period. */
  lemma AuthorShape(citation: string, year: Option<string>)
    requires AuthorOf(citation, year).Some?
    ensures year.Some? && year.value != ""
    ensures '.' !in AuthorOf(citation, year).value
  {
    var needle := "(" + year.value + ")";
    var authors := FindAll(AuthorBefore(needle), citation, 0);
    FoundHasShape(AuthorBefore(needle), citation, 0, authors[0]);
    var a := authors[0];
    assert forall x :: x in Strip(a) ==> x in a;
  }

  /** A component is extracted exactly when its pattern matches somewhere, and
      then it is the text of the leftmost match. */
  lemma ExtractedIffMatched(citation: string)
    ensures var c := ExtractComponents(citation);
      && (c.url.Some? <==> !NoMatchFrom(HttpUrl, citation, 0))
      && (c.year.Some? <==> !NoMatchFrom(YearNumber(false), citation, 0))
      && (c.doi.Some? <==> !NoMatchFrom(DoiName, citation, 0))
      && (c.title.Some? <==> !NoMatchFrom(Enclosed('"'), citation, 0))
      && (c.url.Some? ==> exists j :: LeftmostFrom(HttpUrl, citation, 0, j) && c.url.value == MatchAt(HttpUrl, citation, j).value.text)
      && (c.doi.Some? ==> exists j :: LeftmostFrom(DoiName, citation, 0, j) && c.doi.value == MatchAt(DoiName, citation, j).value.text)
      && (c.title.Some? ==> exists j :: LeftmostFrom(Enclosed('"'), citation, 0, j) && c.title.value == MatchAt(Enclosed('"'), citation, j).value.text)
  {
    FindAllLeftmost(HttpUrl, citation, 0);
    FindAllLeftmost(YearNumber(false), citation, 0);
    FindAllLeftmost(DoiName, citation, 0);
    FindAllLeftmost(Enclosed('"'), citation, 0);
  }

  /** `_get_required_components`: the table is keyed "APA", "MLA" and
      "Chicago", but it is looked up with the upper-cased style. */
  function RequiredComponents(style: string): (r: seq<Field>)
    ensures |r| >= 3 && r[..3] == [Author, Title, Year]
    ensures |r| == 4 <==> Upper(style) == "APA" || Upper(style) == "MLA"
    ensures |r| == 3 || (|r| == 4 && r[3] == Source)
  {
    var common := [Author, Title, Year];
    var table := map["APA" := common + [Source], "MLA" := common + [Source], "Chicago" := common + [Source]];
    UpperIsNotChicago(style);
    var key := Upper(style);
    if key in table then table[key] else common
  }

  /** No upper-cased string equals "Chicago", so the Chicago row of the table is never used. */
  lemma UpperIsNotChicago(style: string)
    ensures Upper(style) != "Chicago"
  {
    if |style| == 7 {
      assert Upper(style)[1] == UpperChar(style[1]);
      assert Upper(style)[1] != "Chicago"[1];
    }
  }

  /** The number of required components present. */
  function PresentCount(c: Components, required: seq<Field>): (n: nat)
    ensures n <= |required|
  {
    if required == [] then 0
    else PresentCount(c, required[..|required| - 1]) + (if Has(c, required[|required| - 1]) then 1 else 0)
  }

  /** `unit` added once per required component present, as the loop adds `1.0 / total_required`. */
  function UnitSum(c: Components, required: seq<Field>, unit: real): real
  {
    if required == [] then 0.0
    else UnitSum(c, required[..|required| - 1], unit) + (if Has(c, required[|required| - 1]) then unit else 0.0)
  }

  lemma {:induction false} UnitSumIsCount(c: Components, required: seq<Field>, unit: real)
    ensures UnitSum(c, required, unit) == PresentCount(c, required) as real * unit
  {
    if required != [] {
      UnitSumIsCount(c, required[..|required| - 1], unit);
    }
  }

  /** The "Has X" strengths for the required components present, in order. */
  function HasEntries(c: Components, required: seq<Field>): seq<string>
  {
    if required == [] then []
    else
      var k := required[|required| - 1];
      HasEntries(c, required[..|required| - 1]) + (if Has(c, k) then ["Has " + Name(k)] else [])
  }

  /** The "Missing X" issues for the required components absent, in order. */
  function MissingEntries(c: Components, required: seq<Field>): seq<string>
  {
    if required == [] then []
    else
      var k := required[|required| - 1];
      MissingEntries(c, required[..|required| - 1]) + (if Has(c, k) then [] else ["Missing " + Name(k)])
  }

  /** The strengths for the DOI and URL bonuses. */
  function BonusStrengths(c: Components): seq<string>
  {
    (if Has(c, Doi) then ["Includes DOI"] else []) + (if Has(c, Url) then ["Includes URL"] else [])
  }

  /** The score `_validate_components` returns: `1/len(required)` per component
      present, `0.1` for a DOI and `0.05` for a URL. */
  function ComponentScore(c: Components, required: seq<Field>): real
  {
    RequiredShare(c, required) + BonusScore(c)
  }

  /** `1/len(required)` for each required component present. */
  function RequiredShare(c: Components, required: seq<Field>): real
  {
    if required == [] then 0.0 else PresentCount(c, required) as real * (1.0 / |required| as real)
  }

  /** `0.1` for a DOI and `0.05` for a URL. */
  function BonusScore(c: Components): real
  {
    (if Has(c, Doi) then 0.1 else 0.0) + (if Has(c, Url) then 0.05 else 0.0)
  }

  /** The component score lies between 0 and 1.15. */
  lemma ComponentScoreBounds(c: Components, required: seq<Field>)
    ensures 0.0 <= ComponentScore(c, required) <= 1.15
  {
    if required != [] {
      var u := 1.0 / |required| as real;
      var p := PresentCount(c, required) as real;
      assert p * u <= |required| as real * u == 1.0;
    }
  }

  /** How the tallies grow by one required component. */
  lemma TallyStep(c: Components, required: seq<Field>, i: nat, unit: real)
    requires i < |required|
    ensures var k, pre, next := required[i], required[..i], required[..i + 1];
      && UnitSum(c, next, unit) == UnitSum(c, pre, unit) + (if Has(c, k) then unit else 0.0)
      && HasEntries(c, next) == HasEntries(c, pre) + (if Has(c, k) then ["Has " + Name(k)] else [])
      && MissingEntries(c, next) == MissingEntries(c, pre) + (if Has(c, k) then [] else ["Missing " + Name(k)])
  {
    assert required[..i + 1][..i] == required[..i];
  }

  /** `_validate_components`: the loop over the required components, then
      the DOI and URL bonuses. */
  method ValidateComponents(c: Components, required: seq<Field>) returns (score: real, strengths: seq<string>, issues: seq<string>)
    ensures score == ComponentScore(c, required)
    ensures strengths == HasEntries(c, required) + BonusStrengths(c)
    ensures issues == MissingEntries(c, required)
  {
    score, strengths, issues := TallyRequired(c, required);
    if Has(c, Doi) {
      score := score + 0.1;
      strengths := strengths + ["Includes DOI"];
    }
    if Has(c, Url) {
      score := score + 0.05;
      strengths := strengths + ["Includes URL"];
    }
  }

  /** The loop of `_validate_components`: `1/len(required)` and a strength for
      each required component present, an issue for each one absent. */
  method TallyRequired(c: Components, required: seq<Field>) returns (score: real, strengths: seq<string>, issues: seq<string>)
    ensures score == RequiredShare(c, required)
    ensures strengths == HasEntries(c, required)
    ensures issues == MissingEntries(c, required)
  {
    score := 0.0;
    strengths := [];
    issues := [];
    var n := |required|;
    var unit := if n > 0 then 1.0 / n as real else 0.0;
    var i := 0;
    while i < n
      invariant 0 <= i <= n
      invariant score == UnitSum(c, required[..i], unit)
      invariant strengths == HasEntries(c, required[..i])
      invariant issues == MissingEntries(c, required[..i])
    {
      var k := required[i];
      TallyStep(c, required, i, unit);
      if Has(c, k) {
        score := score + unit;
        strengths := strengths + ["Has " + Name(k)];
      } else {
        issues := issues + ["Missing " + Name(k)];
      }
      i := i + 1;
    }
    assert required[..i] == required;
    UnitSumIsShare(c, required);
  }

  /** Adding `1/len(required)` once per component present gives the share. */
  lemma UnitSumIsShare(c: Components, required: seq<Field>)
    ensures UnitSum(c, required, if |required| > 0 then 1.0 / |required| as real else 0.0) == RequiredShare(c, required)
  {
    if |required| > 0 {
      UnitSumIsCount(c, required, 1.0 / |required| as real);
    }
  }

  /** Each required component is either a strength or an issue, never both. */
  lemma {:induction false} EntriesPartition(c: Components, required: seq<Field>)
    ensures |HasEntries(c, required)| == PresentCount(c, required)
    ensures |HasEntries(c, required)| + |MissingEntries(c, required)| == |required|
  {
    if required != [] {
      EntriesPartition(c, required[..|required| - 1]);
    }
  }

  /** "Missing k" is reported exactly for the required components that are absent. */
  lemma {:induction false} MissingIff(c: Components, required: seq<Field>, k: Field)
    ensures "Missing " + Name(k) in MissingEntries(c, required) <==> k in required && !Has(c, k)
  {
    if required != [] {
      var init := required[..|required| - 1];
      var last := required[|required| - 1];
      MissingIff(c, init, k);
      assert required == init + [last];
      if "Missing " + Name(k) == "Missing " + Name(last) {
        assert Name(k) == ("Missing " + Name(k))[8..] == ("Missing " + Name(last))[8..] == Name(last);
        NameInjective(k, last);
      }
    }
  }

  // ---------------------------------------------------------------------------
  // URL check

  /** What `requests.head(url, timeout=10, allow_redirects=True)` did. */
  datatype HeadOutcome = Responded(status: nat) | TimedOut | ConnectionFailed | Raised(message: string)

  /** The `url_validation` record (response time and URL metadata left out). */
  datatype UrlCheck = UrlCheck(url: string, accessible: bool, statusCode: Option<nat>, error: Option<string>)

  /** `_validate_url_accessibility`, given the outcome of the HEAD request. */
  function ValidateUrlAccessibility(url: string, outcome: HeadOutcome): (v: UrlCheck)
    ensures v.url == url
    ensures v.accessible <==> outcome == Responded(200)
    ensures v.accessible <==> v.error.None?
    ensures v.statusCode.Some? <==> outcome.Responded?
    ensures outcome.Responded? && !v.accessible ==> v.error == Some("HTTP " + Decimal(outcome.status))
  {
    match outcome
    case Responded(code) =>
      UrlCheck(url, code == 200, Some(code), if code != 200 then Some("HTTP " + Decimal(code)) else None)
    case TimedOut => UrlCheck(url, false, None, Some("Request timeout"))
    case ConnectionFailed => UrlCheck(url, false, None, Some("Connection failed"))
    case Raised(msg) => UrlCheck(url, false, None, Some(msg))
  }

  // ---------------------------------------------------------------------------
  // Formatting

  datatype Date = Date(year: nat, month: nat, day: nat)

  /** The moment `datetime.now()` reads, as a calendar date. */
  type Today = d: Date | 1 <= d.month <= 12 && 1 <= d.day <= 31 witness Date(2000, 1, 1)

  function MonthName(m: nat): string
    requires 1 <= m <= 12
  {
    ["January", "February", "March", "April", "May", "June", "July",
     "August", "September", "October", "November", "December"][m - 1]
  }

  /** `strftime('%d %b %Y')`, e.g. "05 Mar 2024". */
  function DayMonYear(d: Today): string
  {
    TwoDigits(d.day) + " " + MonthName(d.month)[..3] + " " + Decimal(d.year)
  }

  /** `strftime('%B %d, %Y')`, e.g. "March 05, 2024". */
  function MonthDayYear(d: Today): string
  {
    MonthName(d.month) + " " + TwoDigits(d.day) + ", " + Decimal(d.year)
  }

  /** The part for component `k`, wrapped in `before` and `after`, when it is present. */
  function Part(c: Components, k: Field, before: string, after: string): seq<string>
  {
    if Has(c, k) then [before + Get(c, k).value + after] else []
  }

  function ApaParts(c: Components): seq<string>
  {
    Part(c, Author, "", "") + Part(c, Year, "(", ")") + Part(c, Title, "", "")
    + Part(c, Journal, "*", "*") + Part(c, Url, "Retrieved from ", "")
  }

  function MlaParts(c: Components, now: Today): seq<string>
  {
    Part(c, Author, "", "") + Part(c, Title, "\"", "\"") + Part(c, Journal, "*", "*")
    + Part(c, Year, "", "") + (if Has(c, Url) then ["Web. " + DayMonYear(now)] else [])
  }

  function ChicagoParts(c: Components, now: Today): seq<string>
  {
    Part(c, Author, "", "") + Part(c, Title, "\"", "\"") + Part(c, Journal, "*", "*")
    + Part(c, Year, "(", ")") + Part(c, Url, "accessed " + MonthDayYear(now) + ", ", "")
  }

  /** `_format_citation`: the style picks the formatter, unknown styles format as APA. */
  function FormatCitation(c: Components, style: string, now: Today): string
  {
    var key := Upper(style);
    if key == "MLA" then Join(MlaParts(c, now), ", ") + "."
    else if key == "CHICAGO" then Join(ChicagoParts(c, now), ", ") + "."
    else Join(ApaParts(c), ". ") + "."
  }

  lemma OccursWithin(s: string, u: string, x: string, o: int, o2: int)
    requires OccursAt(s, u, o) && OccursAt(u, x, o2)
    ensures OccursAt(s, x, o + o2)
  {
    forall m | 0 <= m < |x| ensures s[o + o2 + m] == x[m] {
      assert s[o..o + |u|][o2 + m] == u[o2 + m];
      assert u[o2..o2 + |x|][m] == x[m];
    }
    assert s[o + o2..o + o2 + |x|] == x;
  }

  /** A text inside one of the parts is a substring of the formatted citation. */
  lemma PartTextInFormat(parts: seq<string>, sep: string, k: nat, x: string, o2: int)
    requires k < |parts| && OccursAt(parts[k], x, o2)
    ensures Contains(Join(parts, sep) + ".", x)
  {
    var s := Join(parts, sep);
    JoinContainsParts(parts, sep, k);
    var o :| OccursAt(s, parts[k], o);
    OccursWithin(s, parts[k], x, o, o2);
    assert (s + ".")[o + o2..o + o2 + |x|] == s[o + o2..o + o2 + |x|];
    OccursMeansContains(s + ".", x, o + o2);
  }

  lemma PartMentions(parts: seq<string>, sep: string, c: Components, k: Field, before: string, after: string, i: nat)
    requires Has(c, k) && i < |parts| && parts[i] == before + Get(c, k).value + after
    ensures Contains(Join(parts, sep) + ".", Get(c, k).value)
  {
    var v := Get(c, k).value;
    var u := before + v + after;
    assert u[|before|..|before| + |v|] == v;
    PartTextInFormat(parts, sep, i, v, |before|);
  }

  lemma ApaMentions(c: Components, k: Field)
    requires k in {Author, Title, Year, Journal, Url} && Has(c, k)
    ensures Contains(Join(ApaParts(c), ". ") + ".", Get(c, k).value)
  {
    var parts := ApaParts(c);
    var a, y, t := Part(c, Author, "", ""), Part(c, Year, "(", ")"), Part(c, Title, "", "");
    var j, u := Part(c, Journal, "*", "*"), Part(c, Url, "Retrieved from ", "");
    if k == Author { PartMentions(parts, ". ", c, k, "", "", 0); }
    else if k == Year { PartMentions(parts, ". ", c, k, "(", ")", |a|); }
    else if k == Title { PartMentions(parts, ". ", c, k, "", "", |a + y|); }
    else if k == Journal { PartMentions(parts, ". ", c, k, "*", "*", |a + y + t|); }
    else { PartMentions(parts, ". ", c, k, "Retrieved from ", "", |a + y + t + j|); }
  }

  lemma MlaMentions(c: Components, now: Today, k: Field)
    requires k in {Author, Title, Year, Journal} && Has(c, k)
    ensures Contains(Join(MlaParts(c, now), ", ") + ".", Get(c, k).value)
  {
    var parts := MlaParts(c, now);
    var a, t, j := Part(c, Author, "", ""), Part(c, Title, "\"", "\""), Part(c, Journal, "*", "*");
    var y := Part(c, Year, "", "");
    var w := if Has(c, Url) then ["Web. " + DayMonYear(now)] else [];
    if k == Author { PartMentions(parts, ", ", c, k, "", "", 0); }
    else if k == Title { PartMentions(parts, ", ", c, k, "\"", "\"", |a|); }
    else if k == Journal { PartMentions(parts, ", ", c, k, "*", "*", |a + t|); }
    else { PartMentions(parts, ", ", c, k, "", "", |a + t + j|); }
  }

  lemma ChicagoMentions(c: Components, now: Today, k: Field)
    requires k in {Author, Title, Year, Journal, Url} && Has(c, k)
    ensures Contains(Join(ChicagoParts(c, now), ", ") + ".", Get(c, k).value)
  {
    var parts := ChicagoParts(c, now);
    var a, t, j := Part(c, Author, "", ""), Part(c, Title, "\"", "\""), Part(c, Journal, "*", "*");
    var y := Part(c, Year, "(", ")");
    var prefix := "accessed " + MonthDayYear(now) + ", ";
    var u := Part(c, Url, prefix, "");
    if k == Author { PartMentions(parts, ", ", c, k, "", "", 0); }
    else if k == Title { PartMentions(parts, ", ", c, k, "\"", "\"", |a|); }
    else if k == Journal { PartMentions(parts, ", ", c, k, "*", "*", |a + t|); }
    else if k == Year { PartMentions(parts, ", ", c, k, "(", ")", |a + t + j|); }
    else { PartMentions(parts, ", ", c, k, prefix, "", |a + t + j + y|); }
  }

  /** Every component present is printed in the formatted citation, in every
      style; the URL is printed too except in MLA, which prints the access date
      instead. */
  lemma FormatMentionsComponents(c: Components, style: string, now: Today, k: Field)
    requires k in {Author, Title, Year, Journal} || (k == Url && Upper(style) != "MLA")
    requires Has(c, k)
    ensures Contains(FormatCitation(c, style, now), Get(c, k).value)
  {
    var key := Upper(style);
    if key == "MLA" {
      MlaMentions(c, now, k);
    } else if key == "CHICAGO" {
      ChicagoMentions(c, now, k);
    } else {
      ApaMentions(c, k);
    }
  }

  /** A citation with no components at all. */
  const NoComponents := Components(None, None, None, None, None, None)

  /** Every formatted citation ends with a period; with no components it is just ".". */
  lemma FormatEndsWithPeriod(c: Components, style: string, now: Today)
    ensures var f := FormatCitation(c, style, now); |f| >= 1 && f[|f| - 1] == '.'
    ensures c == NoComponents ==> FormatCitation(c, style, now) == "."
  {
  }

  // ---------------------------------------------------------------------------
  // One citation

  /** The validation record of one citation. */
  datatype CitationReport = CitationReport(
    number: nat, original: string, valid: bool, quality: real,
    issues: seq<string>, strengths: seq<string>, formatted: string,
    metadata: Components, urlCheck: Option<UrlCheck>)

  function Min(a: real, b: real): real { if a <= b then a else b }

  /** The URL check, made only when a URL was extracted. */
  function UrlCheckOf(c: Components, probe: string -> HeadOutcome): Option<UrlCheck>
  {
    if Has(c, Url) then Some(ValidateUrlAccessibility(c.url.value, probe(c.url.value))) else None
  }

  predicate Reachable(check: Option<UrlCheck>) {
    check.Some? && check.value.accessible
  }

  /** The final score: the component score, 0.1 more for a reachable URL, capped at 1. */
  function Quality(c: Components, required: seq<Field>, check: Option<UrlCheck>): real
  {
    Min(ComponentScore(c, required) + (if Reachable(check) then 0.1 else 0.0), 1.0)
  }

  /** The quality score lies in [0, 1]. */
  lemma QualityBounded(c: Components, required: seq<Field>, check: Option<UrlCheck>)
    ensures 0.0 <= Quality(c, required, check) <= 1.0
  {
    ComponentScoreBounds(c, required);
  }

  /** `_validate_single_citation`, with `probe` answering the HEAD request for a URL. */
  function SingleReport(citation: string, style: string, number: nat, probe: string -> HeadOutcome, now: Today): CitationReport
  {
    ReportFrom(citation, ExtractComponents(citation), style, number, probe, now)
  }

  /** The validation record of a citation whose components are `c`. */
  function ReportFrom(citation: string, c: Components, style: string, number: nat, probe: string -> HeadOutcome, now: Today): CitationReport
  {
    var required := RequiredComponents(style);
    var check := UrlCheckOf(c, probe);
    var quality := Quality(c, required, check);
    CitationReport(
      number, citation, quality >= 0.7, quality, ReportIssues(c, required, check),
      HasEntries(c, required) + BonusStrengths(c) + (if Reachable(check) then ["URL is accessible"] else []),
      FormatCitation(c, style, now), c, check)
  }

  /** The issues of one citation: the missing components, then an unreachable URL. */
  function ReportIssues(c: Components, required: seq<Field>, check: Option<UrlCheck>): seq<string>
  {
    MissingEntries(c, required)
    + (if check.Some? && !Reachable(check) then ["URL not accessible: " + check.value.error.GetOr("None")] else [])
  }

  /** `_validate_single_citation`: scores the components by the loop of
      `_validate_components`, then adds the URL check. */
  method ValidateSingleCitation(citation: string, style: string, number: nat, probe: string -> HeadOutcome, now: Today)
    returns (r: CitationReport)
    ensures r == SingleReport(citation, style, number, probe, now)
  {
    var c := ExtractComponents(citation);
    r := ValidateExtracted(citation, c, style, number, probe, now);
  }

  /** The body of `_validate_single_citation` once the components are extracted. */
  method ValidateExtracted(citation: string, c: Components, style: string, number: nat, probe: string -> HeadOutcome, now: Today)
    returns (r: CitationReport)
    ensures r == ReportFrom(citation, c, style, number, probe, now)
  {
    var required := RequiredComponents(style);
    var score, strengths, issues := ValidateComponents(c, required);
    var check: Option<UrlCheck> := None;
    if Has(c, Url) {
      var v := ValidateUrlAccessibility(c.url.value, probe(c.url.value));
      check := Some(v);
      if v.accessible {
        strengths := strengths + ["URL is accessible"];
        score := score + 0.1;
      } else {
        issues := issues + ["URL not accessible: " + v.error.GetOr("None")];
      }
    }
    var quality := Min(score, 1.0);
    r := CitationReport(number, citation, quality >= 0.7, quality, issues, strengths, FormatCitation(c, style, now), c, check);
  }

  /** A valid citation has at least two of author, title and year: the bonuses
      for DOI, URL and a reachable URL add only 0.25. */
  lemma ValidNeedsTwoComponents(c: Components, style: string, check: Option<UrlCheck>)
    requires Quality(c, RequiredComponents(style), check) >= 0.7
    ensures PresentCount(c, RequiredComponents(style)) >= 2
  {
  }

  /** A citation with author, title and year reaches 0.7 in every style. */
  lemma CompleteCitationIsValid(c: Components, style: string, check: Option<UrlCheck>)
    requires Has(c, Author) && Has(c, Title) && Has(c, Year)
    ensures Quality(c, RequiredComponents(style), check) >= 0.7
  {
    var required := RequiredComponents(style);
    var common := required[..3];
    assert common[..2][..1] == [Author];
    assert common[..2] == [Author, Title];
    assert PresentCount(c, common[..2][..1]) == 1;
    assert PresentCount(c, common[..2]) == 2;
    assert PresentCount(c, common) == 3;
    if |required| == 4 {
      assert required[..|required| - 1] == common;
    } else {
      assert required == common;
    }
  }

  /** In APA and MLA "source" is required but never extracted, so every citation
      is reported as missing it. */
  lemma ApaMlaAlwaysMissSource(c: Components, style: string, check: Option<UrlCheck>)
    requires Upper(style) == "APA" || Upper(style) == "MLA"
    ensures "Missing source" in ReportIssues(c, RequiredComponents(style), check)
  {
    var required := RequiredComponents(style);
    MissingIff(c, required, Source);
    assert required[3] == Source;
    assert "Missing " + Name(Source) == "Missing source";
    assert "Missing source" in MissingEntries(c, required);
  }

  // ---------------------------------------------------------------------------
  // The whole run

  /** The reports for the citations, numbered from 1. */
  function Reports(citations: seq<string>, style: string, probe: string -> HeadOutcome, now: Today): (r: seq<CitationReport>)
    ensures |r| == |citations|
  {
    Numbered(citations, ReportOf(style, probe, now))
  }

  /** The report of one citation given its number. */
  function ReportOf(style: string, probe: string -> HeadOutcome, now: Today): (string, nat) -> CitationReport
  {
    (citation: string, number: nat) => SingleReport(citation, style, number, probe, now)
  }

  function ValidCount(reports: seq<CitationReport>): (n: nat)
    ensures n <= |reports|
  {
    if reports == [] then 0 else ValidCount(reports[..|reports| - 1]) + (if reports[|reports| - 1].valid then 1 else 0)
  }

  /** The issues of all reports, in order. */
  function AllIssues(reports: seq<CitationReport>): seq<string>
  {
    if reports == [] then [] else AllIssues(reports[..|reports| - 1]) + reports[|reports| - 1].issues
  }

  function Qualities(reports: seq<CitationReport>): (q: seq<real>)
    ensures |q| == |reports|
    ensures forall k :: 0 <= k < |q| ==> q[k] == reports[k].quality
  {
    if reports == [] then [] else Qualities(reports[..|reports| - 1]) + [reports[|reports| - 1].quality]
  }

  /** `_calculate_overall_quality`: the mean quality score, 0 for no citations. */
  function OverallQuality(reports: seq<CitationReport>): real
  {
    Mean(Qualities(reports))
  }

  /** Some issue contains `needle` as a substring. */
  predicate AnyContains(issues: seq<string>, needle: string) {
    exists k | 0 <= k < |issues| :: Contains(issues[k], needle)
  }

  // The two longest pieces of advice are written in two parts, which keeps their
  // first letters visible to the verifier.
  const AuthorAdvice: string := "Add author information " + "for incomplete citations"
  const YearAdvice: string := "Include publication years for all sources"
  const TitleAdvice: string := "Provide complete titles for all cited works"
  const UrlAdvice: string := "Verify all URLs are accessible and current"

  /** The recommendations that answer the issues found: one for each kind of
      issue present (a missing author, year or title, an unreachable URL). */
  function IssueAdvice(author: bool, year: bool, title: bool, url: bool): (r: seq<string>)
    ensures |r| <= 4
    ensures author ==> |r| >= 1 && r[0] == AuthorAdvice
    ensures AuthorAdvice in r <==> author
    ensures YearAdvice in r <==> year
    ensures TitleAdvice in r <==> title
    ensures UrlAdvice in r <==> url
    ensures forall x | x in r :: x == AuthorAdvice || x == YearAdvice || x == TitleAdvice || x == UrlAdvice
  {
    (if author then [AuthorAdvice] else [])
    + (if year then [YearAdvice] else [])
    + (if title then [TitleAdvice] else [])
    + (if url then [UrlAdvice] else [])
  }

  /** The recommendations that answer a low overall quality. */
  const ReviewAdvice: string := "Review citations " + "for completeness and accuracy"
  const SourcesAdvice: string := "Consider using more authoritative sources"

  function QualityAdvice(quality: real): (r: seq<string>)
    ensures |r| <= 2
    ensures ReviewAdvice in r <==> quality < 0.7
    ensures SourcesAdvice in r <==> quality < 0.5
    ensures forall x | x in r :: x == ReviewAdvice || x == SourcesAdvice
  {
    (if quality < 0.7 then [ReviewAdvice] else [])
    + (if quality < 0.5 then [SourcesAdvice] else [])
  }

  /** The reminder that closes every list of recommendations. */
  function StyleReminder(style: string): string
  {
    "Ensure all citations follow " + style + " formatting guidelines"
  }

  /** `_generate_recommendations`: the advice, then always the style reminder. */
  function Recommendations(issues: seq<string>, quality: real, style: string): (r: seq<string>)
    ensures 1 <= |r| <= 7
    ensures r[|r| - 1] == StyleReminder(style)
  {
    IssueAdvice(AnyContains(issues, "Missing author"), AnyContains(issues, "Missing year"),
                AnyContains(issues, "Missing title"), AnyContains(issues, "URL not accessible"))
    + QualityAdvice(quality) + [StyleReminder(style)]
  }

  /** The first letters that tell the pieces of advice and the reminder apart. */
  lemma AdviceInitials(style: string)
    ensures AuthorAdvice[0] == 'A' && YearAdvice[0] == 'I' && TitleAdvice[0] == 'P' && UrlAdvice[0] == 'V'
    ensures ReviewAdvice[0] == 'R' && SourcesAdvice[0] == 'C' && StyleReminder(style)[0] == 'E'
  {
    assert YearAdvice == "Include publication years for all sources";
    assert TitleAdvice == "Provide complete titles for all cited works";
    assert UrlAdvice == "Verify all URLs are accessible and current";
    assert SourcesAdvice == "Consider using more authoritative sources";
    assert "Ensure all citations follow "[0] == 'E';
  }

  lemma InAdviceList(x: string, a: seq<string>, q: seq<string>, reminder: string)
    requires x !in q && x != reminder
    ensures x in a + q + [reminder] <==> x in a
  {
  }

  lemma InQualityPart(x: string, a: seq<string>, q: seq<string>, reminder: string)
    requires x !in a && x != reminder
    ensures x in a + q + [reminder] <==> x in q
  {
  }

  /** The advice for a kind of issue is in the list exactly when that issue was found. */
  lemma IssueAdviceRule(x: string, found: bool, a: seq<string>, quality: real, style: string)
    requires x in [AuthorAdvice, YearAdvice, TitleAdvice, UrlAdvice]
    requires x in a <==> found
    ensures x in a + QualityAdvice(quality) + [StyleReminder(style)] <==> found
  {
    AdviceInitials(style);
    var q := QualityAdvice(quality);
    assert x[0] in "AIPV";
    assert x !in q by {
      if x in q {
        assert false;
      }
    }
    InAdviceList(x, a, q, StyleReminder(style));
  }

  /** The advice for a low quality is in the list exactly when the quality is below its threshold. */
  lemma QualityAdviceRule(x: string, below: bool, a: seq<string>, quality: real, style: string)
    requires forall y | y in a :: y == AuthorAdvice || y == YearAdvice || y == TitleAdvice || y == UrlAdvice
    requires x == ReviewAdvice || x == SourcesAdvice
    requires x in QualityAdvice(quality) <==> below
    ensures x in a + QualityAdvice(quality) + [StyleReminder(style)] <==> below
  {
    AdviceInitials(style);
    assert x[0] == 'R' || x[0] == 'C';
    assert x !in a by {
      if x in a {
        assert false;
      }
    }
    InQualityPart(x, a, QualityAdvice(quality), StyleReminder(style));
  }

  /** Each piece of advice is given exactly when its cause is present: a kind of
      issue somewhere in the list, or a quality below its threshold. */
  lemma RecommendationsFollowIssues(issues: seq<string>, quality: real, style: string)
    ensures var r := Recommendations(issues, quality, style);
      && (AuthorAdvice in r <==> AnyContains(issues, "Missing author"))
      && (YearAdvice in r <==> AnyContains(issues, "Missing year"))
      && (TitleAdvice in r <==> AnyContains(issues, "Missing title"))
      && (UrlAdvice in r <==> AnyContains(issues, "URL not accessible"))
      && (ReviewAdvice in r <==> quality < 0.7)
      && (SourcesAdvice in r <==> quality < 0.5)
  {
    var author, year := AnyContains(issues, "Missing author"), AnyContains(issues, "Missing year");
    var title, url := AnyContains(issues, "Missing title"), AnyContains(issues, "URL not accessible");
    var a := IssueAdvice(author, year, title, url);
    IssueAdviceRule(AuthorAdvice, author, a, quality, style);
    IssueAdviceRule(YearAdvice, year, a, quality, style);
    IssueAdviceRule(TitleAdvice, title, a, quality, style);
    IssueAdviceRule(UrlAdvice, url, a, quality, style);
    QualityAdviceRule(ReviewAdvice, quality < 0.7, a, quality, style);
    QualityAdviceRule(SourcesAdvice, quality < 0.5, a, quality, style);
  }

  datatype Summary = Summary(total: nat, valid: nat, rate: real, overallQuality: real, needsImprovement: bool)

  /** The `validation_summary` of a list of reports. */
  function Summarize(reports: seq<CitationReport>): Summary
  {
    var total := |reports|;
    var valid := ValidCount(reports);
    Summary(total, valid, if total > 0 then valid as real / total as real else 0.0, OverallQuality(reports), valid < total)
  }

  /** The JSON document the tool returns (the timestamp left out). */
  datatype ValidationRun = ValidationRun(
    style: string, input: string, summary: Summary, validated: seq<CitationReport>,
    issues: seq<string>, recommendations: seq<string>)

  /** The run `citation_validator` reports for a text. */
  function Validation(citations: string, style: string, probe: string -> HeadOutcome, now: Today): ValidationRun
  {
    var reports := Reports(CitationsOf(citations), style, probe, now);
    var summary := Summarize(reports);
    ValidationRun(style, citations, summary, reports, AllIssues(reports),
                  Recommendations(AllIssues(reports), summary.overallQuality, style))
  }

  lemma ReportsStep(list: seq<string>, i: nat, style: string, probe: string -> HeadOutcome, now: Today)
    requires i < |list|
    ensures Reports(list[..i + 1], style, probe, now)
         == Reports(list[..i], style, probe, now) + [SingleReport(list[i], style, i + 1, probe, now)]
  {
    NumberedStep(list, ReportOf(style, probe, now), i);
  }

  /** The report at position `k` is the report of the `k`-th citation, numbered `k + 1`. */
  lemma ReportsNumbered(citations: seq<string>, style: string, probe: string -> HeadOutcome, now: Today, k: nat)
    requires k < |citations|
    ensures Reports(citations, style, probe, now)[k] == SingleReport(citations[k], style, k + 1, probe, now)
  {
    NumberedAt(citations, ReportOf(style, probe, now), k);
  }

  lemma AppendReport(reports: seq<CitationReport>, r: CitationReport)
    ensures ValidCount(reports + [r]) == ValidCount(reports) + (if r.valid then 1 else 0)
    ensures AllIssues(reports + [r]) == AllIssues(reports) + r.issues
  {
    assert (reports + [r])[..|reports|] == reports;
  }

  /** `citation_validator`: the loop over the parsed citations, then the summary. */
  method ValidateCitations(citations: string, style: string, probe: string -> HeadOutcome, now: Today)
    returns (run: ValidationRun)
    ensures run == Validation(citations, style, probe, now)
  {
    var list := ParseCitations(citations);
    var reports, valid, issues := ValidateEach(list, style, probe, now);
    var total := |list|;
    var overall := OverallQuality(reports);
    var summary := Summary(total, valid, if total > 0 then valid as real / total as real else 0.0, overall, valid < total);
    run := ValidationRun(style, citations, summary, reports, issues, Recommendations(issues, overall, style));
  }

  /** The loop of `citation_validator`: one report per citation, numbered from
      1, counting the valid ones and collecting the issues as it goes. */
  method ValidateEach(list: seq<string>, style: string, probe: string -> HeadOutcome, now: Today)
    returns (reports: seq<CitationReport>, valid: nat, issues: seq<string>)
    ensures reports == Reports(list, style, probe, now)
    ensures valid == ValidCount(reports) && issues == AllIssues(reports)
  {
    valid := 0;
    reports := [];
    issues := [];
    var i := 0;
    while i < |list|
      invariant 0 <= i <= |list|
      invariant reports == Reports(list[..i], style, probe, now)
      invariant valid == ValidCount(reports)
      invariant issues == AllIssues(reports)
    {
      var r := ValidateSingleCitation(list[i], style, i + 1, probe, now);
      ReportsStep(list, i, style, probe, now);
      AppendReport(reports, r);
      reports := reports + [r];
      if r.valid {
        valid := valid + 1;
      }
      issues := issues + r.issues;
      i := i + 1;
    }
    assert list[..i] == list;
  }

  lemma {:induction false} AllValidIff(reports: seq<CitationReport>)
    ensures ValidCount(reports) == |reports| <==> forall k :: 0 <= k < |reports| ==> reports[k].valid
  {
    if reports != [] {
      var init := reports[..|reports| - 1];
      AllValidIff(init);
      assert forall k :: 0 <= k < |init| ==> init[k] == reports[k];
    }
  }

  lemma {:induction false} IssuesCollected(reports: seq<CitationReport>, k: nat, issue: string)
    requires k < |reports| && issue in reports[k].issues
    ensures issue in AllIssues(reports)
  {
    var init := reports[..|reports| - 1];
    if k < |init| {
      assert init[k] == reports[k];
      IssuesCollected(init, k, issue);
    }
  }

  /** The summary of reports whose qualities lie in [0, 1]: the valid count and
      rate are bounded by the total, the overall quality lies in [0, 1], and
      improvement is needed exactly when some citation is invalid. */
  lemma SummaryBounds(reports: seq<CitationReport>)
    requires forall k :: 0 <= k < |reports| ==> 0.0 <= reports[k].quality <= 1.0
    ensures var s := Summarize(reports);
      && s.total == |reports| && s.valid <= s.total
      && 0.0 <= s.rate <= 1.0
      && 0.0 <= s.overallQuality <= 1.0
      && (s.needsImprovement <==> exists k :: 0 <= k < |reports| && !reports[k].valid)
  {
    MeanWithin(Qualities(reports), 0.0, 1.0);
    AllValidIff(reports);
    var total := |reports|;
    var valid := ValidCount(reports);
    if total > 0 {
      RatioWithin(valid as real, total as real);
    }
  }

  /** A run reports the citations in order, numbered from 1, and its summary is bounded. */
  lemma RunSummary(citations: string, style: string, probe: string -> HeadOutcome, now: Today)
    ensures var run := Validation(citations, style, probe, now);
      && |run.validated| == |CitationsOf(citations)|
      && (forall k :: 0 <= k < |run.validated| ==>
            run.validated[k] == SingleReport(CitationsOf(citations)[k], style, k + 1, probe, now))
      && run.summary.valid <= run.summary.total == |run.validated|
      && 0.0 <= run.summary.rate <= 1.0
      && 0.0 <= run.summary.overallQuality <= 1.0
      && (run.summary.needsImprovement <==> exists k :: 0 <= k < |run.validated| && !run.validated[k].valid)
  {
    var list := CitationsOf(citations);
    var reports := Reports(list, style, probe, now);
    forall k | 0 <= k < |reports|
      ensures reports[k] == SingleReport(list[k], style, k + 1, probe, now)
      ensures 0.0 <= reports[k].quality <= 1.0
    {
      ReportsNumbered(list, style, probe, now, k);
      var c := ExtractComponents(list[k]);
      QualityBounded(c, RequiredComponents(style), UrlCheckOf(c, probe));
    }
    SummaryBounds(reports);
  }

  /** A citation without an author is reported as missing one, in every style. */
  lemma MissingAuthorIssue(c: Components, style: string, check: Option<UrlCheck>)
    requires !Has(c, Author)
    ensures "Missing author" in ReportIssues(c, RequiredComponents(style), check)
  {
    var required := RequiredComponents(style);
    MissingIff(c, required, Author);
    assert required[0] == required[..3][0] == Author;
    assert "Missing " + Name(Author) == "Missing author";
    assert "Missing author" in MissingEntries(c, required);
  }

  lemma AdviceForMissingAuthor(issues: seq<string>, quality: real, style: string)
    requires "Missing author" in issues
    ensures AuthorAdvice in Recommendations(issues, quality, style)
  {
    var m :| 0 <= m < |issues| && issues[m] == "Missing author";
    OccursMeansContains(issues[m], "Missing author", 0);
    assert AnyContains(issues, "Missing author");
    var advice := IssueAdvice(true, AnyContains(issues, "Missing year"),
                              AnyContains(issues, "Missing title"), AnyContains(issues, "URL not accessible"));
    assert advice[0] in Recommendations(issues, quality, style);
  }

  /** When some citation lacks an author, the run recommends adding author information. */
  lemma MissingAuthorIsRecommended(citations: string, style: string, probe: string -> HeadOutcome, now: Today, k: nat)
    requires k < |CitationsOf(citations)|
    requires !Has(ExtractComponents(CitationsOf(citations)[k]), Author)
    ensures AuthorAdvice in Validation(citations, style, probe, now).recommendations
  {
    var list := CitationsOf(citations);
    var reports := Reports(list, style, probe, now);
    ReportsNumbered(list, style, probe, now, k);
    var c := ExtractComponents(list[k]);
    MissingAuthorIssue(c, style, UrlCheckOf(c, probe));
    IssuesCollected(reports, k, "Missing author");
    AdviceForMissingAuthor(AllIssues(reports), Summarize(reports).overallQuality, style);
  }

  // ---------------------------------------------------------------------------
  // DOI

  /** `validate_doi`: the format check, then the resolver at doi.org must
      answer 200 or 302; any failure of the request gives `false`. */
  function ValidateDoi(doi: string, resolve: string -> HeadOutcome): (ok: bool)
    ensures ok <==> DoiFormat(doi) && resolve("https://doi.org/" + doi) in {Responded(200), Responded(302)}
    ensures ok ==> StartsWith(doi, "10.")
  {
    if !DoiFormat(doi) then false
    else
      assert StartsWith(doi, "10.") by {
        assert doi[0..3] == DoiAt(doi, 0).value.text[0..3];
      }
      var outcome := resolve("https://doi.org/" + doi);
      outcome.Responded? && outcome.status in {200, 302}
  }

  /** A DOI accepted by the format check is one word, or one word and a final newline. */
  lemma DoiFormatShape(d: string)
    requires DoiFormat(d)
    ensures NoSpace(d) || (d[|d| - 1] == '\n' && NoSpace(d[..|d| - 1]))
  {
    var m := DoiAt(d, 0).value;
    if m.end == |d| {
      assert m.text == d;
    } else {
      assert m.text == d[..|d| - 1];
    }
  }
}
