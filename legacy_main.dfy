/** The older copies of the tools kept in the stand-alone `main.py`: a search
    tool ranked by relevance alone, a citation validator that splits on lines
    and counts three fields, and the quality metrics of a research session.
    Their rules differ from the tool modules in small ways, and the lemmas at
    the end of each part relate the two. */
module LegacyMain {
  import opened Results
  import opened Text
  import opened Scanners
  import opened Stats
  import Ranking
  import WS = WebSearch
  import CV = CitationValidator

  // ---------------------------------------------------------------------------
  // AdvancedWebSearchTool
  // ---------------------------------------------------------------------------

  /** `_calculate_relevance`: 0.5 when the query has no terms, otherwise the
      same weighted ratio as the search tool. */
  function LegacyRelevance(query: string, title: string, body: string): real
  {
    var terms := WS.Terms(query);
    if terms == {} then 0.5 else WS.RelevanceOf(terms, title, body)
  }

  /** The legacy score never fails, lies in [0, 1], and agrees with the search
      tool's wherever that one is defined; a blank query gets exactly 0.5. */
  lemma LegacyRelevanceAgrees(query: string, title: string, body: string)
    ensures 0.0 <= LegacyRelevance(query, title, body) <= 1.0
    ensures WS.Relevance(query, title, body).Ok? ==> LegacyRelevance(query, title, body) == WS.Relevance(query, title, body).value
    ensures (forall k :: 0 <= k < |query| ==> IsSpace(query[k])) ==> LegacyRelevance(query, title, body) == 0.5
  {
    WS.NoTermsIffBlank(query);
    if WS.Terms(query) != {} {
      WS.RelevanceBounds(WS.Terms(query), title, body);
    }
  }

  /** `_identify_source_type`: the search tool's rules without the news rule. */
  function LegacySourceType(url: string): WS.SourceType
  {
    if Contains(url, ".edu") then WS.Academic
    else if Contains(url, ".gov") then WS.Government
    else if Contains(url, ".org") then WS.Organization
    else if Contains(url, "wikipedia") then WS.Encyclopedia
    else if Contains(url, "arxiv") then WS.Preprint
    else WS.General
  }

  /** The two classifiers differ only on news sites, which the legacy one calls
      general: it has six labels, never "news". */
  lemma SourceTypesAgree(url: string)
    ensures LegacySourceType(url) == if WS.IdentifySourceType(url) == WS.News then WS.General else WS.IdentifySourceType(url)
    ensures LegacySourceType(url) != WS.News
  {
  }

  datatype LegacyScored = LegacyScored(title: string, snippet: string, url: string,
                                       relevance: real, sourceType: WS.SourceType)

  function Relevance(r: LegacyScored): real { r.relevance }

  function LegacyScore(query: string, h: WS.Hit): LegacyScored
  {
    var title := h.title.GetOr("");
    var body := h.body.GetOr("");
    var url := h.href.GetOr("");
    LegacyScored(title, body, url, LegacyRelevance(query, title, body), LegacySourceType(url))
  }

  function LegacyScoreAll(query: string, hs: seq<WS.Hit>): (r: seq<LegacyScored>)
    ensures |r| == |hs|
  {
    if hs == [] then [] else LegacyScoreAll(query, hs[..|hs| - 1]) + [LegacyScore(query, hs[|hs| - 1])]
  }

  /** The record `search` returns, without its timestamp. */
  datatype LegacySearchReport = LegacySearchReport(query: string, totalResults: nat, results: seq<LegacyScored>)

  /** `AdvancedWebSearchTool.search`: every hit the engine returned is scored
      (the engine was already asked for at most `max_results`), then the list
      is sorted in place by relevance, highest first. */
  method LegacySearch(query: string, hits: seq<WS.Hit>) returns (r: LegacySearchReport)
    ensures r.query == query && r.totalResults == |r.results| == |hits|
    ensures r.results == Ranking.SortDescending(LegacyScoreAll(query, hits), Relevance)
  {
    var results: seq<LegacyScored> := [];
    var i := 0;
    while i < |hits|
      invariant 0 <= i <= |hits|
      invariant results == LegacyScoreAll(query, hits[..i])
    {
      var hit := hits[i];
      var title := hit.title.GetOr("");
      var body := hit.body.GetOr("");
      var url := hit.href.GetOr("");
      assert hits[..i + 1][..i] == hits[..i];
      results := results + [LegacyScored(title, body, url, LegacyRelevance(query, title, body), LegacySourceType(url))];
      i := i + 1;
    }
    assert hits[..i] == hits;
    results := Ranking.SortDescending(results, Relevance);
    r := LegacySearchReport(query, |results|, results);
  }

  /** The legacy ranking: highest relevance first, exactly the scored hits,
      equal relevance in the engine's order. */
  lemma LegacyRanking(query: string, hits: seq<WS.Hit>)
    ensures var sorted := Ranking.SortDescending(LegacyScoreAll(query, hits), Relevance);
      Ranking.Descending(sorted, Relevance)
      && multiset(sorted) == multiset(LegacyScoreAll(query, hits))
      && forall v :: Ranking.WithKey(sorted, Relevance, v) == Ranking.WithKey(LegacyScoreAll(query, hits), Relevance, v)
  {
    var scored := LegacyScoreAll(query, hits);
    Ranking.SortIsDescending(scored, Relevance);
    Ranking.SortPermutes(scored, Relevance);
    forall v ensures Ranking.WithKey(Ranking.SortDescending(scored, Relevance), Relevance, v) == Ranking.WithKey(scored, Relevance, v) {
      Ranking.SortIsStable(scored, Relevance, v);
    }
  }

  // ---------------------------------------------------------------------------
  // CitationValidatorTool
  // ---------------------------------------------------------------------------

  /** `_parse_citations`: the lines, stripped, kept when longer than 20 characters. */
  function LegacyParseCitations(text: string): seq<string>
  {
    CV.Cleaned(Split(text, "\n"))
  }

  /** Every legacy citation is one trimmed line longer than 20 characters. */
  lemma LegacyCitationIsClean(text: string, j: nat)
    requires j < |LegacyParseCitations(text)|
    ensures var c := LegacyParseCitations(text)[j];
      Strip(c) == c && |c| > 20 && !Contains(c, "\n")
  {
    var lines := Split(text, "\n");
    CV.CleanedIsClean(lines, "\n");
  }

  /** On a text of one line the two parsers agree: every separator of the
      citation tool starts with a newline. */
  lemma ParsersAgreeOnOneLine(text: string)
    requires '\n' !in text
    ensures LegacyParseCitations(text) == CV.CitationsOf(text)
  {
    forall j | 0 <= j < |CV.Separators| ensures !Contains(text, CV.Separators[j]) {
      AbsentFirstChar(text, CV.Separators[j]);
    }
    CV.SingleCitation(text);
    AbsentFirstChar(text, "\n");
    assert Split(text, "\n") == [text];
    assert [text][..0] == [] && [text][0] == text;
    assert CV.Cleaned([text]) == CV.Cleaned([]) + (if |Strip(text)| > 20 then [Strip(text)] else []);
  }

  /** `_extract_components`: the first URL, the whole first year, the first
      quoted title, and the author before "(" + year + ")". */
  function LegacyExtract(citation: string): CV.Components
  {
    var year := CV.First(FindAll(YearNumber(true), citation, 0));
    CV.Components(CV.First(FindAll(HttpUrl, citation, 0)), year, None,
                  CV.First(FindAll(Enclosed('"'), citation, 0)), CV.AuthorOf(citation, year), None)
  }

  /** Whole years and their groups, pairwise: each group is the first two
      characters of the four-character year at the same position. */
  ghost predicate YearsPair(whole: seq<string>, groups: seq<string>) {
    |whole| == |groups|
    && forall k :: 0 <= k < |whole| ==> |whole[k]| == 4 && whole[k][..2] == groups[k]
  }

  lemma YearsPairCons(w: string, g: string, whole: seq<string>, groups: seq<string>)
    requires |w| == 4 && w[..2] == g && YearsPair(whole, groups)
    ensures YearsPair([w] + whole, [g] + groups)
  {
  }

  /** The year pattern matches at the same places whether it reports the
      whole match or the group: the reports pair up. */
  lemma {:induction false} YearReportsPair(s: string, i: nat)
    ensures YearsPair(FindAll(YearNumber(true), s, i), FindAll(YearNumber(false), s, i))
    decreases |s| - i
  {
    if i < |s| {
      var w := YearAt(s, i, true);
      var g := YearAt(s, i, false);
      assert w.Some? <==> g.Some?;
      if w.Some? {
        YearReportsPair(s, i + 4);
        assert w.value.text[..2] == g.value.text;
        YearsPairCons(w.value.text, g.value.text,
                      FindAll(YearNumber(true), s, i + 4), FindAll(YearNumber(false), s, i + 4));
      } else {
        YearReportsPair(s, i + 1);
      }
    }
  }

  /** The legacy year is a whole four-digit year; the tool's year is the
      century of the LAST year in the citation while the legacy year is the
      FIRST, so they agree on the century whenever the citation has one year. */
  lemma LegacyYearVersusTool(citation: string)
    ensures LegacyExtract(citation).year.Some? <==> CV.ExtractComponents(citation).year.Some?
    ensures LegacyExtract(citation).year.Some? ==> |LegacyExtract(citation).year.value| == 4
    ensures |FindAll(YearNumber(true), citation, 0)| == 1 ==>
      LegacyExtract(citation).year.value[..2] == CV.ExtractComponents(citation).year.value
  {
    var ws := FindAll(YearNumber(true), citation, 0);
    var gs := FindAll(YearNumber(false), citation, 0);
    YearReportsPair(citation, 0);
    assert LegacyExtract(citation).year == CV.First(ws);
    assert CV.ExtractComponents(citation).year == CV.Last(gs);
    if |ws| == 1 {
      assert ws[0][..2] == gs[0];
    }
  }

  /** The record `_validate_single_citation` returns. */
  datatype LegacyCheck = LegacyCheck(
    number: nat, original: string, components: CV.Components,
    hasAuthor: bool, hasTitle: bool, hasYear: bool, hasUrl: bool,
    isValid: bool, quality: real)

  /** How many of author, title and year are present. */
  function HasRequired(c: CV.Components): (n: nat)
    ensures n <= 3
  {
    (if CV.Has(c, CV.Author) then 1 else 0) + (if CV.Has(c, CV.Title) then 1 else 0) + (if CV.Has(c, CV.Year) then 1 else 0)
  }

  function LegacyValidateSingle(citation: string, number: nat): LegacyCheck
  {
    var c := LegacyExtract(citation);
    var n := HasRequired(c);
    LegacyCheck(number, citation, c, CV.Has(c, CV.Author), CV.Has(c, CV.Title), CV.Has(c, CV.Year),
                CV.Has(c, CV.Url), n >= 2, n as real / 3.0)
  }

  /** The legacy quality is a third per field, so one of 0, 1/3, 2/3 or 1, and
      a citation is valid exactly when two of the three fields are there,
      that is when its quality reaches 2/3. */
  lemma LegacyQualitySteps(citation: string, number: nat)
    ensures var r := LegacyValidateSingle(citation, number);
      r.quality in {0.0, 1.0 / 3.0, 2.0 / 3.0, 1.0}
      && (r.isValid <==> r.quality >= 2.0 / 3.0)
      && (r.isValid <==> (r.hasAuthor && r.hasTitle) || (r.hasAuthor && r.hasYear) || (r.hasTitle && r.hasYear))
  {
  }

  /** A legacy author, like the tool's, needs a year. */
  lemma LegacyAuthorNeedsYear(citation: string)
    ensures LegacyExtract(citation).author.Some? ==> LegacyExtract(citation).year.Some?
  {
  }

  /** The checks of `citations`, numbered from 1. */
  function LegacyChecks(citations: seq<string>): (r: seq<LegacyCheck>)
    ensures |r| == |citations|
  {
    Numbered(citations, CheckOf())
  }

  /** The check of one citation given its number. */
  function CheckOf(): (string, nat) -> LegacyCheck
  {
    (citation: string, number: nat) => LegacyValidateSingle(citation, number)
  }

  /** `sum(1 for c in validated_citations if c["is_valid"])`. */
  function CountValid(checks: seq<LegacyCheck>): (n: nat)
    ensures n <= |checks|
  {
    if checks == [] then 0 else CountValid(checks[..|checks| - 1]) + (if checks[|checks| - 1].isValid then 1 else 0)
  }

  /** The record `validate` returns, without its timestamp. */
  datatype LegacyValidation = LegacyValidation(
    style: string, totalCitations: nat, validCitations: nat, validationRate: real,
    checks: seq<LegacyCheck>, overallGood: bool)

  const ValidationZeroDivision := "Citation validation failed: division by zero"

  /** What `validate(citations, style)` returns. `overall_quality` divides by
      the number of citations with no guard, so a text without citations ends
      in the error record even though `validation_rate` has a guard. */
  function LegacyValidationOf(text: string, style: string): Result<LegacyValidation>
  {
    var citations := LegacyParseCitations(text);
    var checks := LegacyChecks(citations);
    var valid := CountValid(checks);
    if |citations| == 0 then Err(ValidationZeroDivision)
    else
      var rate := valid as real / |citations| as real;
      Ok(LegacyValidation(style, |citations|, valid, rate, checks, rate > 0.7))
  }

  /** `validate`: the loop over the parsed citations, then the summary fields. */
  method LegacyValidate(text: string, style: string) returns (r: Result<LegacyValidation>)
    ensures r == LegacyValidationOf(text, style)
  {
    var citations := LegacyParseCitations(text);
    var validated := LegacyCheckEach(citations);
    var totalValid := CountValid(validated);
    if |citations| == 0 {
      return Err(ValidationZeroDivision);
    }
    var rate := totalValid as real / |citations| as real;
    r := Ok(LegacyValidation(style, |citations|, totalValid, rate, validated, rate > 0.7));
  }

  /** The loop of `validate`: check each citation in turn. */
  method LegacyCheckEach(citations: seq<string>) returns (validated: seq<LegacyCheck>)
    ensures validated == LegacyChecks(citations)
  {
    validated := [];
    var i := 0;
    while i < |citations|
      invariant 0 <= i <= |citations|
      invariant validated == LegacyChecks(citations[..i])
    {
      NumberedStep(citations, CheckOf(), i);
      validated := validated + [LegacyValidateSingle(citations[i], i + 1)];
      i := i + 1;
    }
    assert citations[..i] == citations;
  }

  lemma LegacyChecksNumbered(citations: seq<string>, k: nat)
    requires k < |citations|
    ensures LegacyChecks(citations)[k] == LegacyValidateSingle(citations[k], k + 1)
  {
    NumberedAt(citations, CheckOf(), k);
  }

  /** The legacy validation fails exactly on a text without citations;
      otherwise it checks each citation in order, numbered from 1, its rate
      lies in [0, 1], and it says "Good" exactly when the rate exceeds 0.7. */
  lemma LegacyValidationShape(text: string, style: string)
    ensures LegacyValidationOf(text, style).Err? <==> LegacyParseCitations(text) == []
    ensures var r := LegacyValidationOf(text, style);
      r.Ok? ==>
        r.value.totalCitations == |r.value.checks| == |LegacyParseCitations(text)|
        && r.value.validCitations <= r.value.totalCitations
        && 0.0 <= r.value.validationRate <= 1.0
        && (r.value.overallGood <==> r.value.validationRate > 0.7)
        && forall k :: 0 <= k < |r.value.checks| ==>
             r.value.checks[k] == LegacyValidateSingle(LegacyParseCitations(text)[k], k + 1)
  {
    var citations := LegacyParseCitations(text);
    if citations != [] {
      var valid := CountValid(LegacyChecks(citations));
      RatioWithin(valid as real, |citations| as real);
      forall k | 0 <= k < |citations| ensures LegacyChecks(citations)[k] == LegacyValidateSingle(citations[k], k + 1) {
        LegacyChecksNumbered(citations, k);
      }
    }
  }

  // ---------------------------------------------------------------------------
  // ResearchAssistantSystem._calculate_quality_metrics
  // ---------------------------------------------------------------------------

  /** One entry of the search results as the metrics read it; missing keys
      read as 0 and "general". */
  datatype ResultEntry = ResultEntry(relevance: Option<real>, sourceType: Option<string>)

  datatype QualityMetrics = QualityMetrics(searchEffectiveness: real, averageRelevance: real,
                                           sourceDiversity: real, overallQuality: real)

  function EntryRelevances(es: seq<ResultEntry>): (r: seq<real>)
    ensures |r| == |es|
  {
    if es == [] then [] else EntryRelevances(es[..|es| - 1]) + [es[|es| - 1].relevance.GetOr(0.0)]
  }

  function EntryTypes(es: seq<ResultEntry>): set<string>
  {
    set k | 0 <= k < |es| :: es[k].sourceType.GetOr("general")
  }

  /** `_calculate_quality_metrics` for a session whose search reported
      `totalResults` and the entries `es`. */
  function MetricsOf(totalResults: int, es: seq<ResultEntry>): QualityMetrics
  {
    var avg := Mean(EntryRelevances(es));
    var diversity := |EntryTypes(es)| as real / 6.0;
    var effectiveness := if totalResults as real / 5.0 <= 1.0 then totalResults as real / 5.0 else 1.0;
    QualityMetrics(effectiveness, avg, diversity, (avg + diversity) / 2.0)
  }

  /** The entries a legacy search report hands to the metrics. */
  function Entries(rs: seq<LegacyScored>): (r: seq<ResultEntry>)
    ensures |r| == |rs|
  {
    if rs == [] then [] else Entries(rs[..|rs| - 1]) + [ResultEntry(Some(rs[|rs| - 1].relevance), Some(WS.SourceLabel(rs[|rs| - 1].sourceType)))]
  }

  const SixLabels: set<string> := {"academic", "government", "organization", "encyclopedia", "preprint", "general"}

  lemma {:induction false} EntriesOfLegacy(rs: seq<LegacyScored>)
    requires forall k :: 0 <= k < |rs| ==> 0.0 <= rs[k].relevance <= 1.0 && rs[k].sourceType != WS.News
    ensures Within(EntryRelevances(Entries(rs)), 0.0, 1.0)
    ensures EntryTypes(Entries(rs)) <= SixLabels
    decreases |rs|
  {
    if rs != [] {
      var init := rs[..|rs| - 1];
      EntriesOfLegacy(init);
      var es := Entries(rs);
      assert es[..|es| - 1] == Entries(init);
      forall k | 0 <= k < |es| ensures 0.0 <= EntryRelevances(es)[k] <= 1.0 {
        if k < |es| - 1 {
          assert EntryRelevances(es)[k] == EntryRelevances(Entries(init))[k];
        }
      }
      forall t | t in EntryTypes(es) ensures t in SixLabels {
        var k :| 0 <= k < |es| && es[k].sourceType.GetOr("general") == t;
        if k < |es| - 1 {
          assert es[k] == Entries(init)[k];
          assert t in EntryTypes(Entries(init));
        }
      }
    }
  }

  lemma SixLabelsCount()
    ensures |SixLabels| == 6
  {
  }

  /** The metrics of a legacy search: effectiveness saturates at five results,
      and since relevances lie in [0, 1] and there are only six labels, every
      metric lies in [0, 1]. */
  lemma LegacyMetricsBounded(query: string, hits: seq<WS.Hit>)
    ensures var rs := Ranking.SortDescending(LegacyScoreAll(query, hits), Relevance);
      var m := MetricsOf(|rs|, Entries(rs));
      0.0 <= m.searchEffectiveness <= 1.0 && (m.searchEffectiveness == 1.0 <==> |rs| >= 5)
      && 0.0 <= m.averageRelevance <= 1.0
      && 0.0 <= m.sourceDiversity <= 1.0
      && 0.0 <= m.overallQuality <= 1.0
  {
    var rs := Ranking.SortDescending(LegacyScoreAll(query, hits), Relevance);
    SortedLegacyInRange(query, hits);
    EntriesOfLegacy(rs);
    MetricsWithin(|rs|, Entries(rs));
  }

  /** Sorting keeps every legacy result's relevance in [0, 1] and its type a
      non-news one. */
  lemma SortedLegacyInRange(query: string, hits: seq<WS.Hit>)
    ensures var rs := Ranking.SortDescending(LegacyScoreAll(query, hits), Relevance);
      forall k :: 0 <= k < |rs| ==> 0.0 <= rs[k].relevance <= 1.0 && rs[k].sourceType != WS.News
  {
    var scored := LegacyScoreAll(query, hits);
    var rs := Ranking.SortDescending(scored, Relevance);
    Ranking.SortPermutes(scored, Relevance);
    forall k | 0 <= k < |rs| ensures 0.0 <= rs[k].relevance <= 1.0 && rs[k].sourceType != WS.News {
      assert rs[k] in multiset(scored);
      var m :| 0 <= m < |scored| && scored[m] == rs[k];
      LegacyScoreAt(query, hits, m);
    }
  }

  /** Entries with relevances in [0, 1] and at most the six labels give
      metrics in [0, 1]. */
  lemma MetricsWithin(n: nat, es: seq<ResultEntry>)
    requires Within(EntryRelevances(es), 0.0, 1.0) && EntryTypes(es) <= SixLabels
    ensures var m := MetricsOf(n, es);
      0.0 <= m.searchEffectiveness <= 1.0 && (m.searchEffectiveness == 1.0 <==> n >= 5)
      && 0.0 <= m.averageRelevance <= 1.0
      && 0.0 <= m.sourceDiversity <= 1.0
      && 0.0 <= m.overallQuality <= 1.0
  {
    MeanWithin(EntryRelevances(es), 0.0, 1.0);
    SubsetCardinality(EntryTypes(es), SixLabels);
    SixLabelsCount();
  }

  lemma {:induction false} LegacyScoreAt(query: string, hs: seq<WS.Hit>, k: nat)
    requires k < |hs|
    ensures LegacyScoreAll(query, hs)[k] == LegacyScore(query, hs[k])
    ensures 0.0 <= LegacyScoreAll(query, hs)[k].relevance <= 1.0
    ensures LegacyScoreAll(query, hs)[k].sourceType != WS.News
    decreases |hs|
  {
    if k < |hs| - 1 {
      LegacyScoreAt(query, hs[..|hs| - 1], k);
    } else {
      var h := hs[k];
      LegacyRelevanceAgrees(query, h.title.GetOr(""), h.body.GetOr(""));
    }
  }

  /** Without results the average relevance is 0 and the diversity is 0. */
  lemma NoResultsMetrics(totalResults: int)
    ensures MetricsOf(totalResults, []).averageRelevance == 0.0
    ensures MetricsOf(totalResults, []).sourceDiversity == 0.0
    ensures MetricsOf(totalResults, []).overallQuality == 0.0
  {
    assert EntryTypes([]) == {};
  }
}
