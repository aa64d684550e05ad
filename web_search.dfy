/** The search scorer: each raw search hit gets a relevance score against the
    query, a content-quality score and a source type; the first `max_results`
    hits are kept and ranked by the mean of the two scores. The search engine
    itself is a parameter: `hits` is the list it returned. */
module WebSearch {
  import opened Results
  import opened Text
  import opened Stats
  import Ranking

  /** A raw hit as the search engine returns it; a missing key reads as "". */
  datatype Hit = Hit(title: Option<string>, body: Option<string>, href: Option<string>)

  // ---------------------------------------------------------------------------
  // Relevance
  // ---------------------------------------------------------------------------

  /** `set(query.lower().split())`. */
  function Terms(query: string): set<string>
  {
    set w | w in Words(Lower(query))
  }

  /** The query terms that occur, as substrings, in the lower-cased text. */
  function Hits(terms: set<string>, text: string): (r: set<string>)
    ensures r <= terms
  {
    set t | t in terms && Contains(Lower(text), t)
  }

  /** `min((0.7 * title_matches + 0.3 * body_matches) / len(query_terms), 1.0)`. */
  function RelevanceOf(terms: set<string>, title: string, body: string): real
    requires terms != {}
  {
    var t := |Hits(terms, title)| as real;
    var b := |Hits(terms, body)| as real;
    Min((t * 0.7 + b * 0.3) / |terms| as real, 1.0)
  }

  function Min(a: real, b: real): real { if a <= b then a else b }

  /** Python's message for a float division by zero. */
  const ZeroDivision: string := "float division by zero"

  /** `_calculate_relevance`: the division fails when the query has no terms. */
  function Relevance(query: string, title: string, body: string): (r: Result<real>)
    ensures r.Err? <==> Terms(query) == {}
  {
    var terms := Terms(query);
    if terms == {} then Err(ZeroDivision) else Ok(RelevanceOf(terms, title, body))
  }

  /** Since no more terms can match than there are, the ratio is already in
      [0, 1] and the `min` with 1.0 never changes it. */
  lemma RelevanceBounds(terms: set<string>, title: string, body: string)
    requires terms != {}
    ensures var t := |Hits(terms, title)| as real;
      var b := |Hits(terms, body)| as real;
      RelevanceOf(terms, title, body) == (t * 0.7 + b * 0.3) / |terms| as real
    ensures 0.0 <= RelevanceOf(terms, title, body) <= 1.0
  {
    SubsetCardinality(Hits(terms, title), terms);
    SubsetCardinality(Hits(terms, body), terms);
    var t := |Hits(terms, title)| as real;
    var b := |Hits(terms, body)| as real;
    RatioWithin(t * 0.7 + b * 0.3, |terms| as real);
  }

  /** A query whose every term occurs in both the title and the body scores 1. */
  lemma FullMatchScoresOne(terms: set<string>, title: string, body: string)
    requires terms != {}
    requires forall t :: t in terms ==> Contains(Lower(title), t) && Contains(Lower(body), t)
    ensures RelevanceOf(terms, title, body) == 1.0
  {
    assert Hits(terms, title) == terms;
    assert Hits(terms, body) == terms;
  }

  /** A query none of whose terms occurs in the title or the body scores 0. */
  lemma NoMatchScoresZero(terms: set<string>, title: string, body: string)
    requires terms != {}
    requires forall t :: t in terms ==> !Contains(Lower(title), t) && !Contains(Lower(body), t)
    ensures RelevanceOf(terms, title, body) == 0.0
  {
    assert Hits(terms, title) == {};
    assert Hits(terms, body) == {};
  }

  /** `lower()` changes no whitespace character and makes none. */
  lemma LowerKeepsSpaces(s: string, k: nat)
    requires k < |s|
    ensures IsSpace(Lower(s)[k]) <==> IsSpace(s[k])
  {
  }

  /** The query has no terms exactly when it is empty or all whitespace, so
      `_calculate_relevance` fails exactly for those queries. */
  lemma NoTermsIffBlank(query: string)
    ensures Terms(query) == {} <==> forall k :: 0 <= k < |query| ==> IsSpace(query[k])
  {
    var lq := Lower(query);
    if forall k :: 0 <= k < |query| ==> IsSpace(query[k]) {
      forall k | 0 <= k < |lq| ensures IsSpace(lq[k]) {
        LowerKeepsSpaces(query, k);
      }
      BlankHasNoWords(lq);
    } else {
      var k :| 0 <= k < |query| && !IsSpace(query[k]);
      LowerKeepsSpaces(query, k);
      var a := SpanFrom(lq, 0, IsSpace);
      assert a <= k < |lq|;
      assert Words(lq) != [];
      assert Words(lq)[0] in Terms(query);
    }
  }

  // ---------------------------------------------------------------------------
  // Content quality and source type
  // ---------------------------------------------------------------------------

  predicate AnyIn(url: string, needles: seq<string>) {
    exists k | 0 <= k < |needles| :: Contains(url, needles[k])
  }

  predicate Institutional(url: string) { AnyIn(url, [".edu", ".gov", ".org"]) }

  predicate Reference(url: string) { AnyIn(url, ["wikipedia", "arxiv", "scholar"]) }

  /** `_assess_content_quality`. */
  function ContentQuality(title: string, body: string, url: string): real
  {
    var length := (if |body| > 100 then 0.2 else 0.0) + (if |title| > 20 then 0.1 else 0.0);
    var domain := if Institutional(url) then 0.3 else if Reference(url) then 0.2 else 0.0;
    Min(0.5 + length + domain, 1.0)
  }

  /** The quality lies in [0.5, 1.0]; it is 0.5 exactly when no indicator
      applies; an institutional domain with a long body reaches the cap. */
  lemma ContentQualityBounds(title: string, body: string, url: string)
    ensures 0.5 <= ContentQuality(title, body, url) <= 1.0
    ensures ContentQuality(title, body, url) == 0.5
        <==> |body| <= 100 && |title| <= 20 && !Institutional(url) && !Reference(url)
    ensures Institutional(url) && |body| > 100 ==> ContentQuality(title, body, url) == 1.0
  {
  }

  datatype SourceType = Academic | Government | Organization | Encyclopedia | Preprint | News | General

  function SourceLabel(t: SourceType): string {
    match t
    case Academic => "academic"
    case Government => "government"
    case Organization => "organization"
    case Encyclopedia => "encyclopedia"
    case Preprint => "preprint"
    case News => "news"
    case General => "general"
  }

  /** The seven labels are distinct. */
  lemma SourceLabelInjective(a: SourceType, b: SourceType)
    ensures SourceLabel(a) == SourceLabel(b) ==> a == b
  {
    if SourceLabel(a) == SourceLabel(b) {
      var n := SourceLabel(a);
      assert |n| == |SourceLabel(b)| && n[0] == SourceLabel(b)[0] && n[1] == SourceLabel(b)[1];
    }
  }

  const NewsMarks: seq<string> := ["bbc", "cnn", "reuters", "ap", "news"]

  /** `_identify_source_type`: the first rule whose substring occurs decides. */
  function IdentifySourceType(url: string): SourceType
  {
    if Contains(url, ".edu") then Academic
    else if Contains(url, ".gov") then Government
    else if Contains(url, ".org") then Organization
    else if Contains(url, "wikipedia") then Encyclopedia
    else if Contains(url, "arxiv") then Preprint
    else if AnyIn(url, NewsMarks) then News
    else General
  }

  /** The rules in their order, each label with the condition under which it is
      chosen: its own marker present and no earlier marker present. */
  lemma SourceTypeRules(url: string)
    ensures IdentifySourceType(url) == Academic <==> Contains(url, ".edu")
    ensures IdentifySourceType(url) == Government <==> !Contains(url, ".edu") && Contains(url, ".gov")
    ensures IdentifySourceType(url) == Organization
        <==> !Contains(url, ".edu") && !Contains(url, ".gov") && Contains(url, ".org")
    ensures IdentifySourceType(url) == Encyclopedia <==> !Institutional(url) && Contains(url, "wikipedia")
    ensures IdentifySourceType(url) == Preprint
        <==> !Institutional(url) && !Contains(url, "wikipedia") && Contains(url, "arxiv")
    ensures IdentifySourceType(url) == News
        <==> !Institutional(url) && !Contains(url, "wikipedia") && !Contains(url, "arxiv") && AnyIn(url, NewsMarks)
    ensures IdentifySourceType(url) == General
        <==> !Institutional(url) && !Contains(url, "wikipedia") && !Contains(url, "arxiv") && !AnyIn(url, NewsMarks)
  {
    InstitutionalIff(url);
  }

  lemma InstitutionalIff(url: string)
    ensures Institutional(url) <==> Contains(url, ".edu") || Contains(url, ".gov") || Contains(url, ".org")
  {
    var ns := [".edu", ".gov", ".org"];
    if Contains(url, ".edu") { assert Contains(url, ns[0]); }
    if Contains(url, ".gov") { assert Contains(url, ns[1]); }
    if Contains(url, ".org") { assert Contains(url, ns[2]); }
  }

  /** The two classifiers agree: an academic, government or organization
      source scores at least 0.8 for content quality, an encyclopedia or
      preprint at least 0.7. */
  lemma SourceTypeBoundsQuality(title: string, body: string, url: string)
    ensures IdentifySourceType(url) in {Academic, Government, Organization} ==> ContentQuality(title, body, url) >= 0.8
    ensures IdentifySourceType(url) in {Encyclopedia, Preprint} ==> ContentQuality(title, body, url) >= 0.7
  {
    InstitutionalIff(url);
    var ns := ["wikipedia", "arxiv", "scholar"];
    if Contains(url, "wikipedia") { assert Contains(url, ns[0]); }
    if Contains(url, "arxiv") { assert Contains(url, ns[1]); }
  }

  // ---------------------------------------------------------------------------
  // The search tool
  // ---------------------------------------------------------------------------

  /** One scored result. */
  datatype Scored = Scored(title: string, snippet: string, url: string,
                           relevance: real, quality: real, sourceType: SourceType)

  /** The ranking key: `(relevance_score + content_quality) / 2`. */
  function Combined(r: Scored): real { (r.relevance + r.quality) / 2.0 }

  function Score(terms: set<string>, h: Hit): (r: Scored)
    requires terms != {}
    ensures 0.0 <= r.relevance <= 1.0 && 0.5 <= r.quality <= 1.0
  {
    var title := h.title.GetOr("");
    var body := h.body.GetOr("");
    var url := h.href.GetOr("");
    RelevanceBounds(terms, title, body);
    ContentQualityBounds(title, body, url);
    Scored(title, body, url, RelevanceOf(terms, title, body), ContentQuality(title, body, url), IdentifySourceType(url))
  }

  function ScoreAll(terms: set<string>, hs: seq<Hit>): (r: seq<Scored>)
    requires terms != {}
    ensures |r| == |hs|
  {
    if hs == [] then [] else ScoreAll(terms, hs[..|hs| - 1]) + [Score(terms, hs[|hs| - 1])]
  }

  /** Python's `s[:n]`: a negative `n` counts from the end. */
  function SliceTo<T>(s: seq<T>, n: int): (r: seq<T>)
    ensures |r| <= |s| && r == s[..|r|]
    ensures n >= 0 ==> |r| == if n <= |s| then n else |s|
  {
    if n >= 0 then (if n <= |s| then s[..n] else s)
    else if |s| + n >= 0 then s[..|s| + n] else []
  }

  function Relevances(rs: seq<Scored>): (r: seq<real>)
    ensures |r| == |rs|
  {
    if rs == [] then [] else Relevances(rs[..|rs| - 1]) + [rs[|rs| - 1].relevance]
  }

  /** The JSON record `advanced_web_search` returns, without its timestamp. */
  datatype SearchReport = SearchReport(query: string, region: string, totalResults: nat,
                                       avgRelevance: real, results: seq<Scored>)

  /** What `advanced_web_search(query, max_results, region)` returns when the
      engine answered `hits`; the failure is the error record's message. */
  function SearchOf(query: string, maxResults: int, region: string, hits: seq<Hit>): Result<SearchReport>
  {
    var kept := SliceTo(hits, maxResults);
    var terms := Terms(query);
    if kept != [] && terms == {} then Err("Search failed: " + ZeroDivision)
    else
      var results := if kept == [] then [] else Ranking.SortDescending(ScoreAll(terms, kept), Combined);
      Ok(SearchReport(query, region, |results|, Mean(Relevances(results)), results))
  }

  lemma ScoreAllStep(terms: set<string>, hs: seq<Hit>, i: nat)
    requires terms != {} && i < |hs|
    ensures ScoreAll(terms, hs[..i + 1]) == ScoreAll(terms, hs[..i]) + [Score(terms, hs[i])]
  {
    assert hs[..i + 1][..i] == hs[..i];
  }

  /** `advanced_web_search`: scores the first `max_results` hits into a list,
      sorts it in place by the combined score, and averages the relevance. */
  method AdvancedWebSearch(query: string, maxResults: int, region: string, hits: seq<Hit>)
    returns (r: Result<SearchReport>)
    ensures r == SearchOf(query, maxResults, region, hits)
  {
    var kept := SliceTo(hits, maxResults);
    var scored := ScoreHits(query, kept);
    if scored.Err? {
      return Err("Search failed: " + scored.message);
    }
    var results := scored.value;
    if kept != [] {
      results := Ranking.SortDescending(results, Combined);
    }
    var avg := if results == [] then 0.0 else Sum(Relevances(results)) / |results| as real;
    r := Ok(SearchReport(query, region, |results|, avg, results));
  }

  /** The loop of `advanced_web_search`: each kept hit scored in turn; the
      first relevance computed fails when the query has no terms. */
  method ScoreHits(query: string, kept: seq<Hit>) returns (r: Result<seq<Scored>>)
    ensures r.Err? <==> kept != [] && Terms(query) == {}
    ensures r.Err? ==> r.message == ZeroDivision
    ensures r.Ok? ==> r.value == if kept == [] then [] else ScoreAll(Terms(query), kept)
  {
    var results: seq<Scored> := [];
    var i := 0;
    while i < |kept|
      invariant 0 <= i <= |kept|
      invariant i > 0 ==> Terms(query) != {}
      invariant Terms(query) != {} ==> results == ScoreAll(Terms(query), kept[..i])
      invariant Terms(query) == {} ==> results == []
    {
      var hit := kept[i];
      var title := hit.title.GetOr("");
      var body := hit.body.GetOr("");
      var url := hit.href.GetOr("");
      var relevance := Relevance(query, title, body);
      if relevance.Err? {
        return Err(relevance.message);
      }
      var scored := Scored(title, body, url, relevance.value, ContentQuality(title, body, url), IdentifySourceType(url));
      ScoreAllStep(Terms(query), kept, i);
      results := results + [scored];
      i := i + 1;
    }
    if kept != [] {
      assert kept[..i] == kept;
    }
    return Ok(results);
  }

  lemma {:induction false} RelevancesWithin(rs: seq<Scored>)
    requires forall k :: 0 <= k < |rs| ==> 0.0 <= rs[k].relevance <= 1.0
    ensures Within(Relevances(rs), 0.0, 1.0)
    decreases |rs|
  {
    if rs != [] {
      RelevancesWithin(rs[..|rs| - 1]);
      assert forall k :: 0 <= k < |rs| - 1 ==> Relevances(rs)[k] == Relevances(rs[..|rs| - 1])[k];
    }
  }

  lemma {:induction false} ScoreAllBounds(terms: set<string>, hs: seq<Hit>, k: nat)
    requires terms != {} && k < |hs|
    ensures ScoreAll(terms, hs)[k] == Score(terms, hs[k])
    decreases |hs|
  {
    if k < |hs| - 1 {
      ScoreAllBounds(terms, hs[..|hs| - 1], k);
    }
  }

  /** The search fails exactly when some hit is to be scored and the query is
      blank. Otherwise:
      - at most `max_results` hits (and no more than the engine returned) are reported;
      - the results are exactly the scored kept hits, ranked by descending
        combined score, ties in their original order;
      - the average relevance is 0 without results and lies in [0, 1] otherwise. */
  lemma SearchReportShape(query: string, maxResults: int, region: string, hits: seq<Hit>)
    ensures var kept := SliceTo(hits, maxResults);
      SearchOf(query, maxResults, region, hits).Err?
      <==> kept != [] && forall k :: 0 <= k < |query| ==> IsSpace(query[k])
    ensures var r := SearchOf(query, maxResults, region, hits);
      r.Ok? ==>
        r.value.totalResults == |r.value.results| <= |hits|
        && (maxResults >= 0 ==> r.value.totalResults <= maxResults)
    ensures var r := SearchOf(query, maxResults, region, hits);
      var kept := SliceTo(hits, maxResults);
      r.Ok? && kept != [] ==>
        Ranking.Descending(r.value.results, Combined)
        && multiset(r.value.results) == multiset(ScoreAll(Terms(query), kept))
        && forall v :: Ranking.WithKey(r.value.results, Combined, v) == Ranking.WithKey(ScoreAll(Terms(query), kept), Combined, v)
    ensures var r := SearchOf(query, maxResults, region, hits);
      r.Ok? ==>
        (r.value.results == [] ==> r.value.avgRelevance == 0.0)
        && 0.0 <= r.value.avgRelevance <= 1.0
  {
    NoTermsIffBlank(query);
    var kept := SliceTo(hits, maxResults);
    var terms := Terms(query);
    var r := SearchOf(query, maxResults, region, hits);
    if r.Ok? {
      var results := r.value.results;
      if kept != [] {
        var scored := ScoreAll(terms, kept);
        Ranking.SortIsDescending(scored, Combined);
        Ranking.SortPermutes(scored, Combined);
        forall v ensures Ranking.WithKey(results, Combined, v) == Ranking.WithKey(scored, Combined, v) {
          Ranking.SortIsStable(scored, Combined, v);
        }
        forall k | 0 <= k < |results| ensures 0.0 <= results[k].relevance <= 1.0 {
          assert results[k] in multiset(scored);
          var m :| 0 <= m < |scored| && scored[m] == results[k];
          ScoreAllBounds(terms, kept, m);
        }
        RelevancesWithin(results);
        MeanWithin(Relevances(results), 0.0, 1.0);
      }
    }
  }
}
