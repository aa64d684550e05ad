# Research assistant: the rule-based core, modelled in Dafny

The research assistant is a multi-agent application. Language-model agents plan,
search, analyse and write reports. Around them sit a few deterministic tools, and
this project models those tools and proves properties about them:

- **citation validator**: splits text into citations and extracts author, title,
  year, URL, DOI and journal with fixed regular expressions. It scores each
  citation's completeness against the fields its style requires, formats it in
  APA, MLA or Chicago style, and aggregates the run into a summary and
  recommendations.
- **fact checker**: splits text into claims and measures each claim's keyword
  overlap with the sources. It maps the overlap to one of three fixed confidence
  buckets and averages the confidences into a reliability.
- **web search scorer**: computes relevance and content quality and classifies
  the source type by the first matching rule. It keeps the first `max_results`
  hits and sorts them, stably, by combined score.
- **legacy duplicates in `main.py`**: the older relevance, source-type,
  citation-parsing, extraction and validation rules, and the quality metrics of a
  run.
- **summariser arithmetic**: word and character counts, target length,
  compression ratio and reading time.
- **controller bookkeeping**: the bounded context-memory log, the session
  metrics, and the fallback plans used when the planner's answer cannot be used.
- **workflow bookkeeping**: status and error updates, performance metrics, the
  validation and quality scores, citation extraction from a text, and the
  workflow registry.

The project is organised as follows:

| module | file | models |
|---|---|---|
| `Results` | results.dfy | `Option` and `Result` (an error carries its message) |
| `Text` | text.dfy | the string operations of Python: `isspace`, `strip`, `split`, `join`, `lower`, `upper`, `str(int)` |
| `Stats` | stats.dfy | sums and means, and numbering a list from 1 (`enumerate(..., 1)`) |
| `Ranking` | ranking.dfy | Python's stable `list.sort(reverse=True)`, as a stable insertion sort |
| `Scanners` | scanners.dfy | each fixed regular expression as a scanner over `seq<char>`, plus `re.findall` and `re.search` |
| `CitationValidator` | citation_validator.dfy | src/tools/citation_validator_tool.py |
| `FactChecker` | fact_checker.dfy | src/tools/fact_checker_tool.py |
| `WebSearch` | web_search.dfy | src/tools/search_tool.py |
| `LegacyMain` | legacy_main.dfy | the search, citation and metrics code in main.py |
| `Summarizer` | summarizer.dfy | src/tools/summarization_tool.py |
| `Controller` | controller.dfy | src/agents/controller_agent.py |
| `Workflow` | workflow.dfy | src/workflows/research_workflow.py |

The loops of the source are methods with loop invariants. Each method is proved
equal to a specification function, and the properties are proved about that
function. The controller, the workflow and the workflow manager update their
fields in place and are classes. Network access and the clock are parameters:
`probe`/`resolve` answer a HEAD request, `hits` are the search engine's raw
results, and `now` is the current time.

Where the code does something other than its names and comments suggest, the model
follows the code.

- The year of a citation is the capture group of `\b(19|20)\d{2}\b`, so `"19"`
  or `"20"`, and the author pattern then looks for `(19)` or `(20)`.
- No `source` component is ever extracted, so APA and MLA citations always miss
  one.
- `"Chicago".upper()` is not a key of the style table, so Chicago requires only
  three fields.
- Keyword and query-term matches are substring tests.
- An empty query makes the search tool divide by zero. The tool returns that
  error as its result.
- `_extract_citations_from_text` uses `re` without importing it (see Findings).

## Model

| member | source | states |
|---|---|---|
| CitationValidator.ParseCitations | src/tools/citation_validator_tool.py:71-86 | the loop over the six separators and the cleaning pass compute exactly `CitationsOf(text)` |
| CitationValidator.CitationsOf | src/tools/citation_validator_tool.py:71-86 | the parsed citation list: the text split on each of the six separators in turn, each piece stripped and kept when longer than 20 characters; `CitationIsClean` and `SingleCitation` state its properties |
| CitationValidator.SplitPieces | src/tools/citation_validator_tool.py:76-81 | re-splitting every piece on one separator, in order, gives `SplitEach` |
| CitationValidator.CleanPieces | src/tools/citation_validator_tool.py:82-86 | the kept pieces are the stripped pieces longer than 20 characters, in input order |
| CitationValidator.SplitAllRemoves | src/tools/citation_validator_tool.py:74-81 | after all the splits, no piece contains any of the separators |
| CitationValidator.CitationIsClean | src/tools/citation_validator_tool.py:71-86 | every parsed citation is stripped, longer than 20 characters and free of each of the six separators |
| CitationValidator.SingleCitation | src/tools/citation_validator_tool.py:71-86 | text without any separator yields just its stripped self, or nothing when that has 20 characters or fewer |
| CitationValidator.ExtractedShape | src/tools/citation_validator_tool.py:130-183 | source is never extracted; the year is "19" or "20"; a URL starts with http:// or https:// and has no whitespace; a DOI starts with "10." and has no whitespace; a title is non-empty and quote-free; a journal is non-empty |
| CitationValidator.ExtractComponents | src/tools/citation_validator_tool.py:130-183 | the extracted components: first URL, last year group, first DOI, first quoted title, the author before the year, the first journal; `ExtractedShape` and `ExtractedIffMatched` state their shapes |
| CitationValidator.AuthorOf | src/tools/citation_validator_tool.py:165-169 | the author: the stripped text before the first "(year)", searched only when a year was found; `AuthorShape` states its shape |
| CitationValidator.Journals | src/tools/citation_validator_tool.py:172-181 | the journal candidates, asterisk-enclosed before underscore-enclosed; `JournalShape` states the shape of the first |
| CitationValidator.UrlShape | src/tools/citation_validator_tool.py:135-138 | the first `https?://\S+` match starts with a scheme and contains no whitespace |
| CitationValidator.YearShape | src/tools/citation_validator_tool.py:141-144 | the last year match is its capture group, "19" or "20" |
| CitationValidator.DoiShape | src/tools/citation_validator_tool.py:147-150 | the DOI starts with "10." and has no whitespace |
| CitationValidator.TitleShape | src/tools/citation_validator_tool.py:153-162 | the title is the non-empty contents of a pair of quotes, with no quote inside |
| CitationValidator.JournalShape | src/tools/citation_validator_tool.py:172-181 | the journal is non-empty and lacks the asterisk or the underscore that enclosed it |
| CitationValidator.AuthorShape | src/tools/citation_validator_tool.py:165-169 | an author is extracted only when a year was, and contains no period |
| CitationValidator.ExtractedIffMatched | src/tools/citation_validator_tool.py:135-162 | each of URL, year, DOI and title is present exactly when its pattern matches somewhere; URL, DOI and title are the leftmost matches |
| CitationValidator.RequiredComponents | src/tools/citation_validator_tool.py:185-195 | author, title and year always come first; a fourth field, source, is required exactly when the upper-cased style is APA or MLA |
| CitationValidator.UpperIsNotChicago | src/tools/citation_validator_tool.py:192-195 | no style upper-cases to "Chicago", so Chicago requires three fields |
| CitationValidator.ValidateComponents | src/tools/citation_validator_tool.py:197-219 | the accumulated score, strengths and issues are the share of present required fields plus the DOI and URL bonuses, "Has" entries plus bonus strengths, and "Missing" entries |
| CitationValidator.ComponentScore | src/tools/citation_validator_tool.py:197-219 | the component score: present share plus 0.1 for a DOI and 0.05 for a URL; `ComponentScoreBounds` bounds it |
| CitationValidator.HasEntries | src/tools/citation_validator_tool.py:203-205 | the "Has X" strengths, one per present required field in order; `EntriesPartition` counts them |
| CitationValidator.MissingEntries | src/tools/citation_validator_tool.py:206-208 | the "Missing X" issues, one per absent required field in order; `MissingIff` characterises them |
| CitationValidator.BonusStrengths | src/tools/citation_validator_tool.py:210-217 | "Includes DOI" and "Includes URL" for the components present |
| CitationValidator.TallyRequired | src/tools/citation_validator_tool.py:200-208 | the loop over required fields yields the present share and the "Has"/"Missing" entries in order |
| CitationValidator.UnitSumIsCount | src/tools/citation_validator_tool.py:200-205 | adding 1/n once per present field gives the present count times 1/n |
| CitationValidator.EntriesPartition | src/tools/citation_validator_tool.py:200-208 | each required field adds exactly one entry: the strengths count the present fields and strengths plus issues number the required fields |
| CitationValidator.MissingIff | src/tools/citation_validator_tool.py:206-208 | "Missing X" is reported exactly when X is required and absent |
| CitationValidator.ComponentScoreBounds | src/tools/citation_validator_tool.py:200-217 | the component score lies in [0, 1.15] |
| CitationValidator.ValidateUrlAccessibility | src/tools/citation_validator_tool.py:221-257 | the URL is accessible exactly when the HEAD request answered 200, exactly when no error is recorded; a status code is recorded exactly when the server answered; another status gives "HTTP <code>" |
| CitationValidator.FormatMentionsComponents | src/tools/citation_validator_tool.py:259-332 | every present author, title, year and journal, and the URL except in MLA, appears in the formatted citation |
| CitationValidator.FormatCitation | src/tools/citation_validator_tool.py:259-269 | MLA and Chicago by their upper-cased names, every other style as APA, ending with a period; `FormatMentionsComponents` and `FormatEndsWithPeriod` state its properties |
| CitationValidator.ApaParts | src/tools/citation_validator_tool.py:271-290 | the APA parts: author, "(year)", title, italic journal, "Retrieved from url", for the components present |
| CitationValidator.MlaParts | src/tools/citation_validator_tool.py:292-311 | the MLA parts: author, quoted title, italic journal, year, and the access date when a URL is present |
| CitationValidator.ChicagoParts | src/tools/citation_validator_tool.py:313-332 | the Chicago parts: author, quoted title, italic journal, year, and the URL with its access date |
| CitationValidator.FormatEndsWithPeriod | src/tools/citation_validator_tool.py:259-332 | every formatted citation ends with a period; a citation without components formats as "." |
| CitationValidator.QualityBounded | src/tools/citation_validator_tool.py:112-125 | the capped quality score lies in [0, 1] |
| CitationValidator.UrlCheckOf | src/tools/citation_validator_tool.py:112-114 | the URL check is made exactly when a URL was extracted |
| CitationValidator.Quality | src/tools/citation_validator_tool.py:116-125 | the component score plus 0.1 for a reachable URL, capped at 1; `QualityBounded` bounds it |
| CitationValidator.ReportIssues | src/tools/citation_validator_tool.py:108-119 | the issues of a citation: the missing fields, then "URL not accessible: …" for an unreachable URL |
| CitationValidator.ValidateSingleCitation | src/tools/citation_validator_tool.py:88-128 | the report is the one `SingleReport` defines: extraction, required fields, scoring, URL check, cap, validity and formatting |
| CitationValidator.SingleReport | src/tools/citation_validator_tool.py:88-128 | the report of one citation; `ValidateSingleCitation` computes it and `CompleteCitationIsValid`, `ApaMlaAlwaysMissSource` state its properties |
| CitationValidator.ReportFrom | src/tools/citation_validator_tool.py:104-128 | the report built from extracted components; `ValidateExtracted` computes it |
| CitationValidator.ValidateExtracted | src/tools/citation_validator_tool.py:104-128 | the step-by-step updates of the result record produce `ReportFrom` |
| CitationValidator.CompleteCitationIsValid | src/tools/citation_validator_tool.py:112-126 | a citation with author, title and year is valid in every style |
| CitationValidator.ValidNeedsTwoComponents | src/tools/citation_validator_tool.py:125-126 | a valid citation has at least two of its required fields |
| CitationValidator.ApaMlaAlwaysMissSource | src/tools/citation_validator_tool.py:190-191 | APA and MLA always report "Missing source" |
| CitationValidator.IssueAdvice | src/tools/citation_validator_tool.py:350-366 | each piece of issue advice is given exactly when its flag is set, the author advice first |
| CitationValidator.QualityAdvice | src/tools/citation_validator_tool.py:368-372 | the review advice is given exactly below 0.7, the source advice exactly below 0.5 |
| CitationValidator.Recommendations | src/tools/citation_validator_tool.py:342-377 | between one and seven recommendations, always ending with the style reminder |
| CitationValidator.StyleReminder | src/tools/citation_validator_tool.py:374-375 | the closing reminder names the style as given |
| CitationValidator.RecommendationsFollowIssues | src/tools/citation_validator_tool.py:342-377 | each recommendation appears exactly when its cause does: some issue mentions a missing author, year or title or an unreachable URL, or the quality is below 0.7 or 0.5 |
| CitationValidator.MissingAuthorIsRecommended | src/tools/citation_validator_tool.py:40-60 | a run in which some citation lacks an author recommends adding author information |
| CitationValidator.ValidateCitations | src/tools/citation_validator_tool.py:11-62 | the run built by the loop is exactly `Validation(citations, style, ...)` |
| CitationValidator.Validation | src/tools/citation_validator_tool.py:11-62 | the validation run of a text; `ValidateCitations` computes it and `RunSummary` states its properties |
| CitationValidator.Reports | src/tools/citation_validator_tool.py:40-48 | one report per citation, numbered from 1; `ReportsNumbered` states the numbering |
| CitationValidator.ValidCount | src/tools/citation_validator_tool.py:44-45 | the number of valid reports; `AllValidIff` characterises it |
| CitationValidator.AllIssues | src/tools/citation_validator_tool.py:46-48 | the issues of all reports in order; `IssuesCollected` states that none is lost |
| CitationValidator.OverallQuality | src/tools/citation_validator_tool.py:334-340 | the mean quality, 0 for no reports; `SummaryBounds` bounds it |
| CitationValidator.Summarize | src/tools/citation_validator_tool.py:51-57 | the validation summary; `SummaryBounds` states its properties |
| CitationValidator.ValidateEach | src/tools/citation_validator_tool.py:40-48 | the loop numbers the reports from 1, counts the valid ones and concatenates their issues |
| CitationValidator.AllValidIff | src/tools/citation_validator_tool.py:51-57 | the valid count equals the total exactly when every report is valid |
| CitationValidator.IssuesCollected | src/tools/citation_validator_tool.py:46-48 | every issue of every report is in the run's issue list |
| CitationValidator.SummaryBounds | src/tools/citation_validator_tool.py:51-57 | valid ≤ total, rate and overall quality in [0, 1], and improvement is needed exactly when some citation is invalid |
| CitationValidator.RunSummary | src/tools/citation_validator_tool.py:11-62 | one report per parsed citation, numbered from 1 in order, with the summary bounds above |
| CitationValidator.ValidateDoi | src/tools/citation_validator_tool.py:380-390 | a DOI is accepted exactly when it matches the DOI format and doi.org answers 200 or 302; an accepted DOI starts with "10." |
| CitationValidator.DoiFormatShape | src/tools/citation_validator_tool.py:383-384 | a well-formed DOI has no whitespace, except for one final newline that `$` allows |
| FactChecker.ParseClaims | src/tools/fact_checker_tool.py:50-62 | the loop returns exactly `ClaimsOf(text)` |
| FactChecker.ClaimsOf | src/tools/fact_checker_tool.py:50-62 | the claims of a text; `ParseClaims` computes it and `ClaimsAreClean` states its properties |
| FactChecker.KeptClaims | src/tools/fact_checker_tool.py:57-60 | the stripped sentences longer than 10 characters that do not start with "http" or "www"; `KeptClaimsAreClean` states their shape |
| FactChecker.Sentences | src/tools/fact_checker_tool.py:53 | the pieces contain no `.`, `!`, `?` or newline |
| FactChecker.ClaimsAreClean | src/tools/fact_checker_tool.py:50-62 | every claim is stripped, longer than 10 characters, does not start with "http" or "www" and contains no sentence break |
| FactChecker.SingleSentenceClaim | src/tools/fact_checker_tool.py:50-62 | text without breaks is one sentence, kept as its stripped self exactly when it qualifies |
| FactChecker.ShortTextHasNoClaims | src/tools/fact_checker_tool.py:57-60 | sentences of at most 10 characters give no claims |
| FactChecker.Keywords | src/tools/fact_checker_tool.py:78 | every keyword is a non-empty run of word characters |
| FactChecker.OverlapBounds | src/tools/fact_checker_tool.py:78-83 | the overlap ratio lies in [0, 1], and is 0 for a claim without keywords |
| FactChecker.Matching | src/tools/fact_checker_tool.py:82 | the keywords found as substrings of the lowercased sources, a subset of the keywords |
| FactChecker.Overlap | src/tools/fact_checker_tool.py:83 | matches over keywords, 0 without keywords; `OverlapBounds` bounds it |
| FactChecker.BucketOf | src/tools/fact_checker_tool.py:86-97 | the status bucket of an overlap; `BucketCases` and `ConfidenceMonotone` state its thresholds |
| FactChecker.VerifyClaim | src/tools/fact_checker_tool.py:64-99 | the verification carries the claim and its number, and empty supporting and contradicting lists |
| FactChecker.BucketsOfClaim | src/tools/fact_checker_tool.py:86-97 | strongly supported iff overlap ≥ 0.7, partially iff 0.4 ≤ overlap < 0.7, insufficient iff overlap < 0.4; never unverified; confidence 0.9, 0.6 or 0.3 exactly for those buckets |
| FactChecker.ConfidenceMonotone | src/tools/fact_checker_tool.py:86-97 | more overlap never gives less confidence |
| FactChecker.AllWordsFoundIsStrong | src/tools/fact_checker_tool.py:78-90 | a claim all of whose keywords occur in the sources is strongly supported, at 0.9 |
| FactChecker.NoWordFoundIsInsufficient | src/tools/fact_checker_tool.py:78-97 | a claim none of whose keywords occur is reported as insufficient evidence, at 0.3 |
| FactChecker.QuotedClaimIsStrong | src/tools/fact_checker_tool.py:78-90 | a claim quoted verbatim (up to case) in the sources is strongly supported |
| FactChecker.CheckFacts | src/tools/fact_checker_tool.py:8-48 | the report built by the loop is exactly `FactCheckOf(text, sources)` |
| FactChecker.FactCheckOf | src/tools/fact_checker_tool.py:8-48 | the fact-check report of a text; `CheckFacts` computes it and `ReportShape` states its properties |
| FactChecker.Verifications | src/tools/fact_checker_tool.py:31-35 | one verification per claim, numbered from 1; `VerificationsNumbered` states the numbering |
| FactChecker.VerifyAll | src/tools/fact_checker_tool.py:31-36 | the loop yields one numbered verification per claim and the sum of their confidences |
| FactChecker.VerificationsNumbered | src/tools/fact_checker_tool.py:31-35 | verification k carries claim k and the number k + 1 |
| FactChecker.ConfidencesAreBuckets | src/tools/fact_checker_tool.py:31-36 | every confidence lies in [0.3, 0.9] |
| FactChecker.ReportShape | src/tools/fact_checker_tool.py:19-40 | total claims equals the number of parsed claims and of verifications, numbered in order; reliability is 0 without claims and otherwise in [0.3, 0.9] |
| WebSearch.Relevance | src/tools/search_tool.py:68-79 | the relevance is an error exactly when the query has no terms |
| WebSearch.Terms | src/tools/search_tool.py:70 | the distinct lowercase whitespace-separated query terms; `NoTermsIffBlank` states when there are none |
| WebSearch.Hits | src/tools/search_tool.py:74-75 | the terms occurring as substrings of the lowercased text, a subset of the terms |
| WebSearch.RelevanceOf | src/tools/search_tool.py:68-79 | the capped weighted hit ratio; `RelevanceBounds` shows the cap never binds |
| WebSearch.RelevanceBounds | src/tools/search_tool.py:70-79 | the relevance equals (0.7·t + 0.3·b)/n without the cap, and lies in [0, 1] |
| WebSearch.FullMatchScoresOne | src/tools/search_tool.py:74-79 | every term in both title and body gives relevance 1 |
| WebSearch.NoMatchScoresZero | src/tools/search_tool.py:74-79 | no term in either gives relevance 0 |
| WebSearch.NoTermsIffBlank | src/tools/search_tool.py:70-78 | the query has no terms exactly when it is all whitespace |
| WebSearch.ContentQualityBounds | src/tools/search_tool.py:81-101 | quality lies in [0.5, 1]; it is 0.5 exactly when nothing earns a bonus; an institutional URL with a long body scores 1 |
| WebSearch.ContentQuality | src/tools/search_tool.py:81-101 | the content quality with its length and URL bonuses; `ContentQualityBounds` states its range and extremes |
| WebSearch.SourceTypeRules | src/tools/search_tool.py:103-118 | each of the seven types is returned exactly when its rule is the first to match |
| WebSearch.IdentifySourceType | src/tools/search_tool.py:103-118 | the source type by the first matching rule; `SourceTypeRules` states each rule |
| WebSearch.SourceLabelInjective | src/tools/search_tool.py:103-118 | distinct source types have distinct labels |
| WebSearch.SourceTypeBoundsQuality | src/tools/search_tool.py:81-118 | academic, government and organisation sources score at least 0.8; encyclopedia and preprint sources at least 0.7 |
| WebSearch.AdvancedWebSearch | src/tools/search_tool.py:9-66 | the method's report is exactly `SearchOf(query, maxResults, region, hits)` |
| WebSearch.SearchOf | src/tools/search_tool.py:9-66 | the search report; `AdvancedWebSearch` computes it and `SearchReportShape` states its properties |
| WebSearch.Score | src/tools/search_tool.py:40-47 | a scored hit has relevance in [0, 1] and quality in [0.5, 1] |
| WebSearch.ScoreAll | src/tools/search_tool.py:39-48 | one scored entry per hit, in order; `ScoreAllBounds` states which |
| WebSearch.ScoreHits | src/tools/search_tool.py:39-49 | scoring fails with "float division by zero" exactly when there is a hit and the query has no terms; otherwise each kept hit is scored in order |
| WebSearch.SearchReportShape | src/tools/search_tool.py:39-66 | error exactly for a blank query with hits; at most `max_results` results; results are a stable descending permutation of the scored hits; average relevance in [0, 1], 0 without results |
| Ranking.SortIsDescending | src/tools/search_tool.py:51 | the sorted list is descending by key |
| Ranking.SortPermutes | src/tools/search_tool.py:51 | the sorted list is a permutation of the input |
| Ranking.SortIsStable | src/tools/search_tool.py:51 | elements with equal keys keep their input order |
| LegacyMain.LegacyRelevanceAgrees | main.py:69-82 | the legacy relevance lies in [0, 1], is 0.5 for a blank query and otherwise agrees with the tool |
| LegacyMain.LegacyRelevance | main.py:69-82 | the legacy relevance; `LegacyRelevanceAgrees` relates it to the tool's |
| LegacyMain.SourceTypesAgree | main.py:84-97 | the legacy classifier is the tool's with news folded into general, and never answers news |
| LegacyMain.LegacySourceType | main.py:84-97 | the legacy source type; `SourceTypesAgree` relates it to the tool's |
| LegacyMain.LegacyScoreAll | main.py:47-55 | one legacy entry per hit, in order; `LegacyScoreAt` states which |
| LegacyMain.LegacySearch | main.py:40-67 | one result per hit, sorted by relevance alone |
| LegacyMain.LegacyRanking | main.py:58 | the legacy ranking is descending in relevance, a permutation, and stable |
| LegacyMain.LegacyCitationIsClean | main.py:126-129 | every legacy citation is a stripped line longer than 20 characters |
| LegacyMain.LegacyParseCitations | main.py:126-129 | the stripped lines longer than 20 characters; `LegacyCitationIsClean` and `ParsersAgreeOnOneLine` state its properties |
| LegacyMain.LegacyExtract | main.py:150-175 | the legacy components; `LegacyYearVersusTool` and `LegacyAuthorNeedsYear` state their properties |
| LegacyMain.ParsersAgreeOnOneLine | main.py:126-129 | on one line the legacy parser and the tool's parser agree |
| LegacyMain.YearReportsPair | main.py:160-163 | the legacy year matches are four characters long and begin with the tool's year groups, one for one |
| LegacyMain.LegacyYearVersusTool | main.py:150-175 | the legacy extractor finds a year exactly when the tool does; it is four characters long and, when there is one match, begins with the tool's two |
| LegacyMain.LegacyAuthorNeedsYear | main.py:170-173 | the legacy extractor sets an author only when it set a year |
| LegacyMain.LegacyQualitySteps | main.py:131-148 | quality is one of 0, 1/3, 2/3 and 1; a citation is valid exactly when its quality is at least 2/3, exactly when two of its three fields are present |
| LegacyMain.LegacyValidateSingle | main.py:131-148 | the legacy check of one citation; `LegacyQualitySteps` states its quality and validity |
| LegacyMain.LegacyChecks | main.py:108-110 | one check per citation, numbered from 1; `LegacyChecksNumbered` states the numbering |
| LegacyMain.LegacyValidationOf | main.py:102-124 | the legacy validation result; `LegacyValidate` computes it and `LegacyValidationShape` states its properties |
| LegacyMain.LegacyValidate | main.py:102-124 | the method's result is exactly `LegacyValidationOf(text, style)` |
| LegacyMain.LegacyCheckEach | main.py:108-110 | the loop checks each citation, numbered from 1 |
| LegacyMain.LegacyValidationShape | main.py:102-124 | the error comes exactly for an empty citation list; otherwise counts agree, the rate lies in [0, 1], the run is good exactly above 0.7, and the checks are numbered in order |
| LegacyMain.LegacyMetricsBounded | main.py:472-490 | effectiveness, average relevance, diversity and overall quality of a legacy search all lie in [0, 1]; effectiveness is 1 exactly with five or more results |
| LegacyMain.MetricsOf | main.py:472-490 | the quality metrics of a search; `MetricsWithin` and `NoResultsMetrics` state their bounds |
| LegacyMain.NoResultsMetrics | main.py:478-489 | without results, average relevance, diversity and overall quality are 0 |
| Summarizer.KnownTargetBounds | src/tools/summarization_tool.py:24-29 | the target is at most the cap and at most a fifth of the words, and is the largest such when the cap does not bind |
| Summarizer.KindOf | src/tools/summarization_tool.py:24-31 | the summary kind named by a type string, none for an unknown one |
| Summarizer.TargetLength | src/tools/summarization_tool.py:24-31 | the target length; `KnownTargetBounds` and `TargetMonotone` state its properties |
| Summarizer.Instructions | src/tools/summarization_tool.py:34-47 | the instructions of a kind, the comprehensive ones for an unknown type |
| Summarizer.ReadingTime | src/tools/summarization_tool.py:51 | the reading time; `ReadingTimeMinutes` states its form |
| Summarizer.Plan | src/tools/summarization_tool.py:7-56 | the summary record; `PlanFigures`, `UnknownTypeFallsBack` and `UnknownTypeCanExceedText` state its properties |
| Summarizer.TargetMonotone | src/tools/summarization_tool.py:24-31 | a longer text never gets a shorter target |
| Summarizer.PlanFigures | src/tools/summarization_tool.py:20-51 | word and character counts; ratio 0 for no words and in [0, 0.2] for a known type; target 200 for an unknown type |
| Summarizer.UnknownTypeCanExceedText | src/tools/summarization_tool.py:31-46 | an unknown type on a text of fewer than 200 words gives a ratio above 1 |
| Summarizer.UnknownTypeFallsBack | src/tools/summarization_tool.py:31-47 | an unknown type uses the comprehensive instructions and target 200 |
| Summarizer.ReadingTimeMinutes | src/tools/summarization_tool.py:51 | the reading time is the decimal digits of words // 200 followed by " minutes" |
| Controller.CreateFallbackPlan | src/agents/controller_agent.py:161-169 | the fallback plan keeps the query and has three steps and three agents |
| Controller.FallbackPlansAgree | src/agents/controller_agent.py:171-197 | three tasks task_1 to task_3, for research, analysis and synthesis in order; task_1 searches for the query or "research topic" |
| Controller.FallbackTasks | src/agents/controller_agent.py:171-197 | the three fallback tasks; `FallbackPlansAgree` states them |
| Controller.TrimmedKeepsNewest | src/agents/controller_agent.py:208-209 | trimming keeps exactly the newest `min(n, 1000)` entries, in order |
| Controller.Trimmed | src/agents/controller_agent.py:208-209 | the log cut to its newest 1000 entries; `TrimmedKeepsNewest` states which |
| Controller.LogAll | src/agents/controller_agent.py:199-209 | the log after recording several events in turn; `PlanningLogShape` bounds it |
| Controller.AppendThenTrim | src/agents/controller_agent.py:199-209 | after an append the log stays within 1000 entries and ends with the new entry; under the limit nothing is dropped, at the limit only the oldest |
| Controller.FallbackUnlessObject | src/agents/controller_agent.py:147-159 | an answer that is not a JSON object, or a failed call, gives the three fallback tasks |
| Controller.DelegatedTasks | src/agents/controller_agent.py:145-159 | the tasks planning returns; `FallbackUnlessObject` states when they are the fallback |
| Controller.PlanningEvents | src/agents/controller_agent.py:145-159 | the events planning logs; `PlanningLogShape` states how many |
| Controller.PlanningLogShape | src/agents/controller_agent.py:115-159 | planning logs one event, or two when a non-object answer is first logged and then fails; the log stays bounded and ends with the last event |
| Controller.ResearchController.constructor | src/agents/controller_agent.py:28-36 | a new session has zero counters, an empty memory and no agent performance |
| Controller.ResearchController.UpdateSessionState | src/agents/controller_agent.py:199-209 | the memory becomes the trimmed old memory plus the new entry, which is the newest; nothing else changes |
| Controller.ResearchController.SessionMetricsAt | src/agents/controller_agent.py:211-220 | memory usage is at most 1000; the success rate is the completed count when no tasks were counted, and in [0, 1] when the counts are consistent |
| Controller.ResearchController.CreateTaskDelegationPlan | src/agents/controller_agent.py:115-159 | the tasks are the planner's or the fallback's, the memory logs the planning events, and nothing else changes |
| Workflow.ValidationScoreCases | src/workflows/research_workflow.py:361-375 | 0.5 with no scores, 0.8 with only content quality, the citation score alone, or the mean of both; in [0, 1] when the citation score is |
| Workflow.ValidationScore | src/workflows/research_workflow.py:361-375 | the validation score; `ValidationScoreCases` states each case |
| Workflow.ValidationOfCitationRun | src/workflows/research_workflow.py:361-375 | for a citation run plus content quality the validation score lies in [0.4, 0.9] |
| Workflow.WorkflowQualityFromValidation | src/workflows/research_workflow.py:377-379 | the quality score defaults to 0.7 and otherwise is the validation score, in [0, 1] |
| Workflow.WorkflowQualityScore | src/workflows/research_workflow.py:377-379 | the quality score with its 0.7 default; `WorkflowQualityFromValidation` states it |
| Workflow.AsWrittenLosesCitations | src/workflows/research_workflow.py:335-349 | as written, extraction fails even on a text with a URL citation |
| Workflow.ExtractCitationsAsWritten | src/workflows/research_workflow.py:335-349 | as written, the extraction fails with the `NameError` of the missing `re` import |
| Workflow.MatchesOf | src/workflows/research_workflow.py:338-343 | the matches of the URL, DOI and parenthesised-year patterns, pattern by pattern |
| Workflow.ExtractCitations | src/workflows/research_workflow.py:335-349 | the extracted citations have no duplicates and are exactly the URL, DOI and parenthesised-year matches |
| Workflow.ExtractedHaveShapes | src/workflows/research_workflow.py:338-343 | every match has the shape of one of the three patterns |
| Workflow.ResearchWorkflow.constructor | src/workflows/research_workflow.py:36-44 | a new workflow is "initialized" at stage "setup" of 5, with no errors |
| Workflow.ResearchWorkflow.UpdateWorkflowStatus | src/workflows/research_workflow.py:390-393 | only status and stage change |
| Workflow.ResearchWorkflow.HandleWorkflowError | src/workflows/research_workflow.py:396-418 | one error record is appended; status "failed" and stage "error_handling"; the response carries the error and the recovery suggestions |
| Workflow.ResearchWorkflow.PerformanceMetricsAt | src/workflows/research_workflow.py:381-388 | the error count is the number of recorded errors |
| Workflow.ErrorCountGrows | src/workflows/research_workflow.py:381-406 | handling an error raises the error count by exactly one and leaves the status "failed" |
| Workflow.WorkflowManager.constructor | src/workflows/research_workflow.py:424-432 | an empty registry with zero counters |
| Workflow.WorkflowManager.CreateWorkflow | src/workflows/research_workflow.py:434-442 | a fresh initialised workflow is registered under the given id or its own; the total grows by exactly one |
| Workflow.WorkflowManager.GetWorkflowStatus | src/workflows/research_workflow.py:444-449 | "Workflow not found" exactly for an unknown id; otherwise the registered workflow's state |
| Workflow.CreatedIsFound | src/workflows/research_workflow.py:434-449 | the status of a just-created workflow is found under its key and is its initial state |
| Workflow.FoundAtMostCreated | src/workflows/research_workflow.py:424-449 | the ids the status lookup finds never outnumber the workflows created |
| Text.StripIdempotent | src/tools/citation_validator_tool.py:84 | stripping twice is stripping once |
| Text.JoinSplit | src/tools/citation_validator_tool.py:79-80 | joining the pieces of a split with the separator gives back the text |
| Text.ParseDecimalInverts | src/tools/summarization_tool.py:51 | reading back the decimal form of a number gives the number |
| Scanners.FindAllLeftmost | src/tools/citation_validator_tool.py:136 | `findall` is empty exactly when nothing matches, and otherwise starts with the leftmost match |
| Scanners.SearchIsLeftmost | src/tools/citation_validator_tool.py:166 | `search` finds nothing exactly when nothing matches, and otherwise the leftmost match |
| Stats.MeanWithin | src/tools/citation_validator_tool.py:334-340 | a mean of values in [lo, hi] lies in [lo, hi], and is 0 for no values |

## Left out

- Network: the HEAD request of the URL check, the DOI resolver and the search engine are parameters (`probe`, `resolve`, `hits`). Timeouts and connection errors are outcomes of `probe`.
- `extract_metadata_from_url`: it is HTML scraping over the network.
- Clock and identifiers: timestamps, session ids and workflow ids are parameters. Access dates in MLA and Chicago come from a `Today` parameter. Durations are whole seconds, not Python's `timedelta` text.
- JSON serialisation and parsing: the model works on the records. The planner's answer is a `PlannerOutcome` value (a JSON object, other JSON, not JSON, or a failed call).
- Language-model calls, agents, crews, the research/analysis/synthesis phases and `analyze_research_request`: their results are not computable.
- The web and chat front ends, configuration checks and test scripts: they are UI and environment code.
- Floating point: scores are exact reals, so rounding at the 0.7, 0.4 and 0.5 thresholds is not modelled.
- Character classes: `\d`, `\w`, `lower()` and `upper()` are ASCII only. `\s`, `strip()` and `split()` use Python's whitespace set.
- `re.split(r'[.!?]+|\n+')` is modelled as a cut at every break character. This only adds empty pieces, which no claim keeps.
- The second title pattern of the citation validator (line 155) repeats the ASCII `"` in each of its character classes, so it matches exactly the strings the first (line 154) matches and can never succeed where the first failed; it is modelled once.
- `Workflow.ExtractCitations`: Python's `list(set(...))` order is unspecified. The method returns the distinct matches in some order and states only membership and distinctness.
- `Workflow.ResearchWorkflow.State`: Python returns the live `workflow_state` dictionary. The model returns a copy, so aliasing is not modelled.
- `get_system_metrics` and the counters it reads (`successful_workflows`, `workflow_history`, `average_execution_time`): nothing in the modelled code updates them.
- The outer `except` blocks of the citation validator, fact checker and summariser: nothing in the modelled paths raises.
- The search tool's division-by-zero error is modelled. Other search errors come from the network and are outside the model.
- CitationValidator.ValidNeedsTwoComponents: states a consequence of the 0.7 threshold (two required fields present), not the full rule. The full rule is `ValidateExtracted`'s `valid == quality >= 0.7`.

## Findings

| source | as written | input that shows it | evidently intended | confidence | as-written member | corrected member |
|---|---|---|---|---|---|---|
| src/workflows/research_workflow.py:346 | `_extract_citations_from_text` calls `re.findall`, but the module never imports `re` (lines 1-16), so the call raises `NameError` and no citation is ever extracted | the text "see https://example.org" | the deduplicated list of URL, DOI and parenthesised-year matches | high; not executed | Workflow.AsWrittenLosesCitations | Workflow.ExtractCitations |
