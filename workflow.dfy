/** The bookkeeping of the research workflow: its status and error log, its
    performance metrics and validation scores, the extraction of citation-like
    strings from research text, and the registry of workflows kept by the
    workflow manager. The agents and the language-model phases are not part of
    this model; the clock is a parameter. */
module Workflow {
  import opened Results
  import opened Text
  import opened Scanners
  import opened Stats
  import CV = CitationValidator

  // ---------------------------------------------------------------------------
  // Scores
  // ---------------------------------------------------------------------------

  /** The parts of the validation results `_calculate_validation_score` reads:
      the citation summary (absent or empty: `None`; present without an
      "overall_quality_score" key: `Some(None)`), and whether the
      content-quality record is non-empty. */
  datatype ValidationResults = ValidationResults(citationSummary: Option<Option<real>>, contentQuality: bool)

  /** The scores that enter the mean, in the order they are appended. */
  function Scores(v: ValidationResults): (r: seq<real>)
    ensures |r| <= 2
  {
    (if v.citationSummary.Some? then [v.citationSummary.value.GetOr(0.0)] else [])
    + (if v.contentQuality then [0.8] else [])
  }

  /** `_calculate_validation_score`: the mean of the scores, 0.5 without any. */
  function ValidationScore(v: ValidationResults): real
  {
    var scores := Scores(v);
    if scores == [] then 0.5 else Sum(scores) / |scores| as real
  }

  /** The score is 0.5 without scores and otherwise the mean of the citation
      summary's score (0 when it has none) and 0.8 for a content-quality
      record; with a citation score in [0, 1] it lies in [0, 1]. */
  lemma ValidationScoreCases(v: ValidationResults)
    ensures v.citationSummary.None? && !v.contentQuality ==> ValidationScore(v) == 0.5
    ensures v.citationSummary.None? && v.contentQuality ==> ValidationScore(v) == 0.8
    ensures v.citationSummary.Some? && !v.contentQuality ==> ValidationScore(v) == v.citationSummary.value.GetOr(0.0)
    ensures v.citationSummary.Some? && v.contentQuality
      ==> ValidationScore(v) == (v.citationSummary.value.GetOr(0.0) + 0.8) / 2.0
    ensures (v.citationSummary.Some? ==> 0.0 <= v.citationSummary.value.GetOr(0.0) <= 1.0)
      ==> 0.0 <= ValidationScore(v) <= 1.0
  {
    var scores := Scores(v);
    if scores != [] {
      assert Sum(scores[..|scores| - 1]) + scores[|scores| - 1] == Sum(scores);
      if |scores| == 2 {
        assert scores[..1][..0] == [];
      }
    }
  }

  /** In the validation phase the content-quality record is never empty, and a
      citation run's summary always carries its overall quality, which lies in
      [0, 1]: the validation score is then between 0.4 and 0.9. */
  lemma ValidationOfCitationRun(citations: string, probe: string -> CV.HeadOutcome, now: CV.Today)
    ensures var run := CV.Validation(citations, "APA", probe, now);
      var s := ValidationScore(ValidationResults(Some(Some(run.summary.overallQuality)), true));
      0.4 <= s <= 0.9
  {
    CV.RunSummary(citations, "APA", probe, now);
    var run := CV.Validation(citations, "APA", probe, now);
    ValidationScoreCases(ValidationResults(Some(Some(run.summary.overallQuality)), true));
  }

  /** `_calculate_workflow_quality_score`: the validation score, or 0.7 when
      the validation data has none. */
  function WorkflowQualityScore(overallValidationScore: Option<real>): real
  {
    overallValidationScore.GetOr(0.7)
  }

  /** The quality score reported for a workflow whose validation phase scored
      `v` is that score, and lies in [0, 1] whenever the citation score does;
      without a score it defaults to 0.7. */
  lemma WorkflowQualityFromValidation(v: ValidationResults)
    ensures WorkflowQualityScore(None) == 0.7
    ensures WorkflowQualityScore(Some(ValidationScore(v))) == ValidationScore(v)
    ensures (v.citationSummary.Some? ==> 0.0 <= v.citationSummary.value.GetOr(0.0) <= 1.0)
      ==> 0.0 <= WorkflowQualityScore(Some(ValidationScore(v))) <= 1.0
  {
    ValidationScoreCases(v);
  }

  // ---------------------------------------------------------------------------
  // Citations in research text
  // ---------------------------------------------------------------------------

  /** The three patterns, in the order they are tried: URLs, DOIs and
      parenthesised text with a four-digit number. */
  const CitationPatterns: seq<Pattern> := [HttpUrl, DoiName, ParenYear]

  /** The matches of the patterns `ps`, one pattern after the other. */
  function MatchesOf(ps: seq<Pattern>, text: string): seq<string>
  {
    if ps == [] then [] else MatchesOf(ps[..|ps| - 1], text) + FindAll(ps[|ps| - 1], text, 0)
  }

  /** `_extract_citations_from_text` as written: the module never imports `re`,
      so the first `re.findall` raises `NameError` whatever the text. */
  function ExtractCitationsAsWritten(text: string): Result<seq<string>>
  {
    Err("name 're' is not defined")
  }

  /** As written, the extraction fails even on a text with a URL in it, which
      the intended extraction would report. */
  lemma AsWrittenLosesCitations(text: string)
    requires FindAll(HttpUrl, text, 0) != []
    ensures ExtractCitationsAsWritten(text).Err?
    ensures FindAll(HttpUrl, text, 0)[0] in MatchesOf(CitationPatterns, text)
  {
    assert CitationPatterns[..1] == [HttpUrl];
    assert CitationPatterns[..1][..0] == [];
    assert CitationPatterns[..2][..1] == CitationPatterns[..1];
    assert CitationPatterns[..3][..2] == CitationPatterns[..2];
    assert MatchesOf(CitationPatterns[..1], text) == FindAll(HttpUrl, text, 0);
    assert MatchesOf(CitationPatterns, text) == MatchesOf(CitationPatterns[..2], text) + FindAll(ParenYear, text, 0);
  }

  /** The list holds no string twice. */
  predicate Distinct(xs: seq<string>) {
    forall i, j :: 0 <= i < j < |xs| ==> xs[i] != xs[j]
  }

  lemma MatchesStep(ps: seq<Pattern>, text: string, i: nat)
    requires i < |ps|
    ensures MatchesOf(ps[..i + 1], text) == MatchesOf(ps[..i], text) + FindAll(ps[i], text, 0)
  {
    assert ps[..i + 1][..i] == ps[..i];
  }

  /** `_extract_citations_from_text` with `re` imported: every match of each
      pattern, duplicates removed. `list(set(...))` has no fixed order; this
      keeps the first occurrence of each string, and the contract promises no
      order. */
  method ExtractCitations(text: string) returns (citations: seq<string>)
    ensures Distinct(citations)
    ensures forall c :: c in citations <==> c in MatchesOf(CitationPatterns, text)
  {
    var found: seq<string> := [];
    var p := 0;
    while p < |CitationPatterns|
      invariant 0 <= p <= |CitationPatterns|
      invariant found == MatchesOf(CitationPatterns[..p], text)
    {
      MatchesStep(CitationPatterns, text, p);
      found := found + FindAll(CitationPatterns[p], text, 0);
      p := p + 1;
    }
    assert CitationPatterns[..p] == CitationPatterns;
    citations := [];
    var i := 0;
    while i < |found|
      invariant 0 <= i <= |found|
      invariant Distinct(citations)
      invariant forall c :: c in citations <==> c in found[..i]
    {
      if found[i] !in citations {
        citations := citations + [found[i]];
      }
      assert found[..i + 1] == found[..i] + [found[i]];
      i := i + 1;
    }
    assert found[..i] == found;
  }

  /** Every extracted string is a URL, a DOI or a parenthesised year: it has
      the shape one of the three patterns promises. */
  lemma {:induction false} ExtractedHaveShapes(ps: seq<Pattern>, text: string, c: string)
    requires c in MatchesOf(ps, text)
    ensures exists k :: 0 <= k < |ps| && Shape(ps[k], c)
    decreases |ps|
  {
    var init := ps[..|ps| - 1];
    if c in MatchesOf(init, text) {
      ExtractedHaveShapes(init, text, c);
      var k :| 0 <= k < |init| && Shape(init[k], c);
      assert ps[k] == init[k];
    } else {
      FoundHasShape(ps[|ps| - 1], text, 0, c);
    }
  }

  // ---------------------------------------------------------------------------
  // The workflow
  // ---------------------------------------------------------------------------

  /** The record `_handle_workflow_error` appends to the error log. */
  datatype ErrorInfo = ErrorInfo(error: string, timestamp: string, query: string, workflowId: string)

  /** The record `_handle_workflow_error` returns. */
  datatype ErrorResponse = ErrorResponse(status: string, details: ErrorInfo, partialResults: string,
                                         recoverySuggestions: seq<string>)

  /** `_get_performance_metrics`, with the execution time in seconds. */
  datatype PerformanceMetrics = PerformanceMetrics(executionSeconds: int, stagesCompleted: string,
                                                   errorCount: nat, status: string)

  /** A copy of a workflow's state, as `get_workflow_status` reports it. */
  datatype WorkflowState = WorkflowState(workflowId: string, startTime: int, status: string,
                                         currentStage: string, totalStages: nat, errors: seq<ErrorInfo>)

  const RecoverySuggestions: seq<string> := [
    "Check API key configuration",
    "Verify network connectivity",
    "Try with a simpler query",
    "Check system logs for detailed error information"]

  class ResearchWorkflow {
    var workflowId: string
    var startTime: int
    var status: string
    var currentStage: string
    var totalStages: nat
    var errors: seq<ErrorInfo>

    /** A new workflow, its id the clock reading in whole seconds. */
    constructor (now: nat)
      ensures workflowId == Decimal(now) && startTime == now
      ensures status == "initialized" && currentStage == "setup" && totalStages == 5 && errors == []
    {
      workflowId := Decimal(now);
      startTime := now;
      status := "initialized";
      currentStage := "setup";
      totalStages := 5;
      errors := [];
    }

    /** `_update_workflow_status`: only the status and the stage change. */
    method UpdateWorkflowStatus(newStatus: string, stage: string)
      modifies this
      ensures status == newStatus && currentStage == stage
      ensures workflowId == old(workflowId) && startTime == old(startTime)
      ensures totalStages == old(totalStages) && errors == old(errors)
    {
      status := newStatus;
      currentStage := stage;
    }

    /** `_handle_workflow_error`: one error record appended, the workflow
        marked failed at the error-handling stage, and the error response. */
    method HandleWorkflowError(error: string, query: string, now: string) returns (r: ErrorResponse)
      modifies this
      ensures errors == old(errors) + [ErrorInfo(error, now, query, workflowId)]
      ensures status == "failed" && currentStage == "error_handling"
      ensures workflowId == old(workflowId) && startTime == old(startTime) && totalStages == old(totalStages)
      ensures r == ErrorResponse("error", ErrorInfo(error, now, query, workflowId),
                                 "Workflow failed during execution", RecoverySuggestions)
    {
      var info := ErrorInfo(error, now, query, workflowId);
      errors := errors + [info];
      UpdateWorkflowStatus("failed", "error_handling");
      r := ErrorResponse("error", info, "Workflow failed during execution", RecoverySuggestions);
    }

    /** `_get_performance_metrics` at clock reading `now`. */
    function PerformanceMetricsAt(now: int): (m: PerformanceMetrics)
      reads this
      ensures m.errorCount == |errors| && m.status == status && m.stagesCompleted == currentStage
    {
      PerformanceMetrics(now - startTime, currentStage, |errors|, status)
    }

    function State(): WorkflowState
      reads this
    {
      WorkflowState(workflowId, startTime, status, currentStage, totalStages, errors)
    }
  }

  /** Each handled error adds one to the error count of the metrics. */
  method ErrorCountGrows(w: ResearchWorkflow, error: string, query: string, now: string, clock: int)
    modifies w
    ensures w.PerformanceMetricsAt(clock).errorCount == old(w.PerformanceMetricsAt(clock).errorCount) + 1
    ensures w.PerformanceMetricsAt(clock).status == "failed"
  {
    var _ := w.HandleWorkflowError(error, query, now);
  }

  // ---------------------------------------------------------------------------
  // The workflow manager
  // ---------------------------------------------------------------------------

  class WorkflowManager {
    var activeWorkflows: map<string, ResearchWorkflow>
    var totalWorkflows: nat
    var successfulWorkflows: nat
    var qualityScores: seq<real>

    /** Every registered id was registered by a call that counted it, so
        there are never more registered workflows than created ones. */
    ghost predicate Valid()
      reads this
    {
      |activeWorkflows| <= totalWorkflows
    }

    constructor ()
      ensures Valid()
      ensures activeWorkflows == map[] && totalWorkflows == 0 && successfulWorkflows == 0 && qualityScores == []
    {
      activeWorkflows := map[];
      totalWorkflows := 0;
      successfulWorkflows := 0;
      qualityScores := [];
    }

    /** `workflow_id or workflow.workflow_state["workflow_id"]`: an absent or
        empty id falls back to the new workflow's own. */
    static function RegistryKey(workflowId: Option<string>, own: string): string
    {
      if workflowId.Some? && workflowId.value != "" then workflowId.value else own
    }

    /** `create_workflow`: a new workflow registered under its key (replacing
        any workflow with the same key), and the counter raised by one. */
    method CreateWorkflow(workflowId: Option<string>, now: nat) returns (w: ResearchWorkflow)
      requires Valid()
      modifies this
      ensures Valid()
      ensures fresh(w) && w.State() == WorkflowState(Decimal(now), now, "initialized", "setup", 5, [])
      ensures activeWorkflows == old(activeWorkflows)[RegistryKey(workflowId, Decimal(now)) := w]
      ensures totalWorkflows == old(totalWorkflows) + 1
      ensures successfulWorkflows == old(successfulWorkflows) && qualityScores == old(qualityScores)
    {
      w := new ResearchWorkflow(now);
      var key := RegistryKey(workflowId, w.workflowId);
      MapUpdateSize(activeWorkflows, key, w);
      activeWorkflows := activeWorkflows[key := w];
      totalWorkflows := totalWorkflows + 1;
    }

    /** `get_workflow_status`: the state of the registered workflow, or the
        "Workflow not found" error for an unknown id. */
    function GetWorkflowStatus(workflowId: string): (r: Result<WorkflowState>)
      reads this, activeWorkflows.Values
      ensures r.Err? <==> workflowId !in activeWorkflows
      ensures r.Err? ==> r.message == "Workflow not found"
      ensures r.Ok? ==> r.value.workflowId == activeWorkflows[workflowId].workflowId
    {
      if workflowId in activeWorkflows then Ok(activeWorkflows[workflowId].State())
      else Err("Workflow not found")
    }
  }

  /** Adding a key to a map grows it by at most one. */
  lemma MapUpdateSize<K, V>(m: map<K, V>, k: K, v: V)
    ensures |m[k := v]| <= |m| + 1
  {
    if k in m {
      assert m[k := v].Keys == m.Keys;
    } else {
      assert m[k := v].Keys == m.Keys + {k};
    }
  }

  /** A workflow just created is found under its key, in its initial state. */
  method CreatedIsFound(m: WorkflowManager, workflowId: Option<string>, now: nat)
    requires m.Valid()
    modifies m
    ensures var key := WorkflowManager.RegistryKey(workflowId, Decimal(now));
      m.GetWorkflowStatus(key) == Ok(WorkflowState(Decimal(now), now, "initialized", "setup", 5, []))
  {
    var w := m.CreateWorkflow(workflowId, now);
  }

  /** The ids `get_workflow_status` finds are the registered ones, and there
      are never more of them than `create_workflow` calls counted. */
  lemma FoundAtMostCreated(m: WorkflowManager)
    requires m.Valid()
    ensures |set id | id in m.activeWorkflows && m.GetWorkflowStatus(id).Ok?| <= m.totalWorkflows
  {
    var found := set id | id in m.activeWorkflows && m.GetWorkflowStatus(id).Ok?;
    assert found == m.activeWorkflows.Keys;
  }
}
