/** The bookkeeping of the research controller agent: its session state with a
    bounded context-memory log, the session metrics, and the fixed fallback
    plans it uses when the planning model gives no usable answer. The model
    calls themselves are parameters: their outcome is passed in. */
module Controller {
  import opened Results

  /** `Config.MEMORY_SIZE`. */
  const MemorySize: nat := 1000

  // ---------------------------------------------------------------------------
  // Plans
  // ---------------------------------------------------------------------------

  /** One entry of a delegation plan's "tasks" list. */
  datatype PlanTask = PlanTask(id: string, kind: string, agent: string, priority: string, description: string)

  /** `_create_fallback_plan(query)`. */
  datatype FallbackPlan = FallbackPlan(query: string, complexity: string, approach: string,
                                       steps: seq<string>, agentsNeeded: seq<string>)

  function CreateFallbackPlan(query: string): (p: FallbackPlan)
    ensures p.query == query && |p.steps| == |p.agentsNeeded| == 3
  {
    FallbackPlan(query, "medium", "standard_research", ["search", "analyze", "synthesize"],
                 ["research_agent", "analysis_agent", "synthesis_agent"])
  }

  /** `analysis.get('query', 'research topic')` for an analysis whose query is
      `query`, or which has none. */
  function TopicOf(query: Option<string>): string {
    query.GetOr("research topic")
  }

  /** The fixed texts of the fallback delegation plan. */
  const SearchPrefix := "Search for information about: "
  const AnalyzeDescription := "Analyze gathered information for key insights"
  const SynthesizeDescription := "Synthesize findings into comprehensive report"

  /** The "tasks" of `_create_fallback_delegation_plan(analysis)`. */
  function FallbackTasks(query: Option<string>): seq<PlanTask>
  {
    [ PlanTask("task_1", "information_gathering", "research_agent", "high", SearchPrefix + TopicOf(query)),
      PlanTask("task_2", "analysis", "analysis_agent", "medium", AnalyzeDescription),
      PlanTask("task_3", "synthesis", "synthesis_agent", "high", SynthesizeDescription) ]
  }

  /** The fallback delegation plan has three tasks, task_1 to task_3, given to
      the research, analysis and synthesis agents in the order the fallback
      analysis plan lists them; only the first mentions the topic, which is
      the analysis' query or "research topic". */
  lemma FallbackPlansAgree(query: Option<string>, q: string)
    ensures var ts := FallbackTasks(query);
      |ts| == 3
      && ts[0].id == "task_1" && ts[1].id == "task_2" && ts[2].id == "task_3"
      && [ts[0].agent, ts[1].agent, ts[2].agent] == CreateFallbackPlan(q).agentsNeeded
      && ts[0].description == SearchPrefix + (if query.Some? then query.value else "research topic")
  {
  }

  // ---------------------------------------------------------------------------
  // The context memory
  // ---------------------------------------------------------------------------

  /** What an event records as its data. */
  datatype Payload =
    | PlanPayload(tasks: Option<seq<PlanTask>>)  // a JSON object; `None` when it has no "tasks" key
    | OtherJson(typeName: string)                // a JSON value that is not an object
    | ErrorPayload(error: string)

  datatype MemoryEntry = MemoryEntry(timestamp: string, event: string, data: Payload)

  /** `log[-MEMORY_SIZE:]` once the log is longer than `MEMORY_SIZE`. */
  function Trimmed(log: seq<MemoryEntry>): seq<MemoryEntry>
  {
    if |log| > MemorySize then log[|log| - MemorySize..] else log
  }

  /** Trimming keeps the newest `MEMORY_SIZE` entries in their order, and
      drops nothing from a log within the limit. */
  lemma TrimmedKeepsNewest(log: seq<MemoryEntry>)
    ensures |Trimmed(log)| <= MemorySize || Trimmed(log) == log
    ensures |Trimmed(log)| == if |log| <= MemorySize then |log| else MemorySize
    ensures Trimmed(log) == log[|log| - |Trimmed(log)|..]
  {
  }

  /** Appending to a log within the limit and trimming: the new entry is the
      newest, and either nothing is dropped or, once the log is full, exactly
      the oldest entry is. */
  lemma AppendThenTrim(log: seq<MemoryEntry>, e: MemoryEntry)
    requires |log| <= MemorySize
    ensures var r := Trimmed(log + [e]);
      |r| <= MemorySize && r != [] && r[|r| - 1] == e
      && (|log| < MemorySize ==> r == log + [e])
      && (|log| == MemorySize ==> r == log[1..] + [e])
  {
    var r := Trimmed(log + [e]);
    if |log| == MemorySize {
      assert r == (log + [e])[1..];
    }
  }

  // ---------------------------------------------------------------------------
  // The agent
  // ---------------------------------------------------------------------------

  datatype SessionMetrics = SessionMetrics(sessionId: string, durationSeconds: int, tasksCompleted: int,
                                           tasksFailed: int, successRate: real, memoryUsage: nat)

  /** What the planning model produced: a JSON object (with its "tasks", if
      any), some other JSON value, a reply that is not JSON, or a failure. */
  datatype PlannerOutcome =
    | PlannedObject(tasks: Option<seq<PlanTask>>)
    | PlannedOther(typeName: string)
    | NotJson
    | PlannerFailed(message: string)

  /** The list `create_task_delegation_plan` returns for a planner outcome. */
  function DelegatedTasks(query: Option<string>, outcome: PlannerOutcome): seq<PlanTask>
  {
    match outcome
    case PlannedObject(tasks) => tasks.GetOr([])
    case _ => FallbackTasks(query)
  }

  /** Every outcome other than a JSON object yields the fallback plan's three tasks. */
  lemma FallbackUnlessObject(query: Option<string>, outcome: PlannerOutcome)
    requires !outcome.PlannedObject?
    ensures DelegatedTasks(query, outcome) == FallbackTasks(query)
    ensures |DelegatedTasks(query, outcome)| == 3
  {
  }

  /** The event names of delegation planning. */
  const Planned := "delegation_planned"
  const PlanFailed := "delegation_failed"

  /** The error of calling `.get` on a JSON value of type `t`. */
  function NoGet(t: string): string {
    "'" + t + "' object has no attribute 'get'"
  }

  /** The events `create_task_delegation_plan` logs, in order. A JSON value
      that is not an object is logged as planned, and then fails on `.get`. */
  function PlanningEvents(query: Option<string>, outcome: PlannerOutcome): seq<(string, Payload)>
  {
    match outcome
    case PlannedObject(tasks) => [(Planned, PlanPayload(tasks))]
    case PlannedOther(t) => [(Planned, OtherJson(t)), (PlanFailed, ErrorPayload(NoGet(t)))]
    case NotJson => [(Planned, PlanPayload(Some(FallbackTasks(query))))]
    case PlannerFailed(m) => [(PlanFailed, ErrorPayload(m))]
  }

  /** Logging several events one after the other, each trimmed. */
  function LogAll(log: seq<MemoryEntry>, now: string, events: seq<(string, Payload)>): seq<MemoryEntry>
    decreases |events|
  {
    if events == [] then log
    else LogAll(Trimmed(log + [MemoryEntry(now, events[0].0, events[0].1)]), now, events[1..])
  }

  class ResearchController {
    var sessionId: string
    var startTime: int
    var totalTasks: int
    var completedTasks: int
    var failedTasks: int
    var contextMemory: seq<MemoryEntry>
    var agentPerformance: map<string, string>

    /** The log never holds more than `MEMORY_SIZE` entries. */
    ghost predicate Valid()
      reads this
    {
      |contextMemory| <= MemorySize
    }

    /** The initial session state; the id and the start time come from the clock. */
    constructor (id: string, now: int)
      ensures Valid()
      ensures sessionId == id && startTime == now
      ensures totalTasks == 0 && completedTasks == 0 && failedTasks == 0
      ensures contextMemory == [] && agentPerformance == map[]
    {
      sessionId := id;
      startTime := now;
      totalTasks := 0;
      completedTasks := 0;
      failedTasks := 0;
      contextMemory := [];
      agentPerformance := map[];
    }

    /** `_update_session_state`: append the event, then keep the newest
      `MEMORY_SIZE` entries. Nothing else in the session state changes. */
    method UpdateSessionState(event: string, data: Payload, now: string)
      requires Valid()
      modifies this
      ensures Valid()
      ensures contextMemory == Trimmed(old(contextMemory) + [MemoryEntry(now, event, data)])
      ensures contextMemory[|contextMemory| - 1] == MemoryEntry(now, event, data)
      ensures |old(contextMemory)| < MemorySize ==> contextMemory == old(contextMemory) + [MemoryEntry(now, event, data)]
      ensures sessionId == old(sessionId) && startTime == old(startTime)
      ensures totalTasks == old(totalTasks) && completedTasks == old(completedTasks) && failedTasks == old(failedTasks)
      ensures agentPerformance == old(agentPerformance)
    {
      var entry := MemoryEntry(now, event, data);
      AppendThenTrim(contextMemory, entry);
      contextMemory := contextMemory + [entry];
      if |contextMemory| > MemorySize {
        contextMemory := contextMemory[|contextMemory| - MemorySize..];
      }
    }

    /** `get_session_metrics`, with the clock reading `now` in seconds. */
    function SessionMetricsAt(now: int): (m: SessionMetrics)
      reads this
      ensures Valid() ==> m.memoryUsage <= MemorySize
      ensures totalTasks <= 0 ==> m.successRate == completedTasks as real
      ensures 0 <= completedTasks <= totalTasks ==> 0.0 <= m.successRate <= 1.0
    {
      var denominator := if totalTasks >= 1 then totalTasks else 1;
      var rate := completedTasks as real / denominator as real;
      assert rate * denominator as real == completedTasks as real;
      SessionMetrics(sessionId, now - startTime, completedTasks, failedTasks, rate, |contextMemory|)
    }

    /** `create_task_delegation_plan` after the planning call ended in `outcome`:
        the events it logs and the tasks it returns. */
    method CreateTaskDelegationPlan(query: Option<string>, outcome: PlannerOutcome, now: string)
      returns (tasks: seq<PlanTask>)
      requires Valid()
      modifies this
      ensures Valid()
      ensures tasks == DelegatedTasks(query, outcome)
      ensures contextMemory == LogAll(old(contextMemory), now, PlanningEvents(query, outcome))
      ensures sessionId == old(sessionId) && startTime == old(startTime)
      ensures totalTasks == old(totalTasks) && completedTasks == old(completedTasks) && failedTasks == old(failedTasks)
      ensures agentPerformance == old(agentPerformance)
    {
      ghost var log0 := contextMemory;
      match outcome
      case PlannedObject(ts) =>
        UpdateSessionState(Planned, PlanPayload(ts), now);
        LogOne(log0, now, (Planned, PlanPayload(ts)));
        tasks := ts.GetOr([]);
      case PlannedOther(t) =>
        UpdateSessionState(Planned, OtherJson(t), now);
        ghost var log1 := contextMemory;
        UpdateSessionState(PlanFailed, ErrorPayload(NoGet(t)), now);
        LogOne(log1, now, (PlanFailed, ErrorPayload(NoGet(t))));
        LogTwo(log0, now, (Planned, OtherJson(t)), (PlanFailed, ErrorPayload(NoGet(t))));
        tasks := FallbackTasks(query);
      case NotJson =>
        var plan := FallbackTasks(query);
        UpdateSessionState(Planned, PlanPayload(Some(plan)), now);
        LogOne(log0, now, (Planned, PlanPayload(Some(plan))));
        tasks := plan;
      case PlannerFailed(m) =>
        tasks := FallbackTasks(query);
        UpdateSessionState(PlanFailed, ErrorPayload(m), now);
        LogOne(log0, now, (PlanFailed, ErrorPayload(m)));
    }
  }

  lemma LogOne(log: seq<MemoryEntry>, now: string, e: (string, Payload))
    ensures LogAll(log, now, [e]) == Trimmed(log + [MemoryEntry(now, e.0, e.1)])
  {
    assert [e][1..] == [];
  }

  lemma LogTwo(log: seq<MemoryEntry>, now: string, e: (string, Payload), f: (string, Payload))
    ensures LogAll(log, now, [e, f]) == LogAll(Trimmed(log + [MemoryEntry(now, e.0, e.1)]), now, [f])
  {
    assert [e, f][1..] == [f];
  }

  /** Planning logs one event, or two when the plan was JSON but not an
      object; the log stays within `MEMORY_SIZE` and its newest entry is the
      last event. */
  lemma PlanningLogShape(log: seq<MemoryEntry>, now: string, query: Option<string>, outcome: PlannerOutcome)
    requires |log| <= MemorySize
    ensures var es := PlanningEvents(query, outcome);
      var r := LogAll(log, now, es);
      (|es| == 2 <==> outcome.PlannedOther?) && (|es| == 1 <==> !outcome.PlannedOther?)
      && |r| <= MemorySize && r != []
      && r[|r| - 1] == MemoryEntry(now, es[|es| - 1].0, es[|es| - 1].1)
  {
    var es := PlanningEvents(query, outcome);
    var e0 := MemoryEntry(now, es[0].0, es[0].1);
    AppendThenTrim(log, e0);
    var log1 := Trimmed(log + [e0]);
    assert LogAll(log, now, es) == LogAll(log1, now, es[1..]);
    if |es| == 2 {
      var e1 := MemoryEntry(now, es[1].0, es[1].1);
      AppendThenTrim(log1, e1);
      assert es[1..][1..] == [];
      assert LogAll(log1, now, es[1..]) == LogAll(Trimmed(log1 + [e1]), now, []);
    } else {
      assert es[1..] == [];
    }
  }
}
