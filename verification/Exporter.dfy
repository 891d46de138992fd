/** `build_export` of evals/export.py: one trajectory and one labels line per attempt, a manifest of what
    was emitted, and the refusal of every held-out template. */
module Exporter {
  import opened Wrappers
  import opened Sorting
  import opened TraceExport
  import opened Filtering
  import Texts

  const SCHEMA_VERSION: int := 3
  const HOLDOUT: string := "holdout"

  datatype Scenario = Scenario(name: string, templateId: string, seed: int, split: string)

  // ----- One trajectory -----

  /** Where an observation lives and what it digests to, never its text. */
  datatype ObservationRef = ObservationRef(id: string, traceFile: string, toolName: string, ok: bool, content: Content)

  datatype ActionResult = ActionResult(observationRef: string, ok: bool)

  datatype ActionRecord = ActionRecord(sequence: nat, toolName: string, arguments: string, result: ActionResult)

  datatype Decision = Decision(stepId: string, actionKind: string)

  datatype Outcome = Outcome(finalState: Option<string>, decisionCount: nat, actionCount: nat, complete: bool)

  datatype Trajectory = Trajectory(
    schemaVersion: int, trajectoryId: string, scenario: string, templateId: string, seed: int, split: string,
    invocationId: string, decisions: seq<Decision>, actions: seq<ActionRecord>, observations: seq<ObservationRef>,
    outcome: Outcome)

  datatype LabelLine = LabelLine(trajectoryId: string, scenario: string, templateId: string, split: string)

  predicate IsCall(body: Body) {
    body.Mcp? || body.McpError?
  }

  function Calls(records: seq<TraceRecord>): (calls: seq<Body>)
    ensures forall call <- calls :: IsCall(call)
  {
    if records == [] then []
    else
      var last := records[|records| - 1].body;
      Calls(records[..|records| - 1]) + if IsCall(last) then [last] else []
  }

  function Decisions(records: seq<TraceRecord>): seq<Decision> {
    if records == [] then []
    else
      var last := records[|records| - 1].body;
      Decisions(records[..|records| - 1]) + if last.StepBody? then [Decision(last.stepId, last.actionKind)] else []
  }

  /** The last end record, if there is one. */
  function LastEnd(records: seq<TraceRecord>): Option<Body> {
    if records == [] then None
    else if records[|records| - 1].body.ScenarioEnd? then Some(records[|records| - 1].body)
    else LastEnd(records[..|records| - 1])
  }

  function FinalState(records: seq<TraceRecord>): Option<string> {
    var end := LastEnd(records);
    if end.Some? && end.value.ScenarioEnd? then end.value.finalState else None
  }

  function Observation(call: Body, traceFile: string): ObservationRef
    requires IsCall(call)
  {
    match call
    case Mcp(id, tool, _, result) => ObservationRef(id, traceFile, tool, true, result)
    case McpError(id, tool, _, error) => ObservationRef(id, traceFile, tool, false, error)
  }

  /** The calls in order, each action bound to the observation at its own place. */
  ghost predicate Bound(
      actions: seq<ActionRecord>, observations: seq<ObservationRef>, calls: seq<Body>, traceFile: string)
    requires forall call <- calls :: IsCall(call)
  {
    && |actions| == |observations| == |calls|
    && (forall i :: 0 <= i < |calls| ==> observations[i] == Observation(calls[i], traceFile))
    && forall i :: 0 <= i < |calls| ==> BoundAt(actions[i], i, calls[i], observations[i])
  }

  predicate BoundAt(action: ActionRecord, i: nat, call: Body, observation: ObservationRef)
    requires IsCall(call)
  {
    && action.sequence == i && action.toolName == observation.toolName && action.arguments == call.arguments
    && action.result == ActionResult(observation.id, observation.ok)
  }

  method Actions(invocation: TraceInvocation) returns (actions: seq<ActionRecord>, observations: seq<ObservationRef>)
    ensures Bound(actions, observations, Calls(invocation.records), invocation.traceFile)
  {
    var calls := Calls(invocation.records);
    actions, observations := [], [];
    for i := 0 to |calls|
      invariant |actions| == |observations| == i
      invariant forall j :: 0 <= j < i ==> observations[j] == Observation(calls[j], invocation.traceFile)
      invariant forall j :: 0 <= j < i ==> BoundAt(actions[j], j, calls[j], observations[j])
    {
      var ref := Observation(calls[i], invocation.traceFile);
      observations := observations + [ref];
      actions := actions + [ActionRecord(i, ref.toolName, calls[i].arguments, ActionResult(ref.id, ref.ok))];
    }
  }

  function TrajectoryId(invocation: TraceInvocation): string {
    invocation.scenario + ":" + invocation.invocationId
  }

  /** The trajectory is this attempt's, under this scenario's benchmark keys. */
  ghost predicate Renders(t: Trajectory, invocation: TraceInvocation, scenario: Scenario) {
    && t.schemaVersion == SCHEMA_VERSION && t.trajectoryId == TrajectoryId(invocation)
    && t.scenario == invocation.scenario && t.invocationId == invocation.invocationId
    && t.templateId == scenario.templateId && t.seed == scenario.seed && t.split == scenario.split
    && t.decisions == Decisions(invocation.records)
    && Bound(t.actions, t.observations, Calls(invocation.records), invocation.traceFile)
    && t.outcome.decisionCount == |t.decisions| && t.outcome.actionCount == |t.actions|
    && t.outcome.finalState == FinalState(invocation.records)
    && (t.outcome.complete <==>
      invocation.First((b: Body) => b.ScenarioStart?).Some? && LastEnd(invocation.records).Some?)
  }

  method RenderTrajectory(invocation: TraceInvocation, scenario: Scenario) returns (t: Trajectory)
    ensures Renders(t, invocation, scenario)
  {
    var start, end := invocation.First((b: Body) => b.ScenarioStart?), LastEnd(invocation.records);
    var decisions := Decisions(invocation.records);
    var actions, observations := Actions(invocation);
    t := Trajectory(
      SCHEMA_VERSION, TrajectoryId(invocation), invocation.scenario, scenario.templateId, scenario.seed, scenario.split,
      invocation.invocationId, decisions, actions, observations,
      Outcome(FinalState(invocation.records), |decisions|, |actions|, start.Some? && end.Some?));
  }

  // ----- A trajectory against its trace -----

  /** A traced call, as the action and the observation it becomes. */
  predicate CallRecorded(body: Body, n: nat, action: ActionRecord, o: ObservationRef, traceFile: string) {
    match body
    case Mcp(id, tool, arguments, result) =>
      && action == ActionRecord(n, tool, arguments, ActionResult(id, true))
      && o == ObservationRef(id, traceFile, tool, true, result)
    case McpError(id, tool, arguments, error) =>
      && action == ActionRecord(n, tool, arguments, ActionResult(id, false))
      && o == ObservationRef(id, traceFile, tool, false, error)
    case _ => false
  }

  /** Where the calls stand: each one recorded in its turn, and none left out. */
  ghost predicate CallsFollow(at: seq<nat>, t: Trajectory, invocation: TraceInvocation) {
    var records := invocation.records;
    && |at| == |t.actions| == |t.observations|
    && (forall m, n :: 0 <= m < n < |at| ==> at[m] < at[n])
    && (forall i :: 0 <= i < |records| && (records[i].body.Mcp? || records[i].body.McpError?) ==> i in at)
    && (forall n :: 0 <= n < |at| ==> at[n] < |records|)
    && forall n :: 0 <= n < |at| ==>
      CallRecorded(records[at[n]].body, n, t.actions[n], t.observations[n], invocation.traceFile)
  }

  function CallIn(record: TraceRecord): Option<Body> {
    if record.body.Mcp? || record.body.McpError? then Some(record.body) else None
  }

  function DecisionIn(record: TraceRecord): Option<Decision> {
    if record.body.StepBody? then Some(Decision(record.body.stepId, record.body.actionKind)) else None
  }

  lemma {:induction false} CallsInOrder(records: seq<TraceRecord>)
    ensures PickedFrom(records, Calls(records), CallIn)
  {
    if records == [] {
      NothingPicked(CallIn);
    } else {
      var init, last := records[..|records| - 1], records[|records| - 1];
      CallsInOrder(init);
      OneMorePicked(init, Calls(init), CallIn, last);
      assert records == init + [last];
    }
  }

  lemma {:induction false} DecisionsInOrder(records: seq<TraceRecord>)
    ensures PickedFrom(records, Decisions(records), DecisionIn)
  {
    if records == [] {
      NothingPicked(DecisionIn);
    } else {
      var init, last := records[..|records| - 1], records[|records| - 1];
      DecisionsInOrder(init);
      OneMorePicked(init, Decisions(init), DecisionIn, last);
      assert records == init + [last];
    }
  }

  /** The last end record. */
  predicate EndsAt(records: seq<TraceRecord>, i: nat) {
    && i < |records| && records[i].body.ScenarioEnd?
    && forall j :: i < j < |records| ==> !records[j].body.ScenarioEnd?
  }

  lemma {:induction false} LastEndIs(records: seq<TraceRecord>)
    ensures forall i: nat :: EndsAt(records, i) ==> LastEnd(records) == Some(records[i].body)
    ensures LastEnd(records).Some? ==> exists i: nat :: EndsAt(records, i)
  {
    if records != [] && records[|records| - 1].body.ScenarioEnd? {
      assert EndsAt(records, |records| - 1);
    } else if records != [] {
      var init := records[..|records| - 1];
      LastEndIs(init);
      forall i: nat ensures EndsAt(records, i) <==> EndsAt(init, i) {
      }
    }
  }

  lemma CallsFollowTrace(t: Trajectory, invocation: TraceInvocation)
    requires Bound(t.actions, t.observations, Calls(invocation.records), invocation.traceFile)
    ensures exists at: seq<nat> :: CallsFollow(at, t, invocation)
  {
    var records, calls := invocation.records, Calls(invocation.records);
    CallsInOrder(records);
    var at: seq<nat> :| Positions(at, records, calls, CallIn);
    forall n | 0 <= n < |at|
      ensures at[n] < |records|
        && CallRecorded(records[at[n]].body, n, t.actions[n], t.observations[n], invocation.traceFile)
    {
      assert CallIn(records[at[n]]) == Some(calls[n]);
      CallIsRecorded(calls[n], n, t.actions[n], t.observations[n], invocation.traceFile);
    }
    forall i | 0 <= i < |records| && (records[i].body.Mcp? || records[i].body.McpError?) ensures i in at {
      assert CallIn(records[i]).Some?;
    }
    assert CallsFollow(at, t, invocation);
  }

  lemma CallIsRecorded(call: Body, n: nat, action: ActionRecord, o: ObservationRef, traceFile: string)
    requires IsCall(call) && o == Observation(call, traceFile) && BoundAt(action, n, call, o)
    ensures CallRecorded(call, n, action, o, traceFile)
  {
  }

  /** A trajectory is its trace: the decisions and the calls it made, in order and all of them, and how it ended. */
  lemma TrajectoryFollowsTrace(t: Trajectory, invocation: TraceInvocation, scenario: Scenario)
    requires Renders(t, invocation, scenario)
    ensures exists at: seq<nat> :: CallsFollow(at, t, invocation)
    ensures PickedFrom(invocation.records, t.decisions, DecisionIn)
    ensures forall i: nat :: EndsAt(invocation.records, i) ==>
      t.outcome.finalState == invocation.records[i].body.finalState
    ensures t.outcome.complete <==>
      (exists i: nat :: StartsAt(invocation.records, i)) && exists i: nat :: EndsAt(invocation.records, i)
  {
    CallsFollowTrace(t, invocation);
    DecisionsInOrder(invocation.records);
    LastEndIs(invocation.records);
    FirstStart(invocation.records);
  }

  function LabelsOf(invocation: TraceInvocation, scenario: Scenario): LabelLine {
    LabelLine(TrajectoryId(invocation), invocation.scenario, scenario.templateId, scenario.split)
  }

  // ----- The corpus -----

  /** `{scenario.name: scenario}`: the last of a name wins. */
  function ByName(corpus: seq<Scenario>): (byName: map<string, Scenario>)
    ensures forall name <- byName :: byName[name] in corpus && byName[name].name == name
    ensures forall scenario <- corpus :: scenario.name in byName
  {
    if corpus == [] then map[]
    else
      var init, last := corpus[..|corpus| - 1], corpus[|corpus| - 1];
      assert corpus == init + [last];
      ByName(init)[last.name := last]
  }

  function HoldoutIds(scenarios: set<Scenario>): set<string> {
    set scenario <- scenarios | scenario.split == HOLDOUT :: scenario.templateId
  }

  function WholeCorpus(corpus: seq<Scenario>): set<Scenario> {
    set scenario <- corpus
  }

  /** What the exporter refuses by: the corpus after one scenario per name is kept. */
  function RefusedIds(corpus: seq<Scenario>): set<string> {
    HoldoutIds(ByName(corpus).Values)
  }

  // ----- The export -----

  /** A file's bytes, up to what its digest tells apart: the rendering of some lines, or something else. */
  datatype Bytes<T> = LinesOf(lines: seq<T>) | Foreign(raw: string)

  datatype Manifest = Manifest(
    schemaVersion: int, invocationId: string, trajectoryCount: nat, completeCount: nat,
    exportedTemplateIds: seq<string>, exportedScenarios: seq<string>,
    splitsPresent: seq<string>, holdoutTemplateIdsInCorpus: seq<string>, trajectoriesDigest: Bytes<Trajectory>,
    labelsDigest: Bytes<LabelLine>, rehearsalRefused: nat, rehearsalIncluded: bool)

  datatype Export = Export(trajectories: seq<Trajectory>, labels: seq<LabelLine>, manifest: Manifest)

  function AllInvocations(files: seq<TraceFile>): seq<TraceInvocation>
    requires forall file <- files :: Readable(file)
  {
    if files == [] then [] else AllInvocations(files[..|files| - 1]) + Invocations(files[|files| - 1])
  }

  function Kept(found: seq<TraceInvocation>): seq<TraceInvocation> {
    if found == [] then []
    else Kept(found[..|found| - 1]) + if found[|found| - 1].IsRehearsal() then [] else [found[|found| - 1]]
  }

  function Rehearsals(found: seq<TraceInvocation>): nat {
    if found == [] then 0 else Rehearsals(found[..|found| - 1]) + if found[|found| - 1].IsRehearsal() then 1 else 0
  }

  predicate InvocationLeq(a: TraceInvocation, b: TraceInvocation) {
    if a.scenario != b.scenario then Texts.Leq(a.scenario, b.scenario) else Texts.Leq(a.invocationId, b.invocationId)
  }

  predicate Offends(byName: map<string, Scenario>, heldOut: set<string>, found: TraceInvocation) {
    found.scenario in byName
      && (byName[found.scenario].split == HOLDOUT || byName[found.scenario].templateId in heldOut)
  }

  /** Held-out pairs among these attempts, by name. */
  function Offending(
      byName: map<string, Scenario>, heldOut: set<string>, found: seq<TraceInvocation>): set<(string, string)>
    requires forall one <- found :: one.scenario in byName
  {
    set one <- found | Offends(byName, heldOut, one) :: (byName[one.scenario].name, byName[one.scenario].templateId)
  }

  function CompleteCount(trajectories: seq<Trajectory>): nat {
    if trajectories == [] then 0
    else
      var last := trajectories[|trajectories| - 1];
      CompleteCount(trajectories[..|trajectories| - 1]) + if last.outcome.complete then 1 else 0
  }

  function TemplatesOf(trajectories: seq<Trajectory>): set<string> {
    set t <- trajectories :: t.templateId
  }

  function ScenariosOf(trajectories: seq<Trajectory>): set<string> {
    set t <- trajectories :: t.scenario
  }

  function SplitsOf(trajectories: seq<Trajectory>): set<string> {
    set t <- trajectories :: t.split
  }

  function ManifestOf(
      invocationId: string, trajectories: seq<Trajectory>, labels: seq<LabelLine>, heldOut: set<string>, refused: nat,
      included: bool): Manifest {
    Manifest(
      SCHEMA_VERSION, invocationId, |trajectories|, CompleteCount(trajectories),
      Texts.Sorted(TemplatesOf(trajectories)),
      Texts.Sorted(ScenariosOf(trajectories)), Texts.Sorted(SplitsOf(trajectories)), Texts.Sorted(heldOut),
      LinesOf(trajectories), LinesOf(labels), refused, included)
  }

  /** The export renders exactly these attempts, each under its own scenario. */
  ghost predicate RendersAll(e: Export, ordered: seq<TraceInvocation>, byName: map<string, Scenario>) {
    && |e.trajectories| == |e.labels| == |ordered|
    && (forall i :: 0 <= i < |ordered| ==> ordered[i].scenario in byName)
    && (forall i :: 0 <= i < |ordered| ==> Renders(e.trajectories[i], ordered[i], byName[ordered[i].scenario]))
    && forall i :: 0 <= i < |ordered| ==> e.labels[i] == LabelsOf(ordered[i], byName[ordered[i].scenario])
  }

  predicate AllKnown(found: seq<TraceInvocation>, byName: map<string, Scenario>) {
    forall one <- found :: one.scenario in byName
  }

  function ToExport(found: seq<TraceInvocation>, includeRehearsal: bool): seq<TraceInvocation> {
    if includeRehearsal then found else Kept(found)
  }

  predicate AllReadable(files: seq<TraceFile>) {
    forall file <- files :: Readable(file)
  }

  predicate NoneHeldOut(found: seq<TraceInvocation>, byName: map<string, Scenario>, heldOut: set<string>) {
    forall one <- found :: !Offends(byName, heldOut, one)
  }

  /** When `build_export` succeeds: every file is readable, every attempt's scenario is known, rehearsals
      too, and no attempt it would emit is held out. */
  predicate Exportable(files: seq<TraceFile>, corpus: seq<Scenario>, includeRehearsal: bool) {
    && AllReadable(files)
    && AllKnown(AllInvocations(files), ByName(corpus))
    && NoneHeldOut(ToExport(AllInvocations(files), includeRehearsal), ByName(corpus), RefusedIds(corpus))
  }

  ghost predicate Exported(
      e: Export, files: seq<TraceFile>, corpus: seq<Scenario>, includeRehearsal: bool, ordered: seq<TraceInvocation>) {
    && Exportable(files, corpus, includeRehearsal)
    && SortedBy(InvocationLeq, ordered)
    && multiset(ordered) == multiset(ToExport(AllInvocations(files), includeRehearsal))
    && RendersAll(e, ordered, ByName(corpus))
    && e.manifest == ManifestOf(
      e.manifest.invocationId, e.trajectories, e.labels, RefusedIds(corpus),
      if includeRehearsal then 0 else Rehearsals(AllInvocations(files)), includeRehearsal)
  }

  method ReadAll(files: seq<TraceFile>) returns (r: Result<seq<TraceInvocation>, ExportError>)
    ensures r.Ok? <==> AllReadable(files)
    ensures r.Ok? ==> r.value == AllInvocations(files)
  {
    var found: seq<TraceInvocation> := [];
    for i := 0 to |files|
      invariant AllReadable(files[..i]) && found == AllInvocations(files[..i])
    {
      assert files[..i + 1] == files[..i] + [files[i]] && files[i] in files;
      assert files[..i + 1][..i] == files[..i];
      var one := ReadTraceFile(files[i]);
      if one.Err? {
        return Err(one.error);
      }
      found := found + one.value;
    }
    assert files[..|files|] == files;
    return Ok(found);
  }

  lemma InvocationsAreOrdered()
    ensures TotalPreorder(InvocationLeq)
  {
    forall a: TraceInvocation, b: TraceInvocation ensures InvocationLeq(a, b) || InvocationLeq(b, a) {
      Texts.Total(a.scenario, b.scenario);
      Texts.Total(a.invocationId, b.invocationId);
    }
    forall a: TraceInvocation, b: TraceInvocation, c: TraceInvocation | InvocationLeq(a, b) && InvocationLeq(b, c)
      ensures InvocationLeq(a, c)
    {
      Texts.Total(b.scenario, b.scenario);
      Texts.Transitive(a.scenario, b.scenario, c.scenario);
      if a.scenario == c.scenario {
        Texts.Antisymmetric(a.scenario, b.scenario);
        Texts.Transitive(a.invocationId, b.invocationId, c.invocationId);
      }
    }
  }

  method RenderAll(ordered: seq<TraceInvocation>, byName: map<string, Scenario>)
    returns (trajectories: seq<Trajectory>, labels: seq<LabelLine>)
    requires AllKnown(ordered, byName)
    ensures forall manifest :: RendersAll(Export(trajectories, labels, manifest), ordered, byName)
  {
    trajectories, labels := [], [];
    for i := 0 to |ordered|
      invariant |trajectories| == |labels| == i
      invariant forall j :: 0 <= j < i ==> ordered[j].scenario in byName
      invariant forall j :: 0 <= j < i ==> Renders(trajectories[j], ordered[j], byName[ordered[j].scenario])
      invariant forall j :: 0 <= j < i ==> labels[j] == LabelsOf(ordered[j], byName[ordered[j].scenario])
    {
      assert ordered[i] in ordered;
      var scenario := byName[ordered[i].scenario];
      var t := RenderTrajectory(ordered[i], scenario);
      trajectories := trajectories + [t];
      labels := labels + [LabelsOf(ordered[i], scenario)];
    }
  }

  method BuildExport(traces: seq<TraceFile>, corpus: seq<Scenario>, invocationId: string, includeRehearsal: bool)
    returns (r: Result<Export, ExportError>, ghost ordered: seq<TraceInvocation>)
    ensures r.Ok? <==> Exportable(traces, corpus, includeRehearsal)
    ensures r.Ok? ==>
      Exported(r.value, traces, corpus, includeRehearsal, ordered) && r.value.manifest.invocationId == invocationId
  {
    ordered := [];
    var byName := ByName(corpus);
    var heldOut := HoldoutIds(byName.Values);
    var read := ReadAll(traces);
    if read.Err? {
      return Err(read.error), ordered;
    }
    var found := read.value;
    var unknown := set one <- found | one.scenario !in byName :: one.scenario;
    if unknown != {} {
      return Err(UnknownScenarios(unknown)), ordered;
    }
    assert forall one <- found :: one.scenario !in unknown;
    var kept := ToExport(found, includeRehearsal);
    var sorted := SortInvocations(kept);
    StillKnown(found, includeRehearsal, sorted, byName);
    var offending := Offending(byName, heldOut, sorted);
    OffendingIsAny(byName, heldOut, kept, sorted);
    if offending != {} {
      return Err(HeldOut(offending)), ordered;
    }
    var trajectories, labels := RenderAll(sorted, byName);
    ordered := sorted;
    var refused := if includeRehearsal then 0 else Rehearsals(found);
    var manifest := ManifestOf(invocationId, trajectories, labels, heldOut, refused, includeRehearsal);
    return Ok(Export(trajectories, labels, manifest)), ordered;
  }

  method SortInvocations(kept: seq<TraceInvocation>) returns (sorted: seq<TraceInvocation>)
    ensures SortedBy(InvocationLeq, sorted) && multiset(sorted) == multiset(kept)
  {
    InvocationsAreOrdered();
    sorted := Sort(InvocationLeq, kept);
  }

  lemma {:induction false} KeptAreFound(found: seq<TraceInvocation>)
    ensures forall one <- Kept(found) :: one in found
    ensures |Kept(found)| + Rehearsals(found) == |found|
  {
    if found != [] {
      KeptAreFound(found[..|found| - 1]);
    }
  }

  lemma StillKnown(
      found: seq<TraceInvocation>, includeRehearsal: bool, sorted: seq<TraceInvocation>, byName: map<string, Scenario>)
    requires AllKnown(found, byName) && multiset(sorted) == multiset(ToExport(found, includeRehearsal))
    ensures AllKnown(sorted, byName)
  {
    KeptAreFound(found);
    forall one | one in sorted ensures one.scenario in byName {
      assert one in multiset(sorted);
      assert one in ToExport(found, includeRehearsal);
    }
  }

  lemma OffendingIsAny(
      byName: map<string, Scenario>, heldOut: set<string>, kept: seq<TraceInvocation>, sorted: seq<TraceInvocation>)
    requires AllKnown(sorted, byName) && multiset(sorted) == multiset(kept)
    ensures Offending(byName, heldOut, sorted) == {} <==> NoneHeldOut(kept, byName, heldOut)
  {
    assert forall one :: one in sorted <==> one in multiset(sorted);
    assert forall one :: one in kept <==> one in multiset(kept);
    if one :| one in sorted && Offends(byName, heldOut, one) {
      assert (byName[one.scenario].name, byName[one.scenario].templateId) in Offending(byName, heldOut, sorted);
    }
  }
}
