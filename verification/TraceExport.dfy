/** The training export of evals/export.py: trace files split into attempts, each attempt rendered as one
    trajectory, and held-out templates refused. Digests are the digested content itself. */
module TraceExport {
  import opened Wrappers
  import opened Filtering

  // ----- The trace store -----

  /** A result or an error as traced; None where it is null. */
  type Content = Option<string>

  datatype Body =
    | ScenarioStart(executionMode: Option<string>)
    | ScenarioEnd(finalState: Option<string>)
    | StepBody(stepId: string, actionKind: string)
    | Mcp(recordId: string, toolName: string, arguments: string, result: Content)
    | McpError(recordId: string, toolName: string, arguments: string, error: Content)
    | OtherBody

  datatype TraceRecord = TraceRecord(invocation: Option<string>, scenario: Option<string>, body: Body)
  {
    predicate Identified() {
      invocation.Some? && invocation.value != ""
    }

    predicate NamesScenario() {
      scenario.Some? && scenario.value != ""
    }
  }

  datatype TraceLine = Blank | NotJson | NotObject | Holds(record: TraceRecord)

  datatype TraceFile = TraceFile(name: string, lines: seq<TraceLine>)

  datatype TraceInvocation = TraceInvocation(scenario: string, invocationId: string, traceFile: string,
    records: seq<TraceRecord>)
  {
    function First(starts: Body -> bool): Option<Body> {
      FirstOf(records, starts)
    }

    /** A scripted planner's attempt, by its first start record. */
    predicate IsRehearsal() {
      First((b: Body) => b.ScenarioStart?) == Some(ScenarioStart(Some("rehearsal")))
    }
  }

  function FirstOf(records: seq<TraceRecord>, starts: Body -> bool): Option<Body> {
    if records == [] then None
    else if starts(records[0].body) then Some(records[0].body)
    else FirstOf(records[1..], starts)
  }

  datatype ExportError =
    | BadLine | NoInvocation | TwoScenarios
    | UnknownScenarios(names: set<string>)
    | HeldOut(offending: set<(string, string)>)

  // ----- Splitting a trace file -----

  predicate Parses(lines: seq<TraceLine>) {
    forall line <- lines :: line.Blank? || line.Holds?
  }

  function RecordsIn(lines: seq<TraceLine>): seq<TraceRecord> {
    if lines == [] then []
    else RecordsIn(lines[..|lines| - 1]) + if lines[|lines| - 1].Holds? then [lines[|lines| - 1].record] else []
  }

  predicate AllIdentified(records: seq<TraceRecord>) {
    forall record <- records :: record.Identified()
  }

  /** The records of one attempt, in the order they were written. */
  function Of(records: seq<TraceRecord>, id: string): seq<TraceRecord> {
    if records == [] then []
    else
      var last := records[|records| - 1];
      Of(records[..|records| - 1], id) + if last.invocation == Some(id) then [last] else []
  }

  /** The attempts, in the order they are met. */
  function Ids(records: seq<TraceRecord>): (ids: seq<string>)
    requires AllIdentified(records)
    ensures forall id :: id in ids <==> exists record <- records :: record.invocation == Some(id)
    ensures forall i, j :: 0 <= i < j < |ids| ==> ids[i] != ids[j]
  {
    if records == [] then []
    else
      var before, last := Ids(records[..|records| - 1]), records[|records| - 1];
      assert records == records[..|records| - 1] + [last];
      assert last in records;
      if last.invocation.value in before then before else before + [last.invocation.value]
  }

  function Named(records: seq<TraceRecord>): set<string> {
    set record <- records | record.NamesScenario() :: record.scenario.value
  }

  /** `name.split(".", 1)[0]`. */
  function BeforeDot(name: string): (stem: string)
    ensures '.' !in stem && stem <= name
    ensures |stem| < |name| ==> name[|stem|] == '.'
  {
    if name == "" || name[0] == '.' then "" else [name[0]] + BeforeDot(name[1..])
  }

  function ScenarioOf(fileName: string, group: seq<TraceRecord>): string {
    if group == [] then BeforeDot(fileName)
    else if group[0].NamesScenario() then group[0].scenario.value
    else ScenarioOf(fileName, group[1..])
  }

  function InvocationOf(fileName: string, records: seq<TraceRecord>, id: string): TraceInvocation {
    TraceInvocation(ScenarioOf(fileName, Of(records, id)), id, fileName, Of(records, id))
  }

  predicate OneScenarioEach(records: seq<TraceRecord>)
    requires AllIdentified(records)
  {
    forall id <- Ids(records) :: |Named(Of(records, id))| <= 1
  }

  predicate Readable(file: TraceFile) {
    Parses(file.lines) && AllIdentified(RecordsIn(file.lines)) && OneScenarioEach(RecordsIn(file.lines))
  }

  function Invocations(file: TraceFile): seq<TraceInvocation>
    requires Readable(file)
  {
    InvocationsFor(file.name, RecordsIn(file.lines), Ids(RecordsIn(file.lines)))
  }

  function InvocationsFor(fileName: string, records: seq<TraceRecord>, ids: seq<string>): seq<TraceInvocation> {
    seq(|ids|, i requires 0 <= i < |ids| => InvocationOf(fileName, records, ids[i]))
  }

  method Parse(lines: seq<TraceLine>) returns (r: Result<seq<TraceRecord>, ExportError>)
    ensures r.Ok? <==> Parses(lines)
    ensures r == if Parses(lines) then Ok(RecordsIn(lines)) else Err(BadLine)
  {
    var records := [];
    for i := 0 to |lines|
      invariant Parses(lines[..i]) && records == RecordsIn(lines[..i])
    {
      assert lines[..i + 1] == lines[..i] + [lines[i]];
      assert lines[i] in lines;
      match lines[i]
      case Blank =>
      case NotJson => return Err(BadLine);
      case NotObject => return Err(BadLine);
      case Holds(record) => records := records + [record];
    }
    assert lines[..|lines|] == lines;
    return Ok(records);
  }

  method GroupById(records: seq<TraceRecord>) returns (order: seq<string>, grouped: map<string, seq<TraceRecord>>)
    requires AllIdentified(records)
    ensures order == Ids(records)
    ensures forall id :: id in grouped <==> id in order
    ensures forall id <- grouped :: grouped[id] == Of(records, id)
  {
    order, grouped := [], map[];
    for i := 0 to |records|
      invariant order == Ids(records[..i])
      invariant forall id :: id in grouped <==> id in order
      invariant forall id <- grouped :: grouped[id] == Of(records[..i], id)
    {
      assert records[..i + 1][..i] == records[..i] && records[i] in records;
      var id := records[i].invocation.value;
      if id !in grouped {
        NoneOfThatId(records[..i], id);
        order := order + [id];
        grouped := grouped[id := []];
      }
      grouped := grouped[id := grouped[id] + [records[i]]];
    }
    assert records[..|records|] == records;
  }

  lemma {:induction false} NoneOfThatId(records: seq<TraceRecord>, id: string)
    requires forall record <- records :: record.invocation != Some(id)
    ensures Of(records, id) == []
  {
    if records != [] {
      assert records[|records| - 1] in records;
      NoneOfThatId(records[..|records| - 1], id);
    }
  }

  /** `read_trace_file`: the attempts of one file, refused where they cannot be told apart. */
  method ReadTraceFile(file: TraceFile) returns (r: Result<seq<TraceInvocation>, ExportError>)
    ensures r.Ok? <==> Readable(file)
    ensures r.Ok? ==> r.value == Invocations(file)
    ensures r.Err? ==> r.error in {BadLine, NoInvocation, TwoScenarios}
  {
    var parsed := Parse(file.lines);
    if parsed.Err? {
      return Err(parsed.error);
    }
    var records := parsed.value;
    var identified := CheckIdentified(records);
    if !identified {
      return Err(NoInvocation);
    }
    var order, grouped := GroupById(records);
    var found, separate := Separate(file.name, records, order, grouped);
    if !separate {
      return Err(TwoScenarios);
    }
    return Ok(found);
  }

  method CheckIdentified(records: seq<TraceRecord>) returns (all: bool)
    ensures all == AllIdentified(records)
  {
    for i := 0 to |records|
      invariant AllIdentified(records[..i])
    {
      assert records[..i + 1] == records[..i] + [records[i]];
      assert records[i] in records;
      if !records[i].Identified() {
        return false;
      }
    }
    assert records[..|records|] == records;
    return true;
  }

  method Separate(
      fileName: string, records: seq<TraceRecord>, order: seq<string>, grouped: map<string, seq<TraceRecord>>)
    returns (found: seq<TraceInvocation>, separate: bool)
    requires forall id <- order :: id in grouped && grouped[id] == Of(records, id)
    ensures separate <==> forall id <- order :: |Named(Of(records, id))| <= 1
    ensures separate ==> found == InvocationsFor(fileName, records, order)
  {
    found := [];
    for i := 0 to |order|
      invariant found == InvocationsFor(fileName, records, order)[..i]
      invariant forall id <- order[..i] :: |Named(Of(records, id))| <= 1
    {
      assert order[..i + 1] == order[..i] + [order[i]];
      assert order[i] in order;
      var group := grouped[order[i]];
      if |Named(group)| > 1 {
        return found, false;
      }
      found := found + [TraceInvocation(ScenarioOf(fileName, group), order[i], fileName, group)];
    }
    assert order[..|order|] == order;
    separate := true;
  }

  // ----- What reading keeps, in order -----

  function RecordOn(line: TraceLine): Option<TraceRecord> {
    if line.Holds? then Some(line.record) else None
  }

  lemma {:induction false} RecordsInOrder(lines: seq<TraceLine>)
    ensures PickedFrom(lines, RecordsIn(lines), RecordOn)
  {
    if lines == [] {
      NothingPicked(RecordOn);
    } else {
      var init, last := lines[..|lines| - 1], lines[|lines| - 1];
      RecordsInOrder(init);
      OneMorePicked(init, RecordsIn(init), RecordOn, last);
      assert lines == init + [last];
    }
  }

  lemma {:induction false} AttemptInOrder(records: seq<TraceRecord>, id: string)
    ensures PickedFrom(records, Of(records, id), (r: TraceRecord) => if r.invocation == Some(id) then Some(r) else None)
  {
    var pick := (r: TraceRecord) => if r.invocation == Some(id) then Some(r) else None;
    if records == [] {
      NothingPicked(pick);
    } else {
      var init, last := records[..|records| - 1], records[|records| - 1];
      AttemptInOrder(init, id);
      OneMorePicked(init, Of(init, id), pick, last);
      assert records == init + [last];
    }
  }

  /** An attempt none of whose records names a scenario is of the scenario its file is named for. */
  lemma {:induction false} UnnamedIsTheFiles(fileName: string, group: seq<TraceRecord>)
    requires forall record <- group :: !record.NamesScenario()
    ensures ScenarioOf(fileName, group) == BeforeDot(fileName)
  {
    if group != [] {
      assert group[0] in group && forall record <- group[1..] :: record in group;
      UnnamedIsTheFiles(fileName, group[1..]);
    }
  }

  /** A rehearsal is an attempt whose first start record says it is one. */
  lemma {:induction false} RehearsalIs(invocation: TraceInvocation)
    ensures invocation.IsRehearsal() <==> exists i: nat ::
      StartsAt(invocation.records, i) && invocation.records[i].body.executionMode == Some("rehearsal")
  {
    FirstStart(invocation.records);
  }

  /** The first start record. */
  predicate StartsAt(records: seq<TraceRecord>, i: nat) {
    && i < |records| && records[i].body.ScenarioStart?
    && forall j :: 0 <= j < i ==> !records[j].body.ScenarioStart?
  }

  lemma {:induction false} FirstStart(records: seq<TraceRecord>)
    ensures forall i: nat :: StartsAt(records, i) ==>
      FirstOf(records, (b: Body) => b.ScenarioStart?) == Some(records[i].body)
    ensures FirstOf(records, (b: Body) => b.ScenarioStart?).Some? ==> exists i: nat :: StartsAt(records, i)
  {
    if records != [] && records[0].body.ScenarioStart? {
      assert StartsAt(records, 0);
    } else if records != [] {
      var rest := records[1..];
      FirstStart(rest);
      forall i: nat | StartsAt(records, i) ensures i > 0 && StartsAt(rest, i - 1) {
        assert forall j :: 0 <= j < i - 1 ==> rest[j] == records[j + 1];
      }
      if i: nat :| StartsAt(rest, i) {
        assert forall j :: 1 <= j < i + 1 ==> records[j] == rest[j - 1];
        assert StartsAt(records, i + 1);
      }
    }
  }

  lemma {:induction false} OfHolds(records: seq<TraceRecord>, id: string, record: TraceRecord)
    ensures record in Of(records, id) <==> record in records && record.invocation == Some(id)
  {
    if records != [] {
      var init, last := records[..|records| - 1], records[|records| - 1];
      assert records == init + [last];
      OfHolds(init, id, record);
    }
  }

  lemma {:induction false} ScenarioIsNamed(fileName: string, group: seq<TraceRecord>)
    requires |Named(group)| <= 1
    ensures forall record <- group :: record.NamesScenario() ==> record.scenario.value == ScenarioOf(fileName, group)
  {
    if group != [] {
      assert group == [group[0]] + group[1..];
      if group[0].NamesScenario() {
        forall record | record in group && record.NamesScenario()
          ensures record.scenario.value == group[0].scenario.value {
          OnlyOne(Named(group), record.scenario.value, group[0].scenario.value);
        }
      } else {
        assert Named(group) == Named(group[1..]);
        ScenarioIsNamed(fileName, group[1..]);
      }
    }
  }

  lemma OnlyOne(names: set<string>, a: string, b: string)
    requires |names| <= 1 && a in names && b in names
    ensures a == b
  {
    assert |names - {a}| == |names| - 1;
    assert names - {a} == {};
  }

  /** A file can be read exactly when its lines are blank or records, every record says which attempt it is of, and
      the records of one attempt that name a scenario name the same one. */
  lemma ReadableMeans(file: TraceFile)
    ensures Readable(file) <==>
      && (forall line <- file.lines :: line.Blank? || line.Holds?)
      && (forall r <- RecordsIn(file.lines) :: r.invocation.Some? && r.invocation.value != "")
      && forall a <- RecordsIn(file.lines), b <- RecordsIn(file.lines) :: NameTheSame(a, b)
  {
    var records := RecordsIn(file.lines);
    if AllIdentified(records) {
      if OneScenarioEach(records) {
        forall a, b | a in records && b in records ensures NameTheSame(a, b) {
          if a.invocation == b.invocation && a.NamesScenario() && b.NamesScenario() {
            var id := a.invocation.value;
            OfHolds(records, id, a);
            OfHolds(records, id, b);
            assert id in Ids(records);
            OnlyOne(Named(Of(records, id)), a.scenario.value, b.scenario.value);
          }
        }
      }
      if forall a <- records, b <- records :: NameTheSame(a, b) {
        forall id | id in Ids(records) ensures |Named(Of(records, id))| <= 1 {
          OneNameEach(records, id);
        }
      }
    }
  }

  /** Two records of one attempt do not name two scenarios. */
  predicate NameTheSame(a: TraceRecord, b: TraceRecord) {
    var bothName := a.scenario.Some? && b.scenario.Some? && a.scenario.value != "" && b.scenario.value != "";
    a.invocation == b.invocation && bothName ==> a.scenario == b.scenario
  }

  lemma OneNameEach(records: seq<TraceRecord>, id: string)
    requires forall a <- records, b <- records :: NameTheSame(a, b)
    ensures |Named(Of(records, id))| <= 1
  {
    var names := Named(Of(records, id));
    forall x, y | x in names && y in names ensures x == y {
      var a :| a in Of(records, id) && a.NamesScenario() && a.scenario.value == x;
      var b :| b in Of(records, id) && b.NamesScenario() && b.scenario.value == y;
      OfHolds(records, id, a);
      OfHolds(records, id, b);
      assert NameTheSame(a, b);
    }
    if names != {} {
      var x :| x in names;
      assert names == {x};
    }
  }

  /** Reading loses no record and mixes no two attempts: each record is in exactly the invocation whose id it
      carries, and a scenario any of them names is that invocation's. */
  lemma AttemptsAreSeparated(file: TraceFile, record: TraceRecord)
    requires Readable(file) && record in RecordsIn(file.lines)
    ensures exists found <- Invocations(file) :: record in found.records
    ensures forall found <- Invocations(file) ::
      record in found.records <==> Some(found.invocationId) == record.invocation
    ensures forall found <- Invocations(file) ::
      record in found.records && record.scenario.Some? && record.scenario.value != "" ==>
        record.scenario == Some(found.scenario)
    ensures forall found <- Invocations(file) ::
      (forall one <- found.records :: one.scenario.None? || one.scenario.value == "") ==>
        found.scenario == BeforeDot(file.name)
  {
    var records := RecordsIn(file.lines);
    forall found | found in Invocations(file) && forall one <- found.records ::
      one.scenario.None? || one.scenario.value == ""
      ensures found.scenario == BeforeDot(file.name) {
      UnnamedIsTheFiles(file.name, found.records);
    }
    var ids := Ids(records);
    var id := record.invocation.value;
    assert id in ids;
    var i :| 0 <= i < |ids| && ids[i] == id;
    OfHolds(records, id, record);
    assert Invocations(file)[i] in Invocations(file);
    forall found | found in Invocations(file)
      ensures record in found.records <==> Some(found.invocationId) == record.invocation
      ensures record in found.records && record.NamesScenario() ==> found.scenario == record.scenario.value
    {
      OfHolds(records, found.invocationId, record);
      assert found.invocationId in ids;
      ScenarioIsNamed(file.name, found.records);
    }
  }
}
