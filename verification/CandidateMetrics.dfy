/** The two terms of the gap, and the gap, of a single run at one k: evals/candidate_metrics.py. */
module CandidateMetrics {
  import opened Wrappers

  datatype Candidate = Candidate(category: string, name: string, rank: int, id: string)

  /** A decision, and the candidate it named. */
  datatype Selection = Selection(decision: string, selected: Option<string>)
  {
    /** Only a `select` that names a candidate counts as a choice. */
    predicate Committed() {
      decision == "select" && selected.Some?
    }
  }

  datatype Step = Step(candidates: seq<Candidate>, actionKind: string, selection: Option<Selection>)
  {
    predicate IsDeciding() {
      actionKind == "remediate" || actionKind == "stop"
    }
  }

  /** What the terms look at: the final remediating or stopping step if there is any, and the final step if not. */
  function DecidingStep(steps: seq<Step>): (step: Option<Step>)
    ensures step.None? <==> steps == []
    ensures step.Some? ==> exists i :: Decides(steps, i) && step.value == steps[i]
  {
    if steps == [] then None
    else
      var deciding := Deciding(steps);
      var i := if deciding != [] then deciding[|deciding| - 1] else |steps| - 1;
      assert deciding != [] ==> deciding[|deciding| - 1] in deciding;
      assert Decides(steps, i);
      Some(steps[i])
  }

  ghost predicate Decides(steps: seq<Step>, i: int) {
    && 0 <= i < |steps|
    && (forall j :: i < j < |steps| ==> steps[j].actionKind !in {"remediate", "stop"})
    && (steps[i].actionKind !in {"remediate", "stop"} ==>
      i == |steps| - 1 && forall j :: 0 <= j < |steps| ==> steps[j].actionKind !in {"remediate", "stop"})
  }

  /** Where the deciding steps are, in order. */
  function Deciding(steps: seq<Step>): (at: seq<nat>)
    ensures forall i <- at :: i < |steps| && steps[i].IsDeciding()
    ensures at == [] ==> forall j :: 0 <= j < |steps| ==> !steps[j].IsDeciding()
    ensures at != [] ==> forall j :: at[|at| - 1] < j < |steps| ==> !steps[j].IsDeciding()
  {
    if steps == [] then []
    else Deciding(steps[..|steps| - 1]) + if steps[|steps| - 1].IsDeciding() then [|steps| - 1] else []
  }

  function Min(a: int, b: int): int {
    if a < b then a else b
  }

  // ----- The two terms -----

  /** Whether the run hit, if it has what the term asks about. */
  type Hit = Option<bool>

  predicate Right(candidate: Candidate, effective: int, expected: set<string>) {
    candidate.rank < effective && candidate.category in expected
  }

  function PassAtK(steps: seq<Step>, expected: set<string>, k: int): Hit {
    var step := DecidingStep(steps);
    if step.None? || step.value.candidates == [] then None
    else
      var effective := Min(k, |step.value.candidates|);
      Some(exists candidate <- step.value.candidates :: Right(candidate, effective, expected))
  }

  function FirstNamed(candidates: seq<Candidate>, id: string): (chosen: Option<Candidate>)
    ensures chosen.Some? ==> chosen.value in candidates && chosen.value.id == id
    ensures chosen.None? ==> forall c <- candidates :: c.id != id
  {
    if candidates == [] then None
    else if candidates[0].id == id then Some(candidates[0])
    else FirstNamed(candidates[1..], id)
  }

  function SelectedAtK(steps: seq<Step>, expected: set<string>, k: int): Hit {
    var step := DecidingStep(steps);
    if step.None? || step.value.candidates == [] || step.value.selection.None? then None
    else
      var effective, selection := Min(k, |step.value.candidates|), step.value.selection.value;
      if !selection.Committed() then Some(false)
      else
        var chosen := FirstNamed(step.value.candidates, selection.selected.value);
        Some(chosen.Some? && Right(chosen.value, effective, expected))
  }

  /** Among the candidates of the step looked at, a right one in the top k. */
  ghost predicate RightAt(candidates: seq<Candidate>, j: nat, expected: set<string>, k: int) {
    && j < |candidates|
    && candidates[j].rank < k && candidates[j].rank < |candidates| && candidates[j].category in expected
  }

  /** pass@k, of the step looked at: not scored without candidates, and a hit exactly when some candidate in the top k
      is of an expected category. */
  lemma PassMeans(steps: seq<Step>, expected: set<string>, k: int, i: nat)
    requires Decides(steps, i)
    ensures PassAtK(steps, expected, k).None? <==> steps[i].candidates == []
    ensures PassAtK(steps, expected, k) == Some(true) <==>
      exists j: nat :: RightAt(steps[i].candidates, j, expected, k)
  {
    var candidates := steps[i].candidates;
    assert DecidingStep(steps) == Some(steps[i]);
    if c :| c in candidates && Right(c, Min(k, |candidates|), expected) {
      var j: nat :| j < |candidates| && candidates[j] == c;
      assert RightAt(candidates, j, expected, k);
    }
    if j: nat :| RightAt(candidates, j, expected, k) {
      assert candidates[j] in candidates && Right(candidates[j], Min(k, |candidates|), expected);
    }
  }

  /** selected@k: not scored without candidates or without a selection, and a hit exactly when the selector chose
      right. */
  lemma SelectedMeans(steps: seq<Step>, expected: set<string>, k: int, i: nat)
    requires Decides(steps, i)
    ensures SelectedAtK(steps, expected, k).None? <==> steps[i].candidates == [] || steps[i].selection.None?
    ensures SelectedAtK(steps, expected, k) == Some(true) <==> ChoseRight(steps[i], expected, k)
  {
    assert DecidingStep(steps) == Some(steps[i]);
    if steps[i].selection.Some? {
      ChoiceMeans(steps[i], expected, k);
    }
  }

  /** The selector chose, by its id, a candidate that is right in the top k: the first of that id. */
  ghost predicate ChoseRight(step: Step, expected: set<string>, k: int) {
    && step.selection.Some? && step.selection.value.decision == "select" && step.selection.value.selected.Some?
    && exists j: nat ::
      RightAt(step.candidates, j, expected, k) && IsFirst(step.candidates, step.selection.value.selected.value, j)
  }

  lemma ChoiceMeans(step: Step, expected: set<string>, k: int)
    requires step.selection.Some?
    ensures ChoseRight(step, expected, k) <==>
      && step.selection.value.Committed()
      && var chosen := FirstNamed(step.candidates, step.selection.value.selected.value);
        chosen.Some? && Right(chosen.value, Min(k, |step.candidates|), expected)
  {
    if step.selection.value.Committed() {
      var id := step.selection.value.selected.value;
      FirstIsFirst(step.candidates, id);
      if FirstNamed(step.candidates, id).Some? {
        var j: nat :| IsFirst(step.candidates, id, j);
        assert Right(step.candidates[j], Min(k, |step.candidates|), expected)
          <==> RightAt(step.candidates, j, expected, k);
      }
    }
  }

  /** The first candidate with this id. */
  predicate IsFirst(candidates: seq<Candidate>, id: string, j: nat) {
    j < |candidates| && candidates[j].id == id && forall l :: 0 <= l < j ==> candidates[l].id != id
  }

  lemma {:induction false} FirstIsFirst(candidates: seq<Candidate>, id: string)
    ensures forall j: nat :: IsFirst(candidates, id, j) ==> FirstNamed(candidates, id) == Some(candidates[j])
    ensures FirstNamed(candidates, id).Some? ==> exists j: nat :: IsFirst(candidates, id, j)
  {
    if candidates != [] && candidates[0].id == id {
      assert IsFirst(candidates, id, 0);
    } else if candidates != [] {
      var rest := candidates[1..];
      FirstIsFirst(rest, id);
      forall j: nat | IsFirst(candidates, id, j) ensures j > 0 && IsFirst(rest, id, j - 1) {
        assert forall l :: 0 <= l < j - 1 ==> rest[l] == candidates[l + 1];
      }
      if j: nat :| IsFirst(rest, id, j) {
        assert forall l :: 1 <= l < j + 1 ==> candidates[l] == rest[l - 1];
        assert IsFirst(candidates, id, j + 1);
      }
    }
  }

  /** Both terms keep a hit as k grows, and neither starts or stops being scored. */
  lemma HitsLast(steps: seq<Step>, expected: set<string>, k: int, larger: int)
    requires k <= larger
    ensures PassAtK(steps, expected, k) == Some(true) ==> PassAtK(steps, expected, larger) == Some(true)
    ensures SelectedAtK(steps, expected, k) == Some(true) ==> SelectedAtK(steps, expected, larger) == Some(true)
    ensures PassAtK(steps, expected, k).Some? == PassAtK(steps, expected, larger).Some?
    ensures SelectedAtK(steps, expected, k).Some? == SelectedAtK(steps, expected, larger).Some?
  {
    if PassAtK(steps, expected, k) == Some(true) {
      var candidates := DecidingStep(steps).value.candidates;
      var candidate :| candidate in candidates && Right(candidate, Min(k, |candidates|), expected);
      assert Right(candidate, Min(larger, |candidates|), expected);
    }
  }

  /** Whatever ranks the record carries, a selection that hits is a candidate that was available. */
  lemma SelectedWasAvailable(steps: seq<Step>, expected: set<string>, k: int)
    ensures SelectedAtK(steps, expected, k) == Some(true) ==> PassAtK(steps, expected, k) == Some(true)
    ensures SelectedAtK(steps, expected, k).Some? ==> PassAtK(steps, expected, k).Some?
  {
  }

  // ----- The gap -----

  datatype WorldKey = WorldKey(scenario: string, mode: string, instance: string)

  datatype GapError = AcrossWorlds | Impossible

  datatype OracleGap = OracleGap(passHit: Hit, selectedHit: Hit, gap: Option<int>)

  function OracleGapAtK(steps: seq<Step>, expected: set<string>, k: int, world: WorldKey, against: Option<WorldKey>)
    : Result<OracleGap, GapError>
  {
    if against.Some? && against.value != world then Err(AcrossWorlds)
    else
      var available, committed := PassAtK(steps, expected, k), SelectedAtK(steps, expected, k);
      if available.None? || committed.None? then Ok(OracleGap(available, committed, None))
      else
        var gap := ToInt(available.value) - ToInt(committed.value);
        if gap < 0 then Err(Impossible) else Ok(OracleGap(available, committed, Some(gap)))
  }

  function ToInt(b: bool): int {
    if b then 1 else 0
  }

  /** The only refusal is an unpaired comparison; a scored gap is 1 exactly when a right candidate was in the
      top k and the selector did not take it, and 0 otherwise. */
  lemma GapIsAMissedAnswer(steps: seq<Step>, expected: set<string>, k: int, world: WorldKey, against: Option<WorldKey>)
    ensures var r := OracleGapAtK(steps, expected, k, world, against);
      if against.Some? && against.value != world then r == Err(AcrossWorlds)
      else
        && r.Ok? && (r.value.gap.Some? <==> SelectedAtK(steps, expected, k).Some?)
        && (r.value.gap.Some? ==> r.value.gap.value in {0, 1})
        && (r.value.gap == Some(1) <==>
              PassAtK(steps, expected, k) == Some(true) && SelectedAtK(steps, expected, k) == Some(false))
  {
    SelectedWasAvailable(steps, expected, k);
  }
}
