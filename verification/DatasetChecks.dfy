/** What evals/dataset_checks.py finds wrong with the files of an export, whoever wrote them. */
module DatasetChecks {
  import opened Wrappers
  import opened Sorting
  import opened Exporter
  import Texts

  datatype CheckName = ManifestDisagreement | MissingResult | ActionResultMismatch | HoldoutContamination

  datatype Finding = Finding(check: CheckName, record: string)

  /** One line as read: the id it spells, and the record where it parses as one. */
  datatype Line = Line(trajectoryId: string, record: Option<Trajectory>)

  datatype Dataset = Dataset(
    manifest: Manifest, trajectoryBytes: Bytes<Trajectory>, labelBytes: Bytes<LabelLine>, lines: seq<Line>,
    labelIds: seq<string>)

  function Records(lines: seq<Line>): seq<Trajectory> {
    if lines == [] then []
    else
      Records(lines[..|lines| - 1]) + if lines[|lines| - 1].record.Some? then [lines[|lines| - 1].record.value] else []
  }

  // ----- The manifest against the files -----

  ghost predicate Lists(listed: seq<string>, names: set<string>) {
    multiset(listed) == multiset(names)
  }

  /** Comparing two sorted listings decides whether the manifest lists exactly these names, each once. */
  method SameListing(listed: seq<string>, names: set<string>) returns (same: bool)
    ensures same <==> Lists(listed, names)
  {
    TextsAreOrdered();
    var sorted := Sort(Texts.Leq, listed);
    same := sorted == Texts.Sorted(names);
    SortedListsTheSet(names);
    if Lists(listed, names) {
      ListingIsUnique(sorted, names);
    }
  }

  lemma TextsAreOrdered()
    ensures TotalPreorder(Texts.Leq)
  {
    forall a, b ensures Texts.Leq(a, b) || Texts.Leq(b, a) { Texts.Total(a, b); }
    forall a, b, c | Texts.Leq(a, b) && Texts.Leq(b, c) ensures Texts.Leq(a, c) { Texts.Transitive(a, b, c); }
  }

  lemma SortedListsTheSet(names: set<string>)
    ensures Lists(Texts.Sorted(names), names)
  {
    var sorted := Texts.Sorted(names);
    forall name ensures multiset(sorted)[name] == multiset(names)[name] {
      OnceEach(sorted, name);
      assert name in sorted <==> name in multiset(sorted);
    }
  }

  lemma ListingIsUnique(sorted: seq<string>, names: set<string>)
    requires SortedBy(Texts.Leq, sorted) && Lists(sorted, names)
    ensures sorted == Texts.Sorted(names)
  {
    SortedListsTheSet(names);
    forall i, j | 0 <= i < j < |sorted| ensures Texts.Less(sorted[i], sorted[j]) {
      StillOnceEach(Texts.Sorted(names), sorted, i, j);
    }
    forall a, b, c | Texts.Less(a, b) && Texts.Less(b, c) ensures Texts.Less(a, c) {
      Texts.Transitive(a, b, c);
      if a == c { Texts.Antisymmetric(a, b); }
    }
    forall name ensures name in sorted <==> name in Texts.Sorted(names) {
      assert name in sorted <==> name in multiset(sorted);
    }
    OneListing(Texts.Less, sorted, Texts.Sorted(names));
  }

  ghost predicate NumbersAgree(manifest: Manifest, lines: nat, records: seq<Trajectory>) {
    && manifest.trajectoryCount == lines && manifest.completeCount == CompleteCount(records)
    && Lists(manifest.exportedTemplateIds, TemplatesOf(records))
    && Lists(manifest.exportedScenarios, ScenariosOf(records))
    && Lists(manifest.splitsPresent, SplitsOf(records))
  }

  function LineIds(lines: seq<Line>): set<string> {
    set line <- lines :: line.trajectoryId
  }

  function LabelIds(d: Dataset): set<string> {
    set id <- d.labelIds
  }

  ghost predicate ManifestAgrees(d: Dataset) {
    && d.trajectoryBytes == d.manifest.trajectoriesDigest && d.labelBytes == d.manifest.labelsDigest
    && NumbersAgree(d.manifest, |d.lines|, Records(d.lines))
    && LineIds(d.lines) == LabelIds(d)
    && forall record <- Records(d.lines) :: record.schemaVersion == d.manifest.schemaVersion
  }

  /** One finding where the claim fails. */
  function Unless(holds: bool, check: CheckName, record: string): seq<Finding> {
    if holds then [] else [Finding(check, record)]
  }

  function OneEach(ids: set<string>, check: CheckName): (found: seq<Finding>)
    ensures found == [] <==> ids == {}
    ensures forall finding <- found :: finding.check == check
  {
    var sorted := Texts.Sorted(ids);
    seq(|sorted|, i requires 0 <= i < |sorted| => Finding(check, sorted[i]))
  }

  method CheckNumbers(manifest: Manifest, lines: nat, records: seq<Trajectory>) returns (found: seq<Finding>)
    ensures found == [] <==> NumbersAgree(manifest, lines, records)
    ensures forall finding <- found :: finding.check == ManifestDisagreement
  {
    var templates := SameListing(manifest.exportedTemplateIds, TemplatesOf(records));
    var scenarios := SameListing(manifest.exportedScenarios, ScenariosOf(records));
    var splits := SameListing(manifest.splitsPresent, SplitsOf(records));
    found := Unless(manifest.trajectoryCount == lines, ManifestDisagreement, manifest.invocationId)
      + Unless(manifest.completeCount == CompleteCount(records), ManifestDisagreement, manifest.invocationId)
      + Unless(templates, ManifestDisagreement, manifest.invocationId)
      + Unless(scenarios, ManifestDisagreement, manifest.invocationId)
      + Unless(splits, ManifestDisagreement, manifest.invocationId);
  }

  /** `check_manifest`: silent exactly when every claim of the manifest is true of the two files. */
  method CheckManifest(d: Dataset) returns (found: seq<Finding>)
    ensures found == [] <==> ManifestAgrees(d)
    ensures forall finding <- found :: finding.check == ManifestDisagreement
  {
    found := Unless(d.trajectoryBytes == d.manifest.trajectoriesDigest, ManifestDisagreement, d.manifest.invocationId)
      + Unless(d.labelBytes == d.manifest.labelsDigest, ManifestDisagreement, d.manifest.invocationId);
    var numbers := CheckNumbers(d.manifest, |d.lines|, Records(d.lines));
    var unlabelled, unpaired := LineIds(d.lines) - LabelIds(d), LabelIds(d) - LineIds(d.lines);
    assert unlabelled == {} && unpaired == {} <==> LineIds(d.lines) == LabelIds(d);
    var versions := CheckVersions(d);
    found := found + numbers + OneEach(unlabelled, ManifestDisagreement) + OneEach(unpaired, ManifestDisagreement)
      + versions;
  }

  method CheckVersions(d: Dataset) returns (found: seq<Finding>)
    ensures found == [] <==> forall record <- Records(d.lines) :: record.schemaVersion == d.manifest.schemaVersion
    ensures forall finding <- found :: finding.check == ManifestDisagreement
  {
    found := [];
    var records := Records(d.lines);
    for i := 0 to |records|
      invariant found == [] <==> forall record <- records[..i] :: record.schemaVersion == d.manifest.schemaVersion
      invariant forall finding <- found :: finding.check == ManifestDisagreement
    {
      assert records[..i + 1] == records[..i] + [records[i]];
      if records[i].schemaVersion != d.manifest.schemaVersion {
        found := found + [Finding(ManifestDisagreement, records[i].trajectoryId)];
      }
    }
    assert records[..|records|] == records;
  }

  // ----- Actions against their results -----

  function CountId(observations: seq<ObservationRef>, id: string): nat {
    if observations == [] then 0
    else CountId(observations[..|observations| - 1], id) + if observations[|observations| - 1].id == id then 1 else 0
  }

  /** An id that names exactly one observation. */
  predicate Identifies(observations: seq<ObservationRef>, id: string) {
    id != "" && CountId(observations, id) == 1
  }

  lemma {:induction false} CountOfNone(observations: seq<ObservationRef>, id: string)
    ensures CountId(observations, id) == 0 <==> forall o <- observations :: o.id != id
  {
    if observations != [] {
      var init, last := observations[..|observations| - 1], observations[|observations| - 1];
      assert observations == init + [last];
      CountOfNone(init, id);
    }
  }

  lemma {:induction false} OneMeansOne(observations: seq<ObservationRef>, i: nat, j: nat)
    requires i < j < |observations| && observations[i].id == observations[j].id
    ensures CountId(observations, observations[i].id) >= 2
  {
    var init, last := observations[..|observations| - 1], observations[|observations| - 1];
    if j < |observations| - 1 {
      OneMeansOne(init, i, j);
    } else {
      CountOfNone(init, observations[i].id);
      assert init[i] in init;
    }
  }

  /** `observations_by_id`: the ids that name exactly one observation, each with that one. */
  method ObservationsById(observations: seq<ObservationRef>) returns (byId: map<string, ObservationRef>)
    ensures forall id :: id in byId <==> Identifies(observations, id)
    ensures forall id <- byId :: byId[id] in observations && byId[id].id == id
    ensures forall i ::
      0 <= i < |observations| && observations[i].id in byId ==> byId[observations[i].id] == observations[i]
  {
    var counts := Counts(observations);
    byId := map[];
    for i := 0 to |observations|
      invariant forall id <- byId :: Identifies(observations, id) && byId[id] in observations && byId[id].id == id
      invariant forall j :: 0 <= j < i && Identifies(observations, observations[j].id) ==> observations[j].id in byId
    {
      var id := observations[i].id;
      CountOfNone(observations, id);
      assert observations[i] in observations;
      if id != "" && counts[id] == 1 {
        byId := byId[id := observations[i]];
      }
    }
    forall id | Identifies(observations, id) ensures id in byId {
      CountOfNone(observations, id);
      var o :| o in observations && o.id == id;
    }
    forall i | 0 <= i < |observations| && observations[i].id in byId
      ensures byId[observations[i].id] == observations[i] {
      var o := byId[observations[i].id];
      var j :| 0 <= j < |observations| && observations[j] == o;
      if i < j { OneMeansOne(observations, i, j); }
      if j < i { OneMeansOne(observations, j, i); }
    }
  }

  method Counts(observations: seq<ObservationRef>) returns (counts: map<string, nat>)
    ensures forall id ::
      if id in counts then counts[id] == CountId(observations, id) > 0 else CountId(observations, id) == 0
  {
    counts := map[];
    for i := 0 to |observations|
      invariant forall id ::
        if id in counts then counts[id] == CountId(observations[..i], id) > 0 else CountId(observations[..i], id) == 0
    {
      assert observations[..i + 1][..i] == observations[..i];
      var id := observations[i].id;
      counts := counts[id := (if id in counts then counts[id] else 0) + 1];
    }
    assert observations[..|observations|] == observations;
  }

  /** The observation an action's reference resolves to, if it resolves, is that call's own. */
  ghost predicate OwnResult(action: ActionRecord, observations: seq<ObservationRef>) {
    Identifies(observations, action.result.observationRef) ==>
      forall o <- observations ::
        o.id == action.result.observationRef ==> o.toolName == action.toolName && o.ok == action.result.ok
  }

  ghost predicate ActionsAgree(record: Trajectory) {
    && (forall action <- record.actions :: OwnResult(action, record.observations))
    && record.outcome.actionCount == |record.actions| && record.outcome.decisionCount == |record.decisions|
  }

  /** `check_action_results` without audit windows: silent exactly when every resolved action carries its own
      call's tool and verdict, and the outcome counts what the line holds. */
  method CheckActionResults(d: Dataset) returns (found: seq<Finding>)
    ensures found == [] <==> forall record <- Records(d.lines) :: ActionsAgree(record)
    ensures forall finding <- found :: finding.check == ActionResultMismatch
  {
    found := [];
    var records := Records(d.lines);
    for i := 0 to |records|
      invariant found == [] <==> forall record <- records[..i] :: ActionsAgree(record)
      invariant forall finding <- found :: finding.check == ActionResultMismatch
    {
      assert records[..i + 1] == records[..i] + [records[i]];
      var more := CheckActions(records[i]);
      found := found + more;
    }
    assert records[..|records|] == records;
  }

  method CheckActions(record: Trajectory) returns (found: seq<Finding>)
    ensures found == [] <==> ActionsAgree(record)
    ensures forall finding <- found :: finding.check == ActionResultMismatch
  {
    var byId := ObservationsById(record.observations);
    found := [];
    for i := 0 to |record.actions|
      invariant found == [] <==> forall action <- record.actions[..i] :: OwnResult(action, record.observations)
      invariant forall finding <- found :: finding.check == ActionResultMismatch
    {
      assert record.actions[..i + 1] == record.actions[..i] + [record.actions[i]];
      var action := record.actions[i];
      var ref := action.result.observationRef;
      assert action in record.actions[..i + 1];
      if ref in byId {
        assert byId[ref] in record.observations;
        assert forall o <- record.observations :: o.id == ref ==> o == byId[ref];
        if byId[ref].toolName != action.toolName {
          found := found + [Finding(ActionResultMismatch, record.trajectoryId)];
        }
        if byId[ref].ok != action.result.ok {
          found := found + [Finding(ActionResultMismatch, record.trajectoryId)];
        }
      }
    }
    assert record.actions[..|record.actions|] == record.actions;
    if record.outcome.actionCount != |record.actions| {
      found := found + [Finding(ActionResultMismatch, record.trajectoryId)];
    }
    if record.outcome.decisionCount != |record.decisions| {
      found := found + [Finding(ActionResultMismatch, record.trajectoryId)];
    }
  }

  // ----- Missing results -----

  ghost predicate NothingMissing(record: Trajectory) {
    && (forall o <- record.observations :: Identifies(record.observations, o.id) && o.content.Some?)
    && (forall action <- record.actions :: Identifies(record.observations, action.result.observationRef))
    && forall o <- record.observations :: exists action <- record.actions :: action.result.observationRef == o.id
  }

  /** `check_missing_results`: silent exactly when every observation is identified, holds something and is
      some action's, and every action's result is there. */
  method CheckMissingResults(d: Dataset) returns (found: seq<Finding>)
    ensures found == [] <==> forall record <- Records(d.lines) :: NothingMissing(record)
    ensures forall finding <- found :: finding.check == MissingResult
  {
    found := [];
    var records := Records(d.lines);
    for i := 0 to |records|
      invariant found == [] <==> forall record <- records[..i] :: NothingMissing(record)
      invariant forall finding <- found :: finding.check == MissingResult
    {
      assert records[..i + 1] == records[..i] + [records[i]];
      var more := CheckMissing(records[i]);
      found := found + more;
    }
    assert records[..|records|] == records;
  }

  method CheckMissing(record: Trajectory) returns (found: seq<Finding>)
    ensures found == [] <==> NothingMissing(record)
    ensures forall finding <- found :: finding.check == MissingResult
  {
    var byId := ObservationsById(record.observations);
    var unidentified := exists o <- record.observations :: o.id !in byId;
    var dangling, referenced := CheckReferences(record, byId.Keys, unidentified);
    var hollow := CheckObservations(record, byId.Keys, referenced);
    found := Unless(!unidentified, MissingResult, record.trajectoryId) + dangling + hollow;
  }

  method CheckReferences(record: Trajectory, known: set<string>, unidentified: bool)
    returns (found: seq<Finding>, referenced: set<string>)
    ensures referenced == set action <- record.actions :: action.result.observationRef
    ensures found == [] <==> unidentified || forall action <- record.actions :: action.result.observationRef in known
    ensures forall finding <- found :: finding.check == MissingResult
  {
    found, referenced := [], {};
    for i := 0 to |record.actions|
      invariant referenced == set action <- record.actions[..i] :: action.result.observationRef
      invariant found == [] <==>
        unidentified || forall action <- record.actions[..i] :: action.result.observationRef in known
      invariant forall finding <- found :: finding.check == MissingResult
    {
      assert record.actions[..i + 1] == record.actions[..i] + [record.actions[i]];
      var ref := record.actions[i].result.observationRef;
      referenced := referenced + {ref};
      if !unidentified && ref !in known {
        found := found + [Finding(MissingResult, record.trajectoryId)];
      }
    }
    assert record.actions[..|record.actions|] == record.actions;
  }

  method CheckObservations(record: Trajectory, known: set<string>, referenced: set<string>)
    returns (found: seq<Finding>)
    ensures found == [] <==>
      forall o <- record.observations :: o.content.Some? && (o.id in known ==> o.id in referenced)
    ensures forall finding <- found :: finding.check == MissingResult
  {
    found := [];
    for i := 0 to |record.observations|
      invariant found == [] <==>
        forall o <- record.observations[..i] :: o.content.Some? && (o.id in known ==> o.id in referenced)
      invariant forall finding <- found :: finding.check == MissingResult
    {
      assert record.observations[..i + 1] == record.observations[..i] + [record.observations[i]];
      var o := record.observations[i];
      found := found + Unless(o.content.Some?, MissingResult, record.trajectoryId)
        + Unless(o.id in known ==> o.id in referenced, MissingResult, record.trajectoryId);
    }
    assert record.observations[..|record.observations|] == record.observations;
  }

  // ----- Holdout -----

  ghost predicate HoldoutClean(d: Dataset, corpus: seq<Scenario>) {
    var heldOut, byName := HoldoutIds(WholeCorpus(corpus)), ByName(corpus);
    && (forall record <- Records(d.lines) :: !Contaminates(record, heldOut, byName))
    && (forall template <- d.manifest.exportedTemplateIds :: template !in heldOut)
    && Lists(d.manifest.holdoutTemplateIdsInCorpus, heldOut)
  }

  predicate Contaminates(record: Trajectory, heldOut: set<string>, byName: map<string, Scenario>) {
    record.templateId in heldOut || record.split == HOLDOUT
      || (record.scenario in byName && byName[record.scenario].split == HOLDOUT)
  }

  /** `check_holdout`, from the corpus as given and not from the export's refusal. */
  method CheckHoldout(d: Dataset, corpus: seq<Scenario>) returns (found: seq<Finding>)
    ensures found == [] <==> HoldoutClean(d, corpus)
    ensures forall finding <- found :: finding.check == HoldoutContamination
  {
    var heldOut, byName := HoldoutIds(WholeCorpus(corpus)), ByName(corpus);
    found := CheckContamination(Records(d.lines), heldOut, byName);
    var overlap := set template <- d.manifest.exportedTemplateIds | template in heldOut;
    assert overlap == {} <==> forall template <- d.manifest.exportedTemplateIds :: template !in heldOut by {
      if template :| template in d.manifest.exportedTemplateIds && template in heldOut {
        assert template in overlap;
      }
    }
    var same := SameListing(d.manifest.holdoutTemplateIdsInCorpus, heldOut);
    found := found + OneEach(overlap, HoldoutContamination)
      + Unless(same, HoldoutContamination, d.manifest.invocationId);
  }

  method CheckContamination(records: seq<Trajectory>, heldOut: set<string>, byName: map<string, Scenario>)
    returns (found: seq<Finding>)
    ensures found == [] <==> forall record <- records :: !Contaminates(record, heldOut, byName)
    ensures forall finding <- found :: finding.check == HoldoutContamination
  {
    found := [];
    for i := 0 to |records|
      invariant found == [] <==> forall record <- records[..i] :: !Contaminates(record, heldOut, byName)
      invariant forall finding <- found :: finding.check == HoldoutContamination
    {
      assert records[..i + 1] == records[..i] + [records[i]];
      assert records[i] in records[..i + 1];
      var id := records[i].trajectoryId;
      found := found + Unless(records[i].templateId !in heldOut, HoldoutContamination, id)
        + Unless(records[i].split != HOLDOUT, HoldoutContamination, id)
        + Unless(
          !(records[i].scenario in byName && byName[records[i].scenario].split == HOLDOUT), HoldoutContamination, id);
    }
    assert records[..|records|] == records;
  }
}
